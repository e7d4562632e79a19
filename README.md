# Chat relay of the AI shopkeeper prototype

This project models the server side of a small conversational-commerce
prototype: the `POST /api/chat` handler in `api/chat.js` and the in-memory,
per-user conversation store it keeps. For each request the handler:

1. reads the body, applying the defaults `language = 'english'` and
   `userId = 'defaultUser'`;
2. checks that the Gemini API key is configured, then that a message was sent;
3. reads the user's history, where an unseen user has an empty one;
4. builds the shopkeeper prompt from the language label, the history as
   `role: text` lines and the current message;
5. calls the completion service and reads the trimmed text of the first part of
   the first candidate, or a fixed fallback;
6. appends the user/model pair to a fresh copy of the history, drops its
   first two entries once if it is longer than ten entries, and stores it;
7. turns any exception in steps 5–6 into a 500 response carrying an apology.

Modules:

- `Text` (`text.dfy`): JavaScript's `String.prototype.trim`, with its exact
  whitespace set, and `join('\n')`, with the position of every joined line.
- `History` (`history.dfy`): turns; the capped update; the history invariant
  (at most 10 entries, an even number of them, alternating user/model from the
  user, none empty); and what a series of exchanges leaves behind.
- `Prompt` (`prompt.dfy`): the language labels, the prompt template and where
  the label, each history line and the message sit in the prompt.
- `Reply` (`reply.dfy`): the optional chain `?.parts?.[0]?.text.trim() || fallback`.
- `Relay` (`relay.dfy`): the pure specification `Respond` of one request;
  `Run`, which applies a series of requests; lemmas over series; and the class
  `ChatServer`. The class holds the `conversations` map as a field and the
  prompt template as a constant. Its method `Handle` does the handler's steps
  one at a time and is proved equal to `Respond`. `Handle` calls `Record` for
  the history update: the pair is appended to a fresh copy of the history,
  its first two entries are dropped once if it is too long, and the map entry
  is replaced.

`Respond` takes the prompt template as a parameter. The handler's template is
`Prompt.Shopkeeper`, the exact text of the template literal, and the
`ChatServer` constructor sets it, so a server only ever posts
`Prompt.BuildPrompt`, the template filled in (`ShopkeeperPrompt`). The
properties of `Respond` and the position lemmas of `Prompt` hold for any
template; `BuildPromptOrder` instantiates them for `BuildPrompt` itself.

The completion service, the environment variable and the HTTP layer are
inputs and outputs. `hasKey` is the truthiness of `process.env.GEMINI_API_KEY`
(set and not empty). A `Completion` value stands for what the call came to:
`Failed` covers every way the HTTP client throws. `Responded(first)` says
what the optional chain finds:
- `NoPart`: some link of `data?.candidates?.[0]?.content?.parts?.[0]` is missing.
- `NoText`: `parts[0]` exists but its `text` is not a string.
- `Text(raw)`: `text` is the string `raw`.

`Handle` returns the prompt it posts, and `None` when it makes no call, so
"no completion attempted" can be stated.

Where one might expect otherwise, the model follows the code:

- Eviction is a single `splice(0, 2)`, not a loop that removes pairs until the
  history fits. Under the history invariant the two agree (`UpdateWellFormed`).
- An unknown language key is written into the prompt as the text `undefined`,
  because that is what a template literal makes of `undefined`.
- A completion failure is answered with status 500 and `{ reply: apology }`, not
  with a success.
- When `parts[0]` exists without a string `text`, `.text.trim()` throws. The
  result is the 500 apology with the history unchanged, not the fallback reply.

## Model

| member | source | states |
|---|---|---|
| `Text.Trim` | api/chat.js:68 | the result has no whitespace at either end, and it is empty exactly when the input is all whitespace |
| `Text.TrimPadded` | api/chat.js:68 | trimming a string padded on both sides with whitespace gives back exactly that string, so `trim` removes the padding and nothing else |
| `Text.TrimIdempotent` | api/chat.js:68 | trimming twice gives the same as trimming once |
| `Text.JoinAt` | api/chat.js:45 | in `lines.join('\n')`, line i appears verbatim at its offset, which is after every earlier line and its newline |
| `Text.NewlineAfter` | api/chat.js:45 | in `lines.join('\n')`, a newline follows every line but the last |
| `Prompt.LanguageLabel` | api/chat.js:32-36 | a known key gives its label; the label is the text `undefined` exactly when the key is unknown (a defining contract, the lookup itself) |
| `Prompt.HistoryLine` | api/chat.js:45 | the arrow function's `role: text` line; it is characterised by where it lands in the prompt (`PromptHasHistoryLine`, `BuildPromptOrder`) |
| `Prompt.HistoryLines` | api/chat.js:45 | there is one `role: text` line per turn, in the same order (a defining contract, the `map` itself) |
| `Text.JoinLines` | api/chat.js:45 | `join('\n')`; characterised by `JoinAt` and `NewlineAfter` |
| `Prompt.Fill` | api/chat.js:38-49 | the template literal with its four substitutions; characterised by `PromptHasLabel`, `PromptHasHistoryLine` and `PromptEndsWithMessage` |
| `Prompt.BuildPrompt` | api/chat.js:38-49 | the handler's prompt, `Fill` on the shopkeeper template; characterised by `BuildPromptOrder` and tied to the handler by `ShopkeeperPrompt` |
| `Prompt.PromptHasLabel` | api/chat.js:38-40 | the language label sits right after the persona sentence and before the history block |
| `Prompt.PromptHasHistoryLine` | api/chat.js:44-45 | history turn i appears as its `role: text` line at its offset; line i+1 starts one newline later; every line ends before the current message |
| `Prompt.PromptEndsWithMessage` | api/chat.js:47-49 | the current message follows the whole history block and comes last, before the closing indentation |
| `Prompt.PromptOrderExample` | api/chat.js:38-49 | for history user "a", model "b" and message "c", the prompt built on any template holds "user: a", then "model: b", then "c" |
| `Prompt.BuildPromptOrder` | api/chat.js:38-49 | the same order in `BuildPrompt`, the prompt on the shopkeeper template |
| `Reply.ExtractReply` | api/chat.js:68 | evaluation throws exactly when `parts[0]` has no string text; a missing part or an all-whitespace text gives the fallback; otherwise the trimmed text; every reply is non-empty with no surrounding whitespace |
| `Reply.ReplyOfPadded` | api/chat.js:68 | a reply text padded with whitespace is read back as exactly that text |
| `History.UpdateHistory` | api/chat.js:71-79 | the last two entries are the user's message and the model's reply; exactly two entries are dropped when the appended history exceeds 10, otherwise none; the result is a suffix of old history + pair |
| `History.UpdateWellFormed` | api/chat.js:71-79 | an exchange with a non-empty message and reply keeps the history invariant, and the length becomes min(old length + 2, 10) |
| `History.Replay` | api/chat.js:71-80 | the history after a series of exchanges; characterised by `ReplayKeepsLatest`, `ReplayLength` and `ReplayWellFormed` |
| `History.ReplayKeepsLatest` | api/chat.js:71-80 | from an empty history, a series of exchanges leaves exactly the turns of its last five exchanges, in order, so the oldest pair goes first |
| `History.ReplayLength` | api/chat.js:77-79 | from an empty history, N exchanges leave min(2N, 10) entries |
| `History.ReplayWellFormed` | api/chat.js:71-80 | any series of exchanges with non-empty texts keeps the history invariant |
| `Relay.LanguageOf` | api/chat.js:18 | the destructuring default `language = 'english'`; characterised by `OmittedFieldsDefault` |
| `Relay.UserOf` | api/chat.js:18 | the destructuring default `userId = 'defaultUser'`; characterised by `OmittedFieldsDefault` |
| `Relay.HasMessage` | api/chat.js:24 | `message` is truthy; its negation is the 400 case of `Respond` |
| `Relay.Lookup` | api/chat.js:29 | `conversations.get(userId) \|\| []`; `FirstExchange` states its empty case |
| `Relay.NextStore` | api/chat.js:71-80 | the store after one request; `Respond` ties its store to it, `NextStorePreservesValid` keeps the invariant |
| `Relay.Respond` | api/chat.js:17-89 | for a given template: with no key: 500 "not configured" and the store unchanged, whatever the message. With a key and no message: 400 "Message is required.", no call, store unchanged. The service is called exactly when both checks pass, with the prompt built from the label, the stored history and the message. The store changes only on a 200. A failed or throwing call gives the 500 apology. A success returns the extracted reply and replaces only this user's entry by the updated history |
| `Relay.Completed` | api/chat.js:53-68 | the `try` block's reading of the reply: a reply that is read is non-empty and has no surrounding whitespace |
| `Relay.NextStorePreservesValid` | api/chat.js:71-80 | the store update of any request keeps every stored history well formed |
| `Relay.RespondPreservesValid` | api/chat.js:71-80 | every request, for any template, keeps every stored history well formed |
| `Relay.ShopkeeperPrompt` | api/chat.js:38-51 | with the shopkeeper template, the prompt posted is `BuildPrompt` of the label, the stored history and the message |
| `Relay.OmittedFieldsDefault` | api/chat.js:18 | a request without language and userId is handled as one with `english` and `defaultUser` |
| `Relay.FirstExchange` | api/chat.js:29 | after the first success of an unseen user, the stored history is exactly the message and the reply |
| `Relay.Run` | api/chat.js:14-89 | the store after a series of requests handled one after another; characterised by the `Run…`, `FailuresChangeNothing` and `OtherUsersUntouched` lemmas |
| `Relay.RunPreservesValid` | api/chat.js:80 | any series of requests keeps every stored history well formed |
| `Relay.FailuresChangeNothing` | api/chat.js:85-88 | a series of requests that all fail (no key, no message, failed or throwing call) leaves the store unchanged |
| `Relay.OtherUsersUntouched` | api/chat.js:80 | requests for other user identifiers never change this user's history |
| `Relay.RunForOneUser` | api/chat.js:29-80 | successful requests for one user replay their exchanges, in order, onto that user's history |
| `Relay.RunFromEmpty` | api/chat.js:71-80 | from an empty store, N successes for one user leave min(2N, 10) entries: the exchanges of the last five requests |
| `Relay.GreetingExample` | api/chat.js:68-83 | "Hi" answered with "Namaste! What would you like today?" returns that reply and stores exactly those two turns for `u1` |
| `Relay.FailureExample` | api/chat.js:85-88 | "hello" with a failing call returns the apology and `u1` still has an empty history |
| `Relay.ChatServer.constructor` | api/chat.js:14 | the store starts empty and the template is the shopkeeper template |
| `Relay.ChatServer.Record` | api/chat.js:71-80 | after appending the pair to a fresh copy and dropping its first two entries once, the map holds `UpdateHistory` of the user's old history for that user and nothing else changed; a valid store stays valid for a non-empty message and reply |
| `Relay.ChatServer.Handle` | api/chat.js:17-89 | the response, the posted prompt and the new `conversations` map are those of `Respond` with the server's template on the old map |

## Left out

- Express setup, `express.json()`, CORS and the `res.status().json()` plumbing
  (api/chat.js:1-10, 91-92): the response is returned as a `Response` value.
- The HTTP call to the Gemini endpoint (api/chat.js:53-66): its URL, model
  name, headers and request envelope are not modelled. The call is replaced by
  the `Completion` input, and the prompt it would carry is an output.
- The `process.env` lookup: the key is the boolean `hasKey`.
- `console.error` logging (api/chat.js:86).
- Concurrent requests interleaving at the `await` on the shared map: the model
  handles requests one after another, so the lost-update race of two
  overlapping requests for one user is not covered.
- Body fields that are not strings (numbers, objects, `null`): each field is a
  string or absent. A `null` language or user identifier, which the
  destructuring default does not replace, is not modelled.
- `Prompt.LanguageLabel`: keys inherited from `Object.prototype` (such as
  `constructor` or `toString`) are treated as unknown and give `undefined`, not
  the text of the inherited value.
- Strings are sequences of Unicode scalar values rather than UTF-16 code units,
  so lone surrogates cannot be represented.
- `frontend/src/App.js` (the React page flow, geolocation, order identifiers,
  translation tables) and `pages/ssr-test.js` (a constant demo page).
