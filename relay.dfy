/** The `POST /api/chat` handler and the in-memory conversation store it keeps:
    validation, history lookup, prompt assembly, reply extraction, the capped
    history update and error translation. */
module Relay {
  import opened History
  import opened Prompt
  import opened Reply
  import Text

  datatype Option<T> = None | Some(value: T)

  /** The fields the handler reads from the request body; `None` is a field
      that is absent. */
  datatype Request = Request(message: Option<string>, language: Option<string>, userId: Option<string>)

  /** What the call to the completion service came to: it failed (a network
      error or a non-success status, which makes the HTTP client throw), or it
      answered with a response whose first part of the first candidate is
      `first`. */
  datatype Completion = Failed | Responded(first: FirstPart)

  /** The JSON body of the response: `{ error }` or `{ reply }`. */
  datatype Body = ErrorBody(error: string) | ReplyBody(reply: string)

  datatype Response = Response(status: int, body: Body)

  /** The `conversations` map: user identifier to history. */
  type Store = map<string, History>

  const DefaultLanguage: string := "english"
  const DefaultUser: string := "defaultUser"
  const NotConfigured: string := "GEMINI_API_KEY is not configured on the server."
  const MessageRequired: string := "Message is required."
  const Apology: string := "An error occurred while talking to the AI. Please try again."

  /** `language = 'english'` in the destructuring of the body. */
  function LanguageOf(req: Request): string {
    if req.language.Some? then req.language.value else DefaultLanguage
  }

  /** `userId = 'defaultUser'` in the destructuring of the body. */
  function UserOf(req: Request): string {
    if req.userId.Some? then req.userId.value else DefaultUser
  }

  /** `message` is truthy: present and not the empty string. */
  predicate HasMessage(message: Option<string>) {
    message.Some? && message.value != ""
  }

  /** `conversations.get(userId) || []`: an unseen user has an empty history. */
  function Lookup(store: Store, user: string): History {
    if user in store then store[user] else []
  }

  /** Every stored history satisfies the history invariant. */
  predicate StoreValid(store: Store) {
    forall u :: u in store ==> WellFormed(store[u])
  }

  /** The key is configured and a message was sent: the handler goes on to
      call the completion service. */
  predicate Admitted(hasKey: bool, req: Request) {
    hasKey && HasMessage(req.message)
  }

  /** What the `try` block reads from the completion call: the reply, or
      `Threw` when the call fails or reading its response throws. */
  function Completed(completion: Completion): (r: Extracted)
    ensures r.Reply? ==> r.text != "" && Text.Trimmed(r.text)
  {
    if completion.Failed? then Threw else ExtractReply(completion.first)
  }

  /** The store after one request: the exchange is recorded for the request's
      user when the request is admitted and a reply was read; otherwise
      nothing changes. */
  function NextStore(store: Store, hasKey: bool, req: Request, completion: Completion): Store {
    if Admitted(hasKey, req) && Completed(completion).Reply? then
      var user := UserOf(req);
      store[user := UpdateHistory(Lookup(store, user), req.message.value, Completed(completion).text)]
    else store
  }

  /** The effect of one request: the response sent, the prompt posted to the
      completion service (`None` when it is not called), and the new store. */
  datatype Outcome = Outcome(response: Response, prompt: Option<string>, store: Store)

  /** One request to the handler, given whether the API key is configured and
      what the completion call comes to. */
  function Respond(t: Template, store: Store, hasKey: bool, req: Request, completion: Completion): (o: Outcome)
    // the key is checked first, whatever the message
    ensures !hasKey ==> o == Outcome(Response(500, ErrorBody(NotConfigured)), None, store)
    // then the message; neither failure calls the completion service
    ensures hasKey && !HasMessage(req.message) ==>
              o == Outcome(Response(400, ErrorBody(MessageRequired)), None, store)
    ensures o.prompt.Some? <==> Admitted(hasKey, req)
    // the prompt is built from the label, the stored history and the message
    ensures o.prompt.Some? ==>
              o.prompt.value == Fill(t, LanguageLabel(LanguageOf(req)), Lookup(store, UserOf(req)), req.message.value)
    // history is written only on success
    ensures o.store == NextStore(store, hasKey, req, completion)
    ensures o.response.status == 200 || o.store == store
    // a call that fails or throws is answered with the apology
    ensures o.prompt.Some? ==>
              (o.response.status == 200 <==> completion.Responded? && !completion.first.NoText?)
    ensures o.prompt.Some? && o.response.status != 200 ==> o.response == Response(500, ReplyBody(Apology))
    // a success sends the extracted reply and records the exchange for this user only
    ensures o.response.status == 200 ==>
              o.response.body == ReplyBody(ExtractReply(completion.first).text) &&
              o.store == store[UserOf(req) := UpdateHistory(Lookup(store, UserOf(req)), req.message.value, o.response.body.reply)]
  {
    if !hasKey then Outcome(Response(500, ErrorBody(NotConfigured)), None, store)
    else if !HasMessage(req.message) then Outcome(Response(400, ErrorBody(MessageRequired)), None, store)
    else
      var prompt := Fill(t, LanguageLabel(LanguageOf(req)), Lookup(store, UserOf(req)), req.message.value);
      match Completed(completion)
      case Threw => Outcome(Response(500, ReplyBody(Apology)), Some(prompt), store)
      case Reply(reply) =>
        Outcome(Response(200, ReplyBody(reply)), Some(prompt), NextStore(store, hasKey, req, completion))
  }

  /** Replacing one user's history by a well-formed one keeps the store valid. */
  lemma StoreUpdateValid(store: Store, user: string, h: History)
    requires StoreValid(store) && WellFormed(h)
    ensures StoreValid(store[user := h])
  {
  }

  /** The store update of every request keeps every stored history well formed. */
  lemma NextStorePreservesValid(store: Store, hasKey: bool, req: Request, completion: Completion)
    requires StoreValid(store)
    ensures StoreValid(NextStore(store, hasKey, req, completion))
  {
    if Admitted(hasKey, req) && Completed(completion).Reply? {
      UpdateWellFormed(Lookup(store, UserOf(req)), req.message.value, Completed(completion).text);
    }
  }

  /** Every request keeps every stored history well formed, whatever the
      template. */
  lemma RespondPreservesValid(t: Template, store: Store, hasKey: bool, req: Request, completion: Completion)
    requires StoreValid(store)
    ensures StoreValid(Respond(t, store, hasKey, req, completion).store)
  {
    NextStorePreservesValid(store, hasKey, req, completion);
  }

  /** With the shopkeeper template, the prompt posted to the completion
      service is the handler's prompt `BuildPrompt`. */
  lemma ShopkeeperPrompt(store: Store, hasKey: bool, req: Request, completion: Completion)
    ensures var o := Respond(Shopkeeper, store, hasKey, req, completion);
            o.prompt.Some? ==>
              o.prompt.value == BuildPrompt(LanguageLabel(LanguageOf(req)), Lookup(store, UserOf(req)), req.message.value)
  {
  }

  /** An omitted language is English and an omitted user is `defaultUser`. */
  lemma OmittedFieldsDefault(t: Template, store: Store, hasKey: bool, message: Option<string>, completion: Completion)
    ensures Respond(t, store, hasKey, Request(message, None, None), completion)
         == Respond(t, store, hasKey, Request(message, Some("english"), Some("defaultUser")), completion)
  {
  }

  /** The first successful exchange of an unseen user leaves exactly that
      user's message and the reply in the store. */
  lemma FirstExchange(t: Template, store: Store, hasKey: bool, req: Request, completion: Completion)
    requires UserOf(req) !in store
    requires Respond(t, store, hasKey, req, completion).response.status == 200
    ensures var o := Respond(t, store, hasKey, req, completion);
            o.store[UserOf(req)] == [Turn(User, req.message.value), Turn(Model, o.response.body.reply)]
  {
  }

  /** One request of a series. */
  datatype Call = Call(hasKey: bool, req: Request, completion: Completion)

  /** The store after the requests `calls`, handled in order. */
  function Run(store: Store, calls: seq<Call>): Store {
    if calls == [] then store
    else
      var c := calls[|calls| - 1];
      NextStore(Run(store, calls[..|calls| - 1]), c.hasKey, c.req, c.completion)
  }

  /** A request that completes: key configured, message present, and a
      response from which a reply can be read. */
  predicate Succeeds(c: Call) {
    Admitted(c.hasKey, c.req) && Completed(c.completion).Reply?
  }

  function ExchangeOf(c: Call): Exchange
    requires Succeeds(c)
  {
    Exchange(c.req.message.value, Completed(c.completion).text)
  }

  function Exchanges(calls: seq<Call>): seq<Exchange>
    requires forall i :: 0 <= i < |calls| ==> Succeeds(calls[i])
  {
    seq(|calls|, i requires 0 <= i < |calls| && Succeeds(calls[i]) => ExchangeOf(calls[i]))
  }

  /** Any series of requests keeps every stored history well formed. */
  lemma {:induction false} RunPreservesValid(store: Store, calls: seq<Call>)
    requires StoreValid(store)
    ensures StoreValid(Run(store, calls))
  {
    if calls != [] {
      var c := calls[|calls| - 1];
      RunPreservesValid(store, calls[..|calls| - 1]);
      NextStorePreservesValid(Run(store, calls[..|calls| - 1]), c.hasKey, c.req, c.completion);
    }
  }

  /** Requests that all fail, for whatever reason, leave the store as it was. */
  lemma {:induction false} FailuresChangeNothing(store: Store, calls: seq<Call>)
    requires forall i :: 0 <= i < |calls| ==> !Succeeds(calls[i])
    ensures Run(store, calls) == store
  {
    if calls != [] {
      FailuresChangeNothing(store, calls[..|calls| - 1]);
    }
  }

  /** Requests for other users never touch this user's history. */
  lemma {:induction false} OtherUsersUntouched(store: Store, calls: seq<Call>, user: string)
    requires forall i :: 0 <= i < |calls| ==> UserOf(calls[i].req) != user
    ensures Lookup(Run(store, calls), user) == Lookup(store, user)
  {
    if calls != [] {
      OtherUsersUntouched(store, calls[..|calls| - 1], user);
    }
  }

  /** Successful requests for one user replay their exchanges onto that
      user's history. */
  lemma {:induction false} RunForOneUser(store: Store, calls: seq<Call>, user: string)
    requires forall i :: 0 <= i < |calls| ==> Succeeds(calls[i]) && UserOf(calls[i].req) == user
    ensures Lookup(Run(store, calls), user) == Replay(Lookup(store, user), Exchanges(calls))
  {
    if calls != [] {
      var init := calls[..|calls| - 1];
      var c := calls[|calls| - 1];
      var e := ExchangeOf(c);
      RunForOneUser(store, init, user);
      ghost var before := Lookup(Run(store, init), user);
      assert Lookup(Run(store, calls), user) == UpdateHistory(before, e.message, e.reply) by {
        assert Succeeds(c) && UserOf(c.req) == user;
      }
      ExchangesSnoc(calls);
    }
  }

  /** The exchanges of a series end with the exchange of its last request. */
  lemma ExchangesSnoc(calls: seq<Call>)
    requires calls != []
    requires forall i :: 0 <= i < |calls| ==> Succeeds(calls[i])
    ensures var es := Exchanges(calls);
            es[..|es| - 1] == Exchanges(calls[..|calls| - 1]) && es[|es| - 1] == ExchangeOf(calls[|calls| - 1])
  {
  }

  /** From an empty store, N successful requests for one user leave
      min(2N, 10) turns: the exchanges of the last five requests, in order. */
  lemma RunFromEmpty(calls: seq<Call>, user: string)
    requires forall i :: 0 <= i < |calls| ==> Succeeds(calls[i]) && UserOf(calls[i].req) == user
    ensures |Lookup(Run(map[], calls), user)| == Min(2 * |calls|, MaxTurns)
    ensures Lookup(Run(map[], calls), user)
         == Flatten(Exchanges(calls)[|calls| - Min(|calls|, MaxTurns / 2)..])
  {
    RunForOneUser(map[], calls, user);
    ReplayLength(Exchanges(calls));
    ReplayKeepsLatest(Exchanges(calls));
  }

  /** The model's answer in the worked example of a first greeting. */
  const Greeting: string := "Namaste! " + "What would you like today?"

  /** A first greeting answered by the model is stored as one exchange. */
  lemma GreetingExample(t: Template)
    ensures var o := Respond(t, map[], true, Request(Some("Hi"), Some("english"), Some("u1")),
                             Responded(Text(Greeting)));
            o.response == Response(200, ReplyBody(Greeting)) &&
            o.store == map["u1" := [Turn(User, "Hi"), Turn(Model, Greeting)]]
  {
    var req := Request(Some("Hi"), Some("english"), Some("u1"));
    var c := Responded(Text(Greeting));
    GreetingRead();
    assert ExtractReply(c.first) == Reply(Greeting);
    assert Admitted(true, req) && UserOf(req) == "u1" && Lookup(map[], "u1") == [];
    var o := Respond(t, map[], true, req, c);
    assert o.response.status == 200;
    assert o.response.body == ReplyBody(Greeting);
    assert UpdateHistory([], "Hi", Greeting) == [Turn(User, "Hi"), Turn(Model, Greeting)];
  }

  /** The greeting is read back unchanged: it has no surrounding whitespace. */
  lemma GreetingRead()
    ensures Completed(Responded(Text(Greeting))) == Reply(Greeting)
  {
    assert Greeting[0] == 'N' && Greeting[|Greeting| - 1] == '?';
    assert [] + Greeting + [] == Greeting;
    ReplyOfPadded([], Greeting, []);
  }

  /** A failed completion call gets the apology and stores nothing. */
  lemma FailureExample(t: Template)
    ensures var o := Respond(t, map[], true, Request(Some("hello"), None, Some("u1")), Failed);
            o.response == Response(500, ReplyBody(Apology)) && Lookup(o.store, "u1") == []
  {
  }

  /** The server process: its conversation store, updated in place by each
      request. */
  class ChatServer {
    /** The template literal of the prompt. */
    const template: Template
    var conversations: Store

    constructor ()
      ensures template == Shopkeeper && conversations == map[]
    {
      template := Shopkeeper;
      conversations := map[];
    }

    /** Appends the exchange to a fresh copy of the user's history, drops the
        copy's first two entries once if it is longer than `MaxTurns`, and
        stores the copy under the user. */
    method Record(userId: string, message: string, reply: string)
      modifies this
      ensures conversations == old(conversations)[userId := UpdateHistory(Lookup(old(conversations), userId), message, reply)]
      ensures old(StoreValid(conversations)) && message != "" && reply != "" ==> StoreValid(conversations)
    {
      var userHistory := if userId in conversations then conversations[userId] else [];
      var updatedHistory := userHistory + [Turn(User, message), Turn(Model, reply)];
      if |updatedHistory| > MaxTurns {
        updatedHistory := updatedHistory[2..];
      }
      assert updatedHistory == UpdateHistory(userHistory, message, reply);
      if StoreValid(conversations) && message != "" && reply != "" {
        UpdateWellFormed(userHistory, message, reply);
        StoreUpdateValid(conversations, userId, updatedHistory);
      }
      conversations := conversations[userId := updatedHistory];
    }

    /** Handles one `POST /api/chat` request. */
    method Handle(hasKey: bool, req: Request, completion: Completion) returns (response: Response, prompt: Option<string>)
      modifies this
      ensures Outcome(response, prompt, conversations) == Respond(template, old(conversations), hasKey, req, completion)
    {
      var message := req.message;
      var language := if req.language.Some? then req.language.value else DefaultLanguage;
      var userId := if req.userId.Some? then req.userId.value else DefaultUser;

      if !hasKey {
        return Response(500, ErrorBody(NotConfigured)), None;
      }
      if message.None? || message.value == "" {
        return Response(400, ErrorBody(MessageRequired)), None;
      }

      var userHistory := if userId in conversations then conversations[userId] else [];
      prompt := Some(Fill(template, LanguageLabel(language), userHistory, message.value));

      // the `try` block: the HTTP call throws when it fails; otherwise the
      // reply is read from the response
      var extracted := Threw;
      if completion.Responded? {
        extracted := ExtractReply(completion.first);
      }
      if extracted.Threw? {
        response := Response(500, ReplyBody(Apology));
        return;
      }
      var reply := extracted.text;

      Record(userId, message.value, reply);
      response := Response(200, ReplyBody(reply));
    }
  }
}
