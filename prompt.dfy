/** Assembly of the prompt sent to the completion service: the shopkeeper
    persona, the customer's language, the stored history one `role: text` line
    per turn, and the current message. */
module Prompt {
  import opened Text
  import opened History

  /** The language keys the handler knows and the labels it writes. */
  const LanguageMap: map<string, string> := map[
    "hindi" := "Hindi",
    "hinglish" := "Hinglish (a mix of Hindi and English)",
    "english" := "English"
  ]

  /** `${languageMap[language]}`: the label of a known key; any other key looks
      up `undefined`, which the template literal writes as the text
      "undefined". */
  function LanguageLabel(language: string): (languageLabel: string)
    ensures language in LanguageMap ==> languageLabel == LanguageMap[language]
    ensures languageLabel == "undefined" <==> language !in LanguageMap
  {
    if language in LanguageMap then LanguageMap[language] else "undefined"
  }

  function RoleName(r: Role): string {
    match r
    case User => "user"
    case Model => "model"
  }

  /** `${entry.role}: ${entry.parts[0].text}` */
  function HistoryLine(t: Turn): string {
    RoleName(t.role) + ": " + t.text
  }

  /** `userHistory.map(...)`: one line per turn, in the same order. */
  function HistoryLines(h: History): (lines: seq<string>)
    ensures |lines| == |h|
    ensures forall i :: 0 <= i < |h| ==> lines[i] == HistoryLine(h[i])
  {
    seq(|h|, i requires 0 <= i < |h| => HistoryLine(h[i]))
  }

  /** The fixed text of the prompt's template literal, between its four
      substitutions. */
  datatype Template = Template(opening: string, instructions: string, heading: string, closing: string)

  const Shopkeeper: Template := Template(
    "\n        You are a friendly and helpful AI shopkeeper for a store in India.\n" +
    "        Your customer is speaking ",
    ".\n        Your goal is to understand their shopping needs, suggest relevant products, and help them place an order.\n" +
    "        Keep your responses concise, friendly, and natural.\n" +
    "\n" +
    "        Conversation History:\n" +
    "        ",
    "\n\n        Current User Message:\n        ",
    "\n    ")

  /** A template filled with the language label, the history lines joined by
      newlines, and the current message. */
  function Fill(t: Template, languageLabel: string, h: History, message: string): string {
    t.opening + languageLabel + t.instructions + JoinLines(HistoryLines(h)) + t.heading + message + t.closing
  }

  /** The prompt the handler builds from the language label, the history and
      the message. */
  function BuildPrompt(languageLabel: string, h: History, message: string): string {
    Fill(Shopkeeper, languageLabel, h, message)
  }

  /** Where the history block begins in a filled template. */
  function HistoryStart(t: Template, languageLabel: string): nat {
    |t.opening| + |languageLabel| + |t.instructions|
  }

  /** Where history line `i` begins in a filled template. */
  function LineOffset(t: Template, languageLabel: string, h: History, i: nat): nat
    requires i <= |h|
  {
    HistoryStart(t, languageLabel) + LineStart(HistoryLines(h), i)
  }

  /** Where the current message begins in a filled template. */
  function MessageOffset(t: Template, languageLabel: string, h: History): nat {
    HistoryStart(t, languageLabel) + |JoinLines(HistoryLines(h))| + |t.heading|
  }

  /** The language label sits right after the persona sentence, before the
      history. */
  lemma PromptHasLabel(t: Template, languageLabel: string, h: History, message: string)
    ensures |t.opening| + |languageLabel| <= HistoryStart(t, languageLabel) <= |Fill(t, languageLabel, h, message)|
    ensures Fill(t, languageLabel, h, message)[|t.opening|..|t.opening| + |languageLabel|] == languageLabel
  {
    SliceOfConcat(t.opening, languageLabel,
      t.instructions + JoinLines(HistoryLines(h)) + t.heading + message + t.closing);
  }

  lemma SliceOfConcat(a: string, b: string, c: string)
    ensures (a + b + c)[|a|..|a| + |b|] == b
  {
  }

  lemma IndexOfConcat(a: string, b: string, c: string, k: nat)
    requires k < |b|
    ensures (a + b + c)[|a| + k] == b[k]
  {
  }

  lemma SliceOfConcatAt(a: string, b: string, c: string, lo: nat, hi: nat)
    requires lo <= hi <= |b|
    ensures (a + b + c)[|a| + lo..|a| + hi] == b[lo..hi]
  {
    assert (a + b + c)[|a| + lo..|a| + hi] == (a + b + c)[|a|..|a| + |b|][lo..hi];
    SliceOfConcat(a, b, c);
  }

  /** Every history turn appears as a `role: text` line, in chronological
      order: line `i` sits verbatim at `LineOffset(i)`, a newline separates it
      from line `i + 1`, and all of them end before the current message. */
  lemma PromptHasHistoryLine(t: Template, languageLabel: string, h: History, message: string, i: nat)
    requires i < |h|
    ensures HistoryStart(t, languageLabel) <= LineOffset(t, languageLabel, h, i)
    ensures LineOffset(t, languageLabel, h, i) + |HistoryLine(h[i])| <= MessageOffset(t, languageLabel, h)
    ensures MessageOffset(t, languageLabel, h) <= |Fill(t, languageLabel, h, message)|
    ensures Fill(t, languageLabel, h, message)[LineOffset(t, languageLabel, h, i)..
              LineOffset(t, languageLabel, h, i) + |HistoryLine(h[i])|] == HistoryLine(h[i])
    ensures i + 1 < |h| ==>
              LineOffset(t, languageLabel, h, i) + |HistoryLine(h[i])| + 1 == LineOffset(t, languageLabel, h, i + 1) &&
              LineOffset(t, languageLabel, h, i) + |HistoryLine(h[i])| < MessageOffset(t, languageLabel, h) &&
              Fill(t, languageLabel, h, message)[LineOffset(t, languageLabel, h, i) + |HistoryLine(h[i])|] == '\n'
  {
    var lines := HistoryLines(h);
    var before := t.opening + languageLabel + t.instructions;
    var after := t.heading + message + t.closing;
    assert Fill(t, languageLabel, h, message) == before + JoinLines(lines) + after;
    assert lines[i] == HistoryLine(h[i]);
    assert LineOffset(t, languageLabel, h, i) == |before| + LineStart(lines, i);
    assert MessageOffset(t, languageLabel, h) == |before| + |JoinLines(lines)| + |t.heading|;
    if i + 1 < |h| {
      assert LineOffset(t, languageLabel, h, i + 1) == |before| + LineStart(lines, i) + |lines[i]| + 1;
    }
    LineInContext(before, lines, after, i);
  }

  /** `JoinAt`, for the joined lines framed by any text before and after. */
  lemma LineInContext(before: string, lines: seq<string>, after: string, i: nat)
    requires i < |lines|
    ensures var p := before + JoinLines(lines) + after;
            var at := |before| + LineStart(lines, i);
            at + |lines[i]| <= |before| + |JoinLines(lines)| && |p| == |before| + |JoinLines(lines)| + |after| &&
            p[at..at + |lines[i]|] == lines[i] &&
            (i + 1 < |lines| ==> at + |lines[i]| < |before| + |JoinLines(lines)| && p[at + |lines[i]|] == '\n')
  {
    var joined := JoinLines(lines);
    JoinAt(lines, i);
    var st := LineStart(lines, i);
    SliceOfConcatAt(before, joined, after, st, st + |lines[i]|);
    if i + 1 < |lines| {
      NewlineAfter(lines, i);
      IndexOfConcat(before, joined, after, st + |lines[i]|);
    }
  }

  /** The current message comes after the whole history block and is the last
      thing in the prompt before its closing indentation. */
  lemma PromptEndsWithMessage(t: Template, languageLabel: string, h: History, message: string)
    ensures var p := Fill(t, languageLabel, h, message);
            HistoryStart(t, languageLabel) <= MessageOffset(t, languageLabel, h) &&
            MessageOffset(t, languageLabel, h) + |message| + |t.closing| == |p| &&
            p[MessageOffset(t, languageLabel, h)..MessageOffset(t, languageLabel, h) + |message|] == message &&
            p[MessageOffset(t, languageLabel, h) + |message|..] == t.closing
  {
    var before := t.opening + languageLabel + t.instructions + JoinLines(HistoryLines(h)) + t.heading;
    assert Fill(t, languageLabel, h, message) == before + message + t.closing;
    SliceOfConcat(before, message, t.closing);
    assert (before + message + t.closing)[|before| + |message|..] == t.closing;
  }

  /** For the history user "a", model "b" and the message "c", the prompt
      holds "user: a", then "model: b", then "c", whatever the template text. */
  lemma PromptOrderExample(t: Template, languageLabel: string)
    ensures var h := [Turn(User, "a"), Turn(Model, "b")];
            var p := Fill(t, languageLabel, h, "c");
            var i := LineOffset(t, languageLabel, h, 0);
            var j := LineOffset(t, languageLabel, h, 1);
            var m := MessageOffset(t, languageLabel, h);
            i + 7 <= j && j + 8 <= m && m + 1 <= |p| &&
            p[i..i + 7] == "user: a" && p[j..j + 8] == "model: b" && p[m..m + 1] == "c"
  {
    var h := [Turn(User, "a"), Turn(Model, "b")];
    assert HistoryLine(h[0]) == "user: a";
    assert HistoryLine(h[1]) == "model: b";
    PromptHasHistoryLine(t, languageLabel, h, "c", 0);
    PromptHasHistoryLine(t, languageLabel, h, "c", 1);
    PromptEndsWithMessage(t, languageLabel, h, "c");
  }

  /** The same order in the handler's own prompt, built on the shopkeeper
      template. */
  lemma BuildPromptOrder(languageLabel: string)
    ensures var h := [Turn(User, "a"), Turn(Model, "b")];
            var p := BuildPrompt(languageLabel, h, "c");
            var i := LineOffset(Shopkeeper, languageLabel, h, 0);
            var j := LineOffset(Shopkeeper, languageLabel, h, 1);
            var m := MessageOffset(Shopkeeper, languageLabel, h);
            i + 7 <= j && j + 8 <= m && m + 1 <= |p| &&
            p[i..i + 7] == "user: a" && p[j..j + 8] == "model: b" && p[m..m + 1] == "c"
  {
    PromptOrderExample(Shopkeeper, languageLabel);
  }
}
