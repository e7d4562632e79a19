/** Reading the reply out of the completion service's response:
    `data?.candidates?.[0]?.content?.parts?.[0]?.text.trim() || fallback`. */
module Reply {
  import opened Text

  /** Sent back when the response holds no usable text. */
  const Fallback: string := "Sorry, I am having trouble understanding. " + "Can you please repeat?"

  /** What the optional chain finds at the first part of the first candidate.
      `NoPart`: one of `data`, `candidates`, `candidates[0]`, `content`,
      `parts` or `parts[0]` is missing, so the chain stops at `undefined`.
      `NoText`: `parts[0]` is there but its `text` is not a string, so the
      call of `.trim()` throws a `TypeError`.
      `Text(raw)`: `parts[0].text` is the string `raw`. */
  datatype FirstPart = NoPart | NoText | Text(raw: string)

  lemma FallbackTrimmed()
    ensures Fallback != "" && Trimmed(Fallback)
  {
    assert Fallback[0] == 'S' && Fallback[|Fallback| - 1] == '?';
  }

  /** The value of the expression, or `Threw` when evaluating it throws. */
  datatype Extracted = Threw | Reply(text: string)

  function ExtractReply(part: FirstPart): (r: Extracted)
    ensures r.Threw? <==> part.NoText?
    ensures r.Reply? ==> r.text != "" && Trimmed(r.text)
    ensures part.NoPart? ==> r == Reply(Fallback)
    ensures part.Text? ==> r == Reply(if AllSpace(part.raw) then Fallback else Trim(part.raw))
  {
    FallbackTrimmed();
    match part
    case NoPart => Reply(Fallback)
    case NoText => Threw
    case Text(raw) =>
      var trimmed := Trim(raw);
      // `||` replaces the empty string, the only falsy string, by the fallback
      Reply(if trimmed == "" then Fallback else trimmed)
  }

  /** The reply to a text padded with whitespace is the text itself: the
      padding is what `trim` removes, and nothing more. */
  lemma ReplyOfPadded(lead: string, text: string, trail: string)
    requires AllSpace(lead) && AllSpace(trail) && text != [] && Trimmed(text)
    ensures ExtractReply(Text(lead + text + trail)) == Reply(text)
  {
    TrimPadded(lead, text, trail);
  }
}
