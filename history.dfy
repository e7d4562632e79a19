/** The per-user conversation history kept by the chat relay: role-tagged
    turns, appended one user/model pair per successful exchange and capped at
    ten entries by evicting the oldest pair. */
module History {

  datatype Role = User | Model

  /** One entry of the history. The source stores `{ role, parts: [{ text }] }`;
      only the first part is ever written or read, so a turn keeps its text. */
  datatype Turn = Turn(role: Role, text: string)

  type History = seq<Turn>

  /** The cap on the retained history (five exchanges). */
  const MaxTurns: nat := 10

  function Min(a: int, b: int): int {
    if a <= b then a else b
  }

  /** The invariant of every stored history: at most `MaxTurns` entries, an
      even number of them, alternating user/model starting with the user, and
      no empty text. */
  predicate WellFormed(h: History) {
    |h| <= MaxTurns && |h| % 2 == 0 &&
    forall i :: 0 <= i < |h| ==>
      h[i].role == (if i % 2 == 0 then User else Model) && h[i].text != ""
  }

  /** Appends the user's message and the model's reply, then, if the result is
      longer than `MaxTurns`, removes its first two entries once. */
  function UpdateHistory(h: History, message: string, reply: string): (u: History)
    ensures |u| >= 2 && u[|u| - 2] == Turn(User, message) && u[|u| - 1] == Turn(Model, reply)
    ensures |h| + 2 - |u| == (if |h| + 2 > MaxTurns then 2 else 0)
    ensures u == (h + [Turn(User, message), Turn(Model, reply)])[|h| + 2 - |u|..]
  {
    var updated := h + [Turn(User, message), Turn(Model, reply)];
    if |updated| > MaxTurns then updated[2..] else updated
  }

  /** An exchange keeps the invariant, and the history grows by one pair until
      it reaches the cap, where it stays. */
  lemma UpdateWellFormed(h: History, message: string, reply: string)
    requires WellFormed(h) && message != "" && reply != ""
    ensures WellFormed(UpdateHistory(h, message, reply))
    ensures |UpdateHistory(h, message, reply)| == Min(|h| + 2, MaxTurns)
  {
    var updated := h + [Turn(User, message), Turn(Model, reply)];
    var u := UpdateHistory(h, message, reply);
    var d := |h| + 2 - |u|;
    assert d == 0 || d == 2;
    forall i | 0 <= i < |u|
      ensures u[i].role == (if i % 2 == 0 then User else Model) && u[i].text != ""
    {
      assert u[i] == updated[i + d];
      assert (i + d) % 2 == i % 2 by {
        if d == 2 { assert i + d == (i + 1) + 1; }
      }
    }
  }

  /** One successful round trip: the user's message and the reply stored. */
  datatype Exchange = Exchange(message: string, reply: string)

  function Pair(e: Exchange): History {
    [Turn(User, e.message), Turn(Model, e.reply)]
  }

  /** The turns of a series of exchanges, uncapped. */
  function Flatten(es: seq<Exchange>): History {
    if es == [] then [] else Flatten(es[..|es| - 1]) + Pair(es[|es| - 1])
  }

  /** The history after the exchanges `es`, in order, starting from `h`. */
  function Replay(h: History, es: seq<Exchange>): History {
    if es == [] then h
    else
      var e := es[|es| - 1];
      UpdateHistory(Replay(h, es[..|es| - 1]), e.message, e.reply)
  }

  lemma {:induction false} FlattenLength(es: seq<Exchange>)
    ensures |Flatten(es)| == 2 * |es|
  {
    if es != [] {
      FlattenLength(es[..|es| - 1]);
    }
  }

  /** Dropping the first two turns of the flattened exchanges drops the first
      exchange. */
  lemma {:induction false} FlattenDropFirst(es: seq<Exchange>)
    requires es != []
    ensures Flatten(es)[2..] == Flatten(es[1..])
  {
    FlattenLength(es);
    if |es| == 1 {
      assert es[1..] == [];
    } else {
      var init := es[..|es| - 1];
      FlattenDropFirst(init);
      FlattenLength(init);
      assert es[1..][..|es[1..]| - 1] == init[1..];
      assert es[1..][|es[1..]| - 1] == es[|es| - 1];
      assert Flatten(es)[2..] == Flatten(init)[2..] + Pair(es[|es| - 1]);
    }
  }

  /** One exchange on top of at most five retained ones: the pair is
      appended, and the oldest exchange falls out when there were five. */
  lemma UpdateFlattened(kept: seq<Exchange>, e: Exchange)
    requires |kept| <= MaxTurns / 2
    ensures UpdateHistory(Flatten(kept), e.message, e.reply)
         == if |kept| < MaxTurns / 2 then Flatten(kept + [e]) else Flatten((kept + [e])[1..])
  {
    var grown := kept + [e];
    assert grown[..|grown| - 1] == kept;
    assert Flatten(grown) == Flatten(kept) + Pair(e);
    FlattenLength(kept);
    if |kept| == MaxTurns / 2 {
      FlattenDropFirst(grown);
    }
  }

  /** Eviction removes the oldest exchange first: from an empty history, a
      series of exchanges leaves exactly the turns of the last five, in order. */
  lemma {:induction false} ReplayKeepsLatest(es: seq<Exchange>)
    ensures Replay([], es) == Flatten(es[|es| - Min(|es|, MaxTurns / 2)..])
  {
    if es != [] {
      var n := MaxTurns / 2;
      var init := es[..|es| - 1];
      var e := es[|es| - 1];
      assert es == init + [e];
      assert Replay([], es) == UpdateHistory(Replay([], init), e.message, e.reply);
      ReplayKeepsLatest(init);
      var kept := init[|init| - Min(|init|, n)..];
      UpdateFlattened(kept, e);
      SlideWindow(init, e, n);
    }
  }

  /** The window of the last `n` elements, moved on by one more element. */
  lemma SlideWindow(init: seq<Exchange>, e: Exchange, n: nat)
    requires 0 < n
    ensures var kept := init[|init| - Min(|init|, n)..];
            (if |kept| < n then kept + [e] else (kept + [e])[1..])
            == (init + [e])[|init| + 1 - Min(|init| + 1, n)..]
  {
  }

  /** From an empty history, N exchanges leave min(2N, 10) turns. */
  lemma ReplayLength(es: seq<Exchange>)
    ensures |Replay([], es)| == Min(2 * |es|, MaxTurns)
  {
    ReplayKeepsLatest(es);
    FlattenLength(es[|es| - Min(|es|, MaxTurns / 2)..]);
  }

  /** Every exchange with a non-empty message and reply keeps the invariant. */
  lemma {:induction false} ReplayWellFormed(h: History, es: seq<Exchange>)
    requires WellFormed(h)
    requires forall i :: 0 <= i < |es| ==> es[i].message != "" && es[i].reply != ""
    ensures WellFormed(Replay(h, es))
  {
    if es != [] {
      var init := es[..|es| - 1];
      ReplayWellFormed(h, init);
      UpdateWellFormed(Replay(h, init), es[|es| - 1].message, es[|es| - 1].reply);
    }
  }
}
