/** String helpers the relay relies on: JavaScript's `String.prototype.trim`
    and `Array.prototype.join` with a newline separator. */
module Text {

  /** The characters `trim` removes: ECMAScript WhiteSpace (tab, vertical tab,
      form feed, space, no-break space, byte order mark and the Unicode space
      separators) and LineTerminator (line feed, carriage return, line and
      paragraph separators). */
  const Spaces: set<char> := {
    '\t', '\n', '\U{000B}', '\U{000C}', '\r', ' ', '\U{00A0}', '\U{1680}',
    '\U{2000}', '\U{2001}', '\U{2002}', '\U{2003}', '\U{2004}', '\U{2005}',
    '\U{2006}', '\U{2007}', '\U{2008}', '\U{2009}', '\U{200A}',
    '\U{2028}', '\U{2029}', '\U{202F}', '\U{205F}', '\U{3000}', '\U{FEFF}'
  }

  predicate IsSpace(c: char) {
    c in Spaces
  }

  predicate AllSpace(s: string) {
    forall i :: 0 <= i < |s| ==> IsSpace(s[i])
  }

  /** No whitespace at either end (the empty string included). */
  predicate Trimmed(s: string) {
    s == [] || (!IsSpace(s[0]) && !IsSpace(s[|s| - 1]))
  }

  /** Drops the leading whitespace: what remains is a suffix of `s` that does
      not start with whitespace, and everything dropped was whitespace. */
  function TrimStart(s: string): (r: string)
    ensures |r| <= |s| && r == s[|s| - |r|..]
    ensures AllSpace(s[..|s| - |r|])
    ensures r != [] ==> !IsSpace(r[0])
  {
    if s == [] || !IsSpace(s[0]) then s else TrimStart(s[1..])
  }

  /** Drops the trailing whitespace: what remains is a prefix of `s` that does
      not end with whitespace, and everything dropped was whitespace. */
  function TrimEnd(s: string): (r: string)
    ensures |r| <= |s| && r == s[..|r|]
    ensures AllSpace(s[|r|..])
    ensures r != [] ==> !IsSpace(r[|r| - 1])
  {
    if s == [] || !IsSpace(s[|s| - 1]) then s else TrimEnd(s[..|s| - 1])
  }

  /** JavaScript `s.trim()`. */
  function Trim(s: string): (r: string)
    ensures Trimmed(r)
    ensures r == [] <==> AllSpace(s)
  {
    var t := TrimStart(s);
    var r := TrimEnd(t);
    assert r == [] ==> AllSpace(s) by {
      if r == [] {
        assert s == s[..|s| - |t|] + t;
        AllSpaceConcat(s[..|s| - |t|], t);
      }
    }
    assert r != [] ==> !IsSpace(r[0]) by {
      if r != [] { assert r[0] == t[0]; }
    }
    r
  }

  lemma AllSpaceConcat(a: string, b: string)
    requires AllSpace(a) && AllSpace(b)
    ensures AllSpace(a + b)
  {
  }

  /** `trim` is determined by the decomposition it finds: whatever string is
      padded with whitespace on both sides, trimming gives that string back,
      provided it has no whitespace at its own ends. */
  lemma {:induction false} TrimPadded(lead: string, core: string, trail: string)
    requires AllSpace(lead) && AllSpace(trail) && Trimmed(core) && core != []
    ensures Trim(lead + core + trail) == core
  {
    assert lead + core + trail == lead + (core + trail);
    assert (core + trail)[0] == core[0];
    TrimStartPadded(lead, core + trail);
    TrimEndPadded(core, trail);
  }

  lemma {:induction false} TrimStartPadded(lead: string, rest: string)
    requires AllSpace(lead) && rest != [] && !IsSpace(rest[0])
    ensures TrimStart(lead + rest) == rest
  {
    if lead != [] {
      assert (lead + rest)[1..] == lead[1..] + rest;
      TrimStartPadded(lead[1..], rest);
    } else {
      assert lead + rest == rest;
    }
  }

  lemma {:induction false} TrimEndPadded(rest: string, trail: string)
    requires AllSpace(trail) && rest != [] && !IsSpace(rest[|rest| - 1])
    ensures TrimEnd(rest + trail) == rest
  {
    if trail != [] {
      var s := rest + trail;
      assert s[..|s| - 1] == rest + trail[..|trail| - 1];
      TrimEndPadded(rest, trail[..|trail| - 1]);
    } else {
      assert rest + trail == rest;
    }
  }

  /** Trimming twice is the same as trimming once. */
  lemma TrimIdempotent(s: string)
    ensures Trim(Trim(s)) == Trim(s)
  {
    var r := Trim(s);
    if r != [] {
      assert r == [] + r + [];
      TrimPadded([], r, []);
    }
  }

  /** `lines.join('\n')`: the lines in order, separated by single newlines,
      with no separator before the first or after the last. */
  function JoinLines(lines: seq<string>): string
  {
    if lines == [] then ""
    else if |lines| == 1 then lines[0]
    else lines[0] + "\n" + JoinLines(lines[1..])
  }

  /** Where line `i` begins in `JoinLines(lines)`: after every earlier line
      and its separating newline. */
  function LineStart(lines: seq<string>, i: nat): nat
    requires i <= |lines|
  {
    if i == 0 then 0 else LineStart(lines, i - 1) + |lines[i - 1]| + 1
  }

  lemma {:induction false} LineStartShift(lines: seq<string>, i: nat)
    requires 0 < i <= |lines|
    ensures LineStart(lines, i) == |lines[0]| + 1 + LineStart(lines[1..], i - 1)
  {
    if i > 1 {
      LineStartShift(lines, i - 1);
    }
  }

  /** The joined text has one newline fewer than it has lines. */
  lemma {:induction false} JoinLength(lines: seq<string>)
    requires lines != []
    ensures |JoinLines(lines)| == LineStart(lines, |lines|) - 1
  {
    if |lines| > 1 {
      JoinLength(lines[1..]);
      LineStartShift(lines, |lines|);
    }
  }

  /** Line `i` sits verbatim at `LineStart(lines, i)`. */
  lemma {:induction false} JoinAt(lines: seq<string>, i: nat)
    requires i < |lines|
    ensures LineStart(lines, i) + |lines[i]| <= |JoinLines(lines)|
    ensures JoinLines(lines)[LineStart(lines, i)..LineStart(lines, i) + |lines[i]|] == lines[i]
  {
    if |lines| > 1 {
      var head := lines[0] + "\n";
      var rest := JoinLines(lines[1..]);
      assert JoinLines(lines) == head + rest;
      if i == 0 {
        assert JoinLines(lines) == lines[0] + ("\n" + rest);
      } else {
        JoinAt(lines[1..], i - 1);
        LineStartShift(lines, i);
        var st := LineStart(lines[1..], i - 1);
        SliceOfAppend(head, rest, st, st + |lines[i]|);
      }
    }
  }

  /** A newline follows every line but the last. */
  lemma {:induction false} NewlineAfter(lines: seq<string>, i: nat)
    requires i + 1 < |lines|
    ensures LineStart(lines, i) + |lines[i]| < |JoinLines(lines)|
    ensures JoinLines(lines)[LineStart(lines, i) + |lines[i]|] == '\n'
  {
    var head := lines[0] + "\n";
    var rest := JoinLines(lines[1..]);
    assert JoinLines(lines) == head + rest;
    if i == 0 {
      assert JoinLines(lines) == lines[0] + ("\n" + rest);
      IndexOfAppend(lines[0], "\n" + rest, 0);
    } else {
      NewlineAfter(lines[1..], i - 1);
      LineStartShift(lines, i);
      IndexOfAppend(head, rest, LineStart(lines[1..], i - 1) + |lines[i]|);
    }
  }

  lemma SliceOfAppend(a: string, b: string, lo: nat, hi: nat)
    requires lo <= hi <= |b|
    ensures (a + b)[|a| + lo..|a| + hi] == b[lo..hi]
  {
    assert (a + b)[|a|..] == b;
    assert (a + b)[|a| + lo..|a| + hi] == (a + b)[|a|..][lo..hi];
  }

  lemma IndexOfAppend(a: string, b: string, k: nat)
    requires k < |b|
    ensures (a + b)[|a| + k] == b[k]
  {
  }
}
