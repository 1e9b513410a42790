/** String helpers shared by the Python scripts and the survey server:
    whitespace stripping, prefix tests, splitting on one character and joining. */
module Text {

  /** Python's `str.isspace()`: the code points whose Unicode category is Zs or whose
      bidirectional class is WS, B or S. */
  predicate IsPySpace(c: char) {
    var x := c as int;
    (9 <= x <= 13) || (28 <= x <= 32) || x == 0x85 || x == 0xA0 || x == 0x1680
    || (0x2000 <= x <= 0x200A) || x == 0x2028 || x == 0x2029 || x == 0x202F
    || x == 0x205F || x == 0x3000
  }

  /** The characters JavaScript's `String.prototype.trim` removes:
      WhiteSpace (including U+FEFF and category Zs) and LineTerminator. */
  predicate IsJsSpace(c: char) {
    var x := c as int;
    (9 <= x <= 13) || x == 32 || x == 0xA0 || x == 0x1680
    || (0x2000 <= x <= 0x200A) || x == 0x2028 || x == 0x2029 || x == 0x202F
    || x == 0x205F || x == 0x3000 || x == 0xFEFF
  }

  /** Drops the leading characters satisfying `ws`. */
  function TrimStart(s: string, ws: char -> bool): (r: string)
    ensures |r| <= |s| && r == s[|s| - |r|..]
    ensures forall i :: 0 <= i < |s| - |r| ==> ws(s[i])
    ensures r == [] || !ws(r[0])
    decreases |s|
  {
    if s != [] && ws(s[0]) then TrimStart(s[1..], ws) else s
  }

  /** Drops the trailing characters satisfying `ws`. */
  function TrimEnd(s: string, ws: char -> bool): (r: string)
    ensures |r| <= |s| && r == s[..|r|]
    ensures forall i :: |r| <= i < |s| ==> ws(s[i])
    ensures r == [] || !ws(r[|r| - 1])
    decreases |s|
  {
    if s != [] && ws(s[|s| - 1]) then TrimEnd(s[..|s| - 1], ws) else s
  }

  /** Neither end of `s` is a character satisfying `ws`. */
  predicate IsTrimmed(s: string, ws: char -> bool) {
    s == [] || (!ws(s[0]) && !ws(s[|s| - 1]))
  }

  /** Every character of `t` satisfies `ws`. */
  predicate AllSpace(t: string, ws: char -> bool) {
    forall k :: 0 <= k < |t| ==> ws(t[k])
  }

  /** `r` is `s` with some whitespace (as `ws` defines it) removed from its two ends only. */
  predicate CoreOf(r: string, s: string, ws: char -> bool) {
    exists i, j :: 0 <= i <= j <= |s| && r == s[i..j] && AllSpace(s[..i], ws) && AllSpace(s[j..], ws)
  }

  /** Removes whitespace (as `ws` defines it) from both ends: what is left is the part of `s`
      between its leading and its trailing whitespace. */
  function Strip(s: string, ws: char -> bool): (r: string)
    ensures IsTrimmed(r, ws)
    ensures CoreOf(r, s, ws)
    ensures |r| <= |s|
  {
    var t := TrimStart(s, ws);
    var r := TrimEnd(t, ws);
    assert r != [] ==> r[0] == t[0];
    TrimBothCore(s, ws);
    r
  }

  lemma TrimBothCore(s: string, ws: char -> bool)
    ensures CoreOf(TrimEnd(TrimStart(s, ws), ws), s, ws)
  {
    var t := TrimStart(s, ws);
    CoreOfSlices(s, t, TrimEnd(t, ws), ws);
  }

  /** A prefix of a suffix of `s`, where both cut-off parts are whitespace. */
  lemma CoreOfSlices(s: string, t: string, r: string, ws: char -> bool)
    requires |t| <= |s| && t == s[|s| - |t|..] && forall k :: 0 <= k < |s| - |t| ==> ws(s[k])
    requires |r| <= |t| && r == t[..|r|] && forall k :: |r| <= k < |t| ==> ws(t[k])
    ensures CoreOf(r, s, ws)
  {
    var i := |s| - |t|;
    var j := i + |r|;
    assert r == s[i..j];
    forall k | j <= k < |s|
      ensures ws(s[k])
    {
      assert s[k] == t[k - i];
    }
    assert AllSpace(s[..i], ws);
    assert AllSpace(s[j..], ws);
    assert 0 <= i <= j <= |s| && r == s[i..j] && AllSpace(s[..i], ws) && AllSpace(s[j..], ws);
  }

  lemma {:induction false} StripTrimmed(s: string, ws: char -> bool)
    requires IsTrimmed(s, ws)
    ensures Strip(s, ws) == s
  {
  }

  /** A string made only of whitespace strips to the empty string. */
  lemma StripAllSpace(s: string, ws: char -> bool)
    requires forall k :: 0 <= k < |s| ==> ws(s[k])
    ensures Strip(s, ws) == []
  {
  }

  /** Python's `s.strip()` with no argument. */
  function PyStrip(s: string): (r: string)
    ensures IsTrimmed(r, IsPySpace)
    ensures CoreOf(r, s, IsPySpace)
  {
    Strip(s, IsPySpace)
  }

  /** JavaScript's `s.trim()`. */
  function JsTrim(s: string): (r: string)
    ensures IsTrimmed(r, IsJsSpace)
    ensures CoreOf(r, s, IsJsSpace)
  {
    Strip(s, IsJsSpace)
  }

  /** Python's `s.startswith(p)` and JavaScript's `s.startsWith(p)`. */
  predicate StartsWith(s: string, p: string) {
    |p| <= |s| && s[..|p|] == p
  }

  /** Python's `s.split(sep)` and JavaScript's `s.split(sep)` for a one-character separator:
      the pieces between separators, always at least one (the empty string gives `[""]`). */
  function Split(s: string, sep: char): (parts: seq<string>)
    ensures |parts| >= 1
    decreases |s|
  {
    if s == [] then [[]]
    else
      var init := Split(s[..|s| - 1], sep);
      if s[|s| - 1] == sep then init + [[]]
      else init[..|init| - 1] + [init[|init| - 1] + [s[|s| - 1]]]
  }

  /** Every character of every piece comes from the split string. */
  lemma {:induction false} SplitPiecesFrom(s: string, sep: char)
    ensures forall k :: 0 <= k < |Split(s, sep)| ==> forall c :: c in Split(s, sep)[k] ==> c in s
    decreases |s|
  {
    if s != [] {
      var s' := s[..|s| - 1];
      SplitPiecesFrom(s', sep);
      var init := Split(s', sep);
      assert forall c :: c in s' ==> c in s;
      if s[|s| - 1] != sep {
        var last := init[|init| - 1] + [s[|s| - 1]];
        assert forall c :: c in last ==> c in init[|init| - 1] || c == s[|s| - 1];
      }
    }
  }

  /** The pieces joined back with `sep` between them (`sep.join(parts)`). */
  function Join(parts: seq<string>, sep: char): string
    decreases |parts|
  {
    if |parts| == 0 then []
    else if |parts| == 1 then parts[0]
    else Join(parts[..|parts| - 1], sep) + [sep] + parts[|parts| - 1]
  }

  /** Python's `s.split(sep)[-1]`: what follows the last separator, or all of `s`. */
  function LastPiece(s: string, sep: char): string {
    var parts := Split(s, sep);
    parts[|parts| - 1]
  }

  /** Appending one character other than the separator extends the last piece. */
  lemma {:induction false} SplitAppendChar(a: string, c: char, sep: char)
    requires c != sep
    ensures var pa := Split(a, sep);
            Split(a + [c], sep) == pa[..|pa| - 1] + [pa[|pa| - 1] + [c]]
  {
    var s := a + [c];
    assert s[..|s| - 1] == a;
  }

  lemma ReplaceLastNothing(ps: seq<string>)
    requires |ps| >= 1
    ensures ps[..|ps| - 1] + [ps[|ps| - 1] + []] == ps
  {
    assert ps[|ps| - 1] + [] == ps[|ps| - 1];
  }

  lemma ReplaceLastTwice(ps: seq<string>, x: string, y: string)
    requires |ps| >= 1
    ensures var qs := ps[..|ps| - 1] + [ps[|ps| - 1] + x];
            qs[..|qs| - 1] + [qs[|qs| - 1] + y] == ps[..|ps| - 1] + [ps[|ps| - 1] + (x + y)]
  {
    var qs := ps[..|ps| - 1] + [ps[|ps| - 1] + x];
    assert qs[..|qs| - 1] == ps[..|ps| - 1];
    assert qs[|qs| - 1] + y == ps[|ps| - 1] + (x + y);
  }

  /** Appending text without a separator extends the last piece. */
  lemma {:induction false} SplitAppendPlain(a: string, b: string, sep: char)
    requires sep !in b
    ensures var pa := Split(a, sep);
            Split(a + b, sep) == pa[..|pa| - 1] + [pa[|pa| - 1] + b]
    decreases |b|
  {
    if b == [] {
      assert a + b == a;
      ReplaceLastNothing(Split(a, sep));
    } else {
      var b', c := b[..|b| - 1], b[|b| - 1];
      assert b == b' + [c];
      assert c != sep by { assert c in b; }
      assert sep !in b' by { assert forall x :: x in b' ==> x in b; }
      SplitAppendPlain(a, b', sep);
      SplitAppendChar(a + b', c, sep);
      assert a + b == (a + b') + [c];
      ReplaceLastTwice(Split(a, sep), b', [c]);
    }
  }

  /** A separator followed by text without separators starts exactly one new last piece. */
  lemma {:induction false} SplitAfterSep(a: string, b: string, sep: char)
    requires sep !in b
    ensures Split(a + [sep] + b, sep) == Split(a, sep) + [b]
  {
    var s := a + [sep];
    assert s[..|s| - 1] == a;
    assert Split(s, sep) == Split(a, sep) + [[]];
    SplitAppendPlain(s, b, sep);
    var ps := Split(s, sep);
    assert ps[..|ps| - 1] == Split(a, sep);
    assert ps[|ps| - 1] + b == b;
  }

  lemma {:induction false} LastPieceAfterSep(a: string, b: string, sep: char)
    requires sep !in b
    ensures LastPiece(a + [sep] + b, sep) == b
  {
    SplitAfterSep(a, b, sep);
  }

  /** Splitting undoes joining when no piece contains the separator. */
  lemma {:induction false} SplitJoin(parts: seq<string>, sep: char)
    requires |parts| >= 1
    requires forall k :: 0 <= k < |parts| ==> sep !in parts[k]
    ensures Split(Join(parts, sep), sep) == parts
    decreases |parts|
  {
    if |parts| == 1 {
      SplitAppendPlain([], parts[0], sep);
      assert [] + parts[0] == parts[0];
    } else {
      var init := parts[..|parts| - 1];
      SplitJoin(init, sep);
      SplitAfterSep(Join(init, sep), parts[|parts| - 1], sep);
      assert init + [parts[|parts| - 1]] == parts;
    }
  }
}
