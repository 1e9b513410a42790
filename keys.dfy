/** Item keys: the decimal key the Python scripts write with `f"{i:02d}"`, the key the
    survey server rebuilds from a parsed number, and the `/prefix(\d+)/` match that finds it. */
module Keys {
  import opened Wrappers

  predicate IsDigit(c: char) {
    '0' <= c <= '9'
  }

  predicate AllDigits(s: string) {
    forall i :: 0 <= i < |s| ==> IsDigit(s[i])
  }

  function DigitChar(d: nat): (c: char)
    requires d < 10
    ensures IsDigit(c)
  {
    ('0' as int + d) as char
  }

  function DigitValue(c: char): (d: nat)
    requires IsDigit(c)
    ensures d < 10
  {
    c as int - '0' as int
  }

  /** The decimal form of `n`, without leading zeros (`str(n)`, `n.toString()`). */
  function Decimal(n: nat): (s: string)
    ensures |s| >= 1 && AllDigits(s)
    ensures n < 10 <==> |s| == 1
    ensures n < 100 <==> |s| <= 2
    decreases n
  {
    if n < 10 then [DigitChar(n)] else Decimal(n / 10) + [DigitChar(n % 10)]
  }

  /** The number a digit string denotes (`parseInt(s, 10)` on a digit run). */
  function ParseDecimal(s: string): nat
    requires AllDigits(s)
    decreases |s|
  {
    if s == [] then 0 else ParseDecimal(s[..|s| - 1]) * 10 + DigitValue(s[|s| - 1])
  }

  /** Left-pads with '0' to width 2: Python's `02` format width and JavaScript's `padStart(2, '0')`. */
  function PadTwo(s: string): (r: string)
    ensures |s| < 2 ==> |r| == 2
    ensures |s| >= 2 ==> r == s
  {
    if |s| < 2 then seq(2 - |s|, _ => '0') + s else s
  }

  /** Python's `f"{i:02d}"` for a non-negative `i`. */
  function PyKey(i: nat): (k: string)
    ensures |k| >= 2 && AllDigits(k)
    ensures i < 100 ==> |k| == 2
    ensures i >= 10 ==> k == Decimal(i)
    ensures i < 10 ==> k == ['0', DigitChar(i)]
  {
    PadTwo(Decimal(i))
  }

  /** The survey server's `num >= 100 ? num.toString() : num.toString().padStart(2, '0')`. */
  function JsKey(n: nat): string {
    if n >= 100 then Decimal(n) else PadTwo(Decimal(n))
  }

  lemma {:induction false} ParseDecimalOfDecimal(n: nat)
    ensures ParseDecimal(Decimal(n)) == n
    decreases n
  {
    if n >= 10 {
      ParseDecimalOfDecimal(n / 10);
      var s := Decimal(n);
      assert s[..|s| - 1] == Decimal(n / 10);
    }
  }

  /** The decimal form of a positive number has no leading zero. */
  lemma {:induction false} DecimalNoLeadingZero(n: nat)
    ensures n > 0 ==> Decimal(n)[0] != '0'
    decreases n
  {
    if n >= 10 {
      DecimalNoLeadingZero(n / 10);
      assert Decimal(n)[0] == Decimal(n / 10)[0];
    }
  }

  /** A leading zero does not change the value. */
  lemma {:induction false} ParseDecimalLeadingZero(s: string)
    requires AllDigits(s)
    ensures AllDigits(['0'] + s) && ParseDecimal(['0'] + s) == ParseDecimal(s)
    decreases |s|
  {
    var z := ['0'] + s;
    if s != [] {
      ParseDecimalLeadingZero(s[..|s| - 1]);
      assert z[..|z| - 1] == ['0'] + s[..|s| - 1];
    }
  }

  /** The key denotes its index: parsing it back yields `i`. */
  lemma KeyRoundTrip(i: nat)
    ensures ParseDecimal(PyKey(i)) == i
  {
    ParseDecimalOfDecimal(i);
    if i < 10 {
      ParseDecimalLeadingZero(Decimal(i));
      assert PyKey(i) == ['0'] + Decimal(i);
    }
  }

  /** Distinct indices give distinct keys. */
  lemma KeyInjective(i: nat, j: nat)
    requires PyKey(i) == PyKey(j)
    ensures i == j
  {
    KeyRoundTrip(i);
    KeyRoundTrip(j);
  }

  /** The survey server's number format agrees with the Python key format on every index. */
  lemma JsKeyIsPyKey(n: nat)
    ensures JsKey(n) == PyKey(n)
  {
  }

  /** Length of the run of digits at the start of `s` (what a greedy `\d+` consumes). */
  function DigitRun(s: string): (n: nat)
    ensures n <= |s|
    ensures forall i :: 0 <= i < n ==> IsDigit(s[i])
    ensures n == |s| || !IsDigit(s[n])
    decreases |s|
  {
    if s != [] && IsDigit(s[0]) then 1 + DigitRun(s[1..]) else 0
  }

  /** `prefix` followed by a digit occurs in `s` at position `k`. */
  predicate MatchAt(s: string, prefix: string, k: nat) {
    k + |prefix| < |s| && s[k..k + |prefix|] == prefix && IsDigit(s[k + |prefix|])
  }

  /** The leftmost match position at or after `k`. */
  function FindFrom(s: string, prefix: string, k: nat): (r: Option<nat>)
    ensures r.Some? ==> k <= r.value && MatchAt(s, prefix, r.value)
                        && forall j: nat :: k <= j < r.value ==> !MatchAt(s, prefix, j)
    ensures r.None? ==> forall j: nat :: k <= j ==> !MatchAt(s, prefix, j)
    decreases |s| - k
  {
    if k + |prefix| >= |s| then None
    else if MatchAt(s, prefix, k) then Some(k)
    else FindFrom(s, prefix, k + 1)
  }

  /** The capture group of the regular expression `/prefix(\d+)/` applied to `s`:
      the maximal digit run after the leftmost `prefix` that a digit follows. */
  function MatchDigits(s: string, prefix: string): (r: Option<string>)
    ensures r.None? <==> forall k: nat :: !MatchAt(s, prefix, k)
    ensures r.Some? ==>
      exists k: nat :: MatchAt(s, prefix, k) && (forall j: nat :: j < k ==> !MatchAt(s, prefix, j))
        && r.value == s[k + |prefix|..][..DigitRun(s[k + |prefix|..])]
    ensures r.Some? ==> |r.value| >= 1 && AllDigits(r.value)
  {
    match FindFrom(s, prefix, 0)
    case None => None
    case Some(k) =>
      var rest := s[k + |prefix|..];
      assert MatchAt(s, prefix, k) && forall j: nat :: j < k ==> !MatchAt(s, prefix, j);
      assert rest[0] == s[k + |prefix|];
      Some(rest[..DigitRun(rest)])
  }

  lemma {:induction false} DigitRunOfDigits(s: string)
    requires AllDigits(s)
    ensures DigitRun(s) == |s|
    decreases |s|
  {
    if s != [] {
      DigitRunOfDigits(s[1..]);
    }
  }

  /** When `s` starts with `prefix` and then digits only, the match is that digit string. */
  lemma MatchDigitsAtStart(prefix: string, digits: string)
    requires |digits| >= 1 && AllDigits(digits)
    ensures MatchDigits(prefix + digits, prefix) == Some(digits)
  {
    var s := prefix + digits;
    assert s[..|prefix|] == prefix;
    assert MatchAt(s, prefix, 0);
    assert FindFrom(s, prefix, 0) == Some(0);
    var rest := s[|prefix|..];
    assert rest == digits;
    DigitRunOfDigits(rest);
    assert rest[..|rest|] == digits;
    assert MatchDigits(s, prefix) == Some(rest[..DigitRun(rest)]);
  }
}
