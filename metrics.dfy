/** metrics.py: word tokens, word error rate by edit distance, padding of segment lists
    to equal length, and the per-segment speaker and WER scoring of `run_metrics`. */
module Metrics {
  import opened Wrappers
  import opened Json
  import Text

  // ---------------------------------------------------------------------------
  // tokenize

  /** A character of the class `[A-Za-z0-9']`. */
  predicate IsWordChar(c: char) {
    ('A' <= c <= 'Z') || ('a' <= c <= 'z') || ('0' <= c <= '9') || c == '\''
  }

  predicate AllWordChars(s: string) {
    forall k :: 0 <= k < |s| ==> IsWordChar(s[k])
  }

  /** `str.lower` on the ASCII letters. */
  function LowerChar(c: char): char {
    if 'A' <= c <= 'Z' then (c as int + 32) as char else c
  }

  function Lower(s: string): (r: string)
    ensures |r| == |s| && forall k :: 0 <= k < |s| ==> r[k] == LowerChar(s[k])
  {
    seq(|s|, k requires 0 <= k < |s| => LowerChar(s[k]))
  }

  /** The length of the run of word characters at the start of `s`. */
  function WordRun(s: string): (n: nat)
    ensures n <= |s| && AllWordChars(s[..n])
    ensures n == |s| || !IsWordChar(s[n])
    decreases |s|
  {
    if s != [] && IsWordChar(s[0]) then
      var m := WordRun(s[1..]);
      assert s[..1 + m] == [s[0]] + s[1..][..m];
      1 + m
    else 0
  }

  /** `re.findall(r"[A-Za-z0-9']+", s)`: the maximal runs of word characters, left to right. */
  function Words(s: string): (ws: seq<string>)
    ensures forall k :: 0 <= k < |ws| ==> ws[k] != [] && AllWordChars(ws[k])
    decreases |s|
  {
    if s == [] then []
    else if !IsWordChar(s[0]) then Words(s[1..])
    else
      var n := WordRun(s);
      [s[..n]] + Words(s[n..])
  }

  /** `tokenize(s)`: the words of `(s or "").lower()`. */
  function Tokenize(s: Option<string>): (ws: seq<string>)
    ensures s.None? || s == Some([]) ==> ws == []
    ensures forall k :: 0 <= k < |ws| ==> ws[k] != [] && AllWordChars(ws[k])
  {
    match s
    case None => []
    case Some(t) => Words(Lower(t))
  }

  predicate NoUpper(s: string) {
    forall k :: 0 <= k < |s| ==> !('A' <= s[k] <= 'Z')
  }

  /** No token contains an upper-case letter. */
  lemma {:induction false} WordsOfLowered(s: string)
    requires NoUpper(s)
    ensures forall i :: 0 <= i < |Words(s)| ==> NoUpper(Words(s)[i])
    decreases |s|
  {
    if s != [] {
      if !IsWordChar(s[0]) {
        WordsOfLowered(s[1..]);
      } else {
        var n := WordRun(s);
        WordsOfLowered(s[n..]);
        assert Words(s) == [s[..n]] + Words(s[n..]);
      }
    }
  }

  lemma TokensAreLowerCase(s: string)
    ensures forall i :: 0 <= i < |Tokenize(Some(s))| ==> NoUpper(Tokenize(Some(s))[i])
  {
    WordsOfLowered(Lower(s));
  }

  /** The word characters of `s`, in order. */
  function WordChars(s: string): string
    decreases |s|
  {
    if s == [] then [] else (if IsWordChar(s[0]) then [s[0]] else []) + WordChars(s[1..])
  }

  function Flatten(ws: seq<string>): string
    decreases |ws|
  {
    if ws == [] then [] else ws[0] + Flatten(ws[1..])
  }

  lemma {:induction false} WordCharsOfRun(s: string, n: nat)
    requires n <= |s| && AllWordChars(s[..n])
    ensures WordChars(s) == s[..n] + WordChars(s[n..])
    decreases n
  {
    if n > 0 {
      assert s[1..][..n - 1] == s[..n][1..];
      WordCharsOfRun(s[1..], n - 1);
      assert s[1..][n - 1..] == s[n..];
      assert IsWordChar(s[..n][0]);
      assert s[..n] == [s[0]] + s[1..][..n - 1];
    }
  }

  /** The tokens, put together, are exactly the word characters of the input: nothing is lost
      and nothing is added. */
  lemma {:induction false} WordsCoverWordChars(s: string)
    ensures Flatten(Words(s)) == WordChars(s)
    decreases |s|
  {
    if s != [] {
      if !IsWordChar(s[0]) {
        WordsCoverWordChars(s[1..]);
      } else {
        var n := WordRun(s);
        WordsCoverWordChars(s[n..]);
        WordCharsOfRun(s, n);
        assert Words(s)[1..] == Words(s[n..]);
      }
    }
  }

  /** Tokens joined by single spaces. */
  function JoinSpace(ws: seq<string>): string
    decreases |ws|
  {
    if ws == [] then [] else if |ws| == 1 then ws[0] else ws[0] + " " + JoinSpace(ws[1..])
  }

  lemma {:induction false} WordRunOfWord(w: string, rest: string)
    requires AllWordChars(w) && (rest == [] || !IsWordChar(rest[0]))
    ensures WordRun(w + rest) == |w|
    decreases |w|
  {
    if w != [] {
      assert (w + rest)[1..] == w[1..] + rest;
      WordRunOfWord(w[1..], rest);
    } else {
      assert w + rest == rest;
    }
  }

  /** Maximality, first half: a run of word characters is one token, never several. */
  lemma WordsOfRun(w: string)
    requires w != [] && AllWordChars(w)
    ensures Words(w) == [w]
  {
    WordRunOfWord(w, []);
    assert w + [] == w;
    assert w[..|w|] == w && w[|w|..] == [];
  }

  /** A character outside the class ends the run in front of it. */
  lemma {:induction false} WordRunStops(a: string, c: char, b: string)
    requires !IsWordChar(c)
    ensures WordRun(a + [c] + b) == WordRun(a)
    decreases |a|
  {
    var s := a + [c] + b;
    if a == [] {
      assert s[0] == c;
    } else {
      assert s[0] == a[0];
      if IsWordChar(a[0]) {
        assert s[1..] == a[1..] + [c] + b;
        WordRunStops(a[1..], c, b);
      }
    }
  }

  /** Maximality, second half: a character outside the class separates the tokens on its two
      sides and belongs to none. With `Words([]) == []` and `WordsOfRun` this determines
      `findall` on every input. */
  lemma {:induction false} WordsSplit(a: string, c: char, b: string)
    requires !IsWordChar(c)
    ensures Words(a + [c] + b) == Words(a) + Words(b)
    decreases |a|
  {
    var s := a + [c] + b;
    if a == [] {
      assert s[0] == c && s[1..] == b;
    } else if !IsWordChar(a[0]) {
      assert s[0] == a[0] && s[1..] == a[1..] + [c] + b;
      WordsSplit(a[1..], c, b);
    } else {
      assert s[0] == a[0];
      WordRunStops(a, c, b);
      var n := WordRun(a);
      assert s[..n] == a[..n];
      assert s[n..] == a[n..] + [c] + b;
      WordsSplit(a[n..], c, b);
      assert Words(a) == [a[..n]] + Words(a[n..]);
    }
  }

  /** Round trip: tokenizing words joined by spaces gives back the words. */
  lemma {:induction false} WordsJoinSpace(ws: seq<string>)
    requires forall k :: 0 <= k < |ws| ==> ws[k] != [] && AllWordChars(ws[k])
    ensures Words(JoinSpace(ws)) == ws
    decreases |ws|
  {
    if |ws| == 1 {
      var w := ws[0];
      WordRunOfWord(w, []);
      assert w + [] == w;
      assert w[|w|..] == [];
    } else if |ws| > 1 {
      var w, rest := ws[0], " " + JoinSpace(ws[1..]);
      var s := JoinSpace(ws);
      assert s == w + rest;
      WordRunOfWord(w, rest);
      assert s[..|w|] == w;
      assert s[|w|..] == rest;
      assert rest[1..] == JoinSpace(ws[1..]);
      WordsJoinSpace(ws[1..]);
    }
  }

  // ---------------------------------------------------------------------------
  // wer

  function Min3(a: nat, b: nat, c: nat): nat {
    if a <= b && a <= c then a else if b <= c then b else c
  }

  /** `min(a, b, c)` is one of its arguments and no larger than any. */
  lemma Min3Least(a: nat, b: nat, c: nat)
    ensures Min3(a, b, c) <= a && Min3(a, b, c) <= b && Min3(a, b, c) <= c
    ensures Min3(a, b, c) == a || Min3(a, b, c) == b || Min3(a, b, c) == c
  {
  }

  function Max(a: nat, b: nat): nat {
    if a >= b then a else b
  }

  /** The edit distance between the first `i` tokens of `r` and the first `j` tokens of `h`:
      the value `dp[i][j]` of the table. */
  function Dist<T(==)>(r: seq<T>, h: seq<T>, i: nat, j: nat): nat
    requires i <= |r| && j <= |h|
    decreases i + j
  {
    if i == 0 then j
    else if j == 0 then i
    else Min3(Dist(r, h, i - 1, j) + 1, Dist(r, h, i, j - 1) + 1,
              Dist(r, h, i - 1, j - 1) + if r[i - 1] == h[j - 1] then 0 else 1)
  }

  /** `wer(ref, hyp)` as an exact ratio: edits per reference token; an empty reference gives
      0 against an empty hypothesis and 1 otherwise. */
  function WordErrorRate(ref: string, hyp: string): real {
    var r, h := Tokenize(Some(ref)), Tokenize(Some(hyp));
    if |r| == 0 then (if |h| == 0 then 0.0 else 1.0)
    else Ratio(Dist(r, h, |r|, |h|), |r|)
  }

  /** The ratio `d / n`, with `n` the reference length. */
  function Ratio(d: nat, n: nat): real
    requires n > 0
  {
    d as real / n as real
  }

  /** Rows `0 .. i-1` of the table hold the distances of the prefixes. */
  ghost predicate RowsDone<T>(dp: array2<nat>, r: seq<T>, h: seq<T>, i: nat)
    reads dp
    requires dp.Length0 == |r| + 1 && dp.Length1 == |h| + 1 && i <= |r| + 1
  {
    forall a, b {:trigger dp[a, b]} :: 0 <= a < i && 0 <= b <= |h| ==> dp[a, b] == Dist(r, h, a, b)
  }

  /** Fills row `i` of the table from row `i - 1` (the inner loop of `wer`). */
  method FillRow<T(==)>(dp: array2<nat>, r: seq<T>, h: seq<T>, i: nat)
    requires dp.Length0 == |r| + 1 && dp.Length1 == |h| + 1 && 1 <= i <= |r|
    requires RowsDone(dp, r, h, i) && dp[i, 0] == i
    modifies dp
    ensures RowsDone(dp, r, h, i + 1)
    ensures forall a, b :: i < a <= |r| && 0 <= b <= |h| ==> dp[a, b] == old(dp[a, b])
  {
    for j := 1 to |h| + 1
      invariant RowsDone(dp, r, h, i)
      invariant forall b {:trigger dp[i, b]} :: 0 <= b < j ==> dp[i, b] == Dist(r, h, i, b)
      invariant forall a, b :: i < a <= |r| && 0 <= b <= |h| ==> dp[a, b] == old(dp[a, b])
    {
      var cost := if r[i - 1] == h[j - 1] then 0 else 1;
      assert dp[i - 1, j] == Dist(r, h, i - 1, j) && dp[i - 1, j - 1] == Dist(r, h, i - 1, j - 1);
      var v := Min3(dp[i - 1, j] + 1, dp[i, j - 1] + 1, dp[i - 1, j - 1] + cost);
      assert v == Dist(r, h, i, j);
      dp[i, j] := v;
    }
  }

  /** The table of `wer`, filled row by row; returns its last cell. */
  method EditDistance<T(==)>(r: seq<T>, h: seq<T>) returns (d: nat)
    ensures d == Dist(r, h, |r|, |h|)
  {
    var R, H := |r|, |h|;
    var dp := new nat[R + 1, H + 1];
    for i := 0 to R + 1
      invariant forall a :: 0 <= a < i ==> dp[a, 0] == a
    {
      dp[i, 0] := i;
    }
    for j := 0 to H + 1
      invariant forall a :: 0 <= a <= R ==> dp[a, 0] == a
      invariant forall b :: 0 <= b < j ==> dp[0, b] == b
    {
      dp[0, j] := j;
    }
    for i := 1 to R + 1
      invariant RowsDone(dp, r, h, i)
      invariant forall a :: i <= a <= R ==> dp[a, 0] == a
    {
      FillRow(dp, r, h, i);
    }
    d := dp[R, H];
  }

  /** `wer`. */
  method Wer(ref: string, hyp: string) returns (w: real)
    ensures w == WordErrorRate(ref, hyp)
  {
    var r, h := Tokenize(Some(ref)), Tokenize(Some(hyp));
    if |r| == 0 {
      return if |h| == 0 then 0.0 else 1.0;
    }
    var d := EditDistance(r, h);
    w := Ratio(d, |r|);
  }

  /** `total / n`. */
  function Mean(total: real, n: nat): real
    requires n > 0
  {
    total / n as real
  }

  lemma MeanNonNegative(total: real, n: nat)
    requires total >= 0.0 && n > 0
    ensures Mean(total, n) >= 0.0
  {
  }

  /** A count out of `n` is at most 1, and exactly 1 when it is all of `n`. */
  lemma RatioAtMostOne(a: nat, n: nat)
    requires a <= n && n > 0
    ensures 0.0 <= Ratio(a, n) <= 1.0
    ensures Ratio(a, n) == 1.0 <==> a == n
  {
    var r, x, m := Ratio(a, n), a as real, n as real;
    assert r * m == x;
    assert (1.0 - r) * m == m - x >= 0.0;
    assert (r - 1.0) * m == x - m;
  }

  lemma RatioMonotone(a: nat, b: nat, n: nat)
    requires a <= b && n > 0
    ensures Ratio(a, n) <= Ratio(b, n)
  {
  }

  /** The distance never exceeds the longer length. */
  lemma {:induction false} DistUpper<T>(r: seq<T>, h: seq<T>, i: nat, j: nat)
    requires i <= |r| && j <= |h|
    ensures Dist(r, h, i, j) <= Max(i, j)
    decreases i + j
  {
    if i > 0 && j > 0 {
      DistUpper(r, h, i - 1, j - 1);
    }
  }

  /** The distance is at least the difference of the lengths. */
  lemma {:induction false} DistLower(r: seq<string>, h: seq<string>, i: nat, j: nat)
    requires i <= |r| && j <= |h|
    ensures Dist(r, h, i, j) >= i - j && Dist(r, h, i, j) >= j - i
    decreases i + j
  {
    if i > 0 && j > 0 {
      DistLower(r, h, i - 1, j);
      DistLower(r, h, i, j - 1);
      DistLower(r, h, i - 1, j - 1);
    }
  }

  /** The distance is zero exactly when the two prefixes are equal. */
  lemma {:induction false} DistZero(r: seq<string>, h: seq<string>, i: nat, j: nat)
    requires i <= |r| && j <= |h|
    ensures Dist(r, h, i, j) == 0 <==> i == j && r[..i] == h[..j]
    decreases i + j
  {
    if i > 0 && j > 0 {
      DistZero(r, h, i - 1, j - 1);
      assert r[..i] == r[..i - 1] + [r[i - 1]];
      assert h[..j] == h[..j - 1] + [h[j - 1]];
      if r[..i] == h[..j] {
        assert r[..i - 1] == r[..i][..i - 1];
        assert h[..j - 1] == h[..j][..j - 1];
      }
    } else if i == 0 && j > 0 {
      assert |h[..j]| == j;
    } else if j == 0 && i > 0 {
      assert |r[..i]| == i;
    }
  }

  /** Edit distance is symmetric. */
  lemma {:induction false} DistSymmetric(r: seq<string>, h: seq<string>, i: nat, j: nat)
    requires i <= |r| && j <= |h|
    ensures Dist(r, h, i, j) == Dist(h, r, j, i)
    decreases i + j
  {
    if i > 0 && j > 0 {
      DistSymmetric(r, h, i - 1, j);
      DistSymmetric(r, h, i, j - 1);
      DistSymmetric(r, h, i - 1, j - 1);
      var a, b := Dist(r, h, i - 1, j) + 1, Dist(r, h, i, j - 1) + 1;
      var c := Dist(r, h, i - 1, j - 1) + if r[i - 1] == h[j - 1] then 0 else 1;
      Min3Swap(a, b, c);
    }
  }

  lemma Min3Swap(a: nat, b: nat, c: nat)
    ensures Min3(a, b, c) == Min3(b, a, c)
  {
  }

  /** WER is zero exactly when the token lists are equal. */
  lemma WerZeroIffEqual(ref: string, hyp: string)
    ensures WordErrorRate(ref, hyp) == 0.0 <==> Tokenize(Some(ref)) == Tokenize(Some(hyp))
  {
    var r, h := Tokenize(Some(ref)), Tokenize(Some(hyp));
    if |r| > 0 {
      DistZero(r, h, |r|, |h|);
      assert r[..|r|] == r && h[..|h|] == h;
    }
  }

  /** WER is non-negative and at most max(R, H) / R. */
  lemma WerBounds(ref: string, hyp: string)
    ensures WordErrorRate(ref, hyp) >= 0.0
    ensures var r, h := Tokenize(Some(ref)), Tokenize(Some(hyp));
            |r| > 0 ==> WordErrorRate(ref, hyp) <= Ratio(Max(|r|, |h|), |r|)
  {
    var r, h := Tokenize(Some(ref)), Tokenize(Some(hyp));
    if |r| > 0 {
      var d := Dist(r, h, |r|, |h|);
      assert WordErrorRate(ref, hyp) == Ratio(d, |r|);
      DistUpper(r, h, |r|, |h|);
      RatioMonotone(d, Max(|r|, |h|), |r|);
      RatioMonotone(0, d, |r|);
      assert Ratio(0, |r|) == 0.0;
    }
  }

  lemma {:induction false} DistToEmpty<T>(r: seq<T>, h: seq<T>, i: nat)
    requires i <= |r|
    ensures Dist(r, h, i, 0) == i && Dist(h, r, 0, i) == i
  {
  }

  /** Against an empty text, every word is an error: the rate is 1 unless both are empty.
      This is how padded rows penalise missing and extra segments. */
  lemma WerAgainstEmpty(text: string)
    ensures WordErrorRate(text, []) == if Tokenize(Some(text)) == [] then 0.0 else 1.0
    ensures WordErrorRate([], text) == if Tokenize(Some(text)) == [] then 0.0 else 1.0
  {
    var t := Tokenize(Some(text));
    var e: seq<string> := Tokenize(Some([]));
    assert e == [];
    if t != [] {
      DistToEmpty(t, e, |t|);
      RatioAtMostOne(|t|, |t|);
      assert WordErrorRate(text, []) == Ratio(Dist(t, e, |t|, 0), |t|);
    }
  }

  // ---------------------------------------------------------------------------
  // pad_to_equal

  /** A transcript segment: one dict of the JSON list. */
  type Segment = map<string, Value>

  /** `{"text": "", "speaker": ""}`. */
  const PadSegment: Segment := map["text" := Str([]), "speaker" := Str([])]

  function Pads(n: nat): (r: seq<Segment>)
    ensures |r| == n && forall k :: 0 <= k < n ==> r[k] == PadSegment
  {
    seq(n, _ => PadSegment)
  }

  /** `pad_to_equal(gt, asr)`. */
  function PadToEqual(gt: seq<Segment>, asr: seq<Segment>): (r: (seq<Segment>, seq<Segment>))
    ensures |r.0| == |r.1| == Max(|gt|, |asr|)
    ensures r.0[..|gt|] == gt && r.1[..|asr|] == asr
    ensures forall k :: |gt| <= k < |r.0| ==> r.0[k] == PadSegment
    ensures forall k :: |asr| <= k < |r.1| ==> r.1[k] == PadSegment
    ensures |gt| <= |asr| ==> r.1 == asr
    ensures |asr| <= |gt| ==> r.0 == gt
  {
    if |gt| == |asr| then (gt, asr)
    else if |gt| < |asr| then (gt + Pads(|asr| - |gt|), asr)
    else (gt, asr + Pads(|gt| - |asr|))
  }

  // ---------------------------------------------------------------------------
  // run_metrics

  /** `seg.get("text", "") or ""` as `tokenize` then uses it: a falsy value is "", a string is
      itself, any other truthy value makes `.lower()` raise. */
  function TextOf(seg: Segment): (r: Result<string>)
    ensures ("text" !in seg || !Truthy(seg["text"])) ==> r == Ok([])
    ensures "text" in seg && seg["text"].Str? ==> r == Ok(seg["text"].s)
    ensures r.Err? <==> "text" in seg && Truthy(seg["text"]) && !seg["text"].Str?
  {
    var v := GetOr(seg, "text", Str([]));
    if !Truthy(v) then Ok([])
    else if v.Str? then Ok(v.s)
    else Err("text is not a string")
  }

  /** `seg.get("speaker", "").strip()`: raises unless the speaker is absent or a string. */
  function SpeakerOf(seg: Segment): (r: Result<string>)
    ensures "speaker" !in seg ==> r == Ok([])
    ensures r.Err? <==> "speaker" in seg && !seg["speaker"].Str?
    ensures "speaker" in seg && seg["speaker"].Str? ==> r == Ok(Text.PyStrip(seg["speaker"].s))
  {
    if "speaker" !in seg then Ok([])
    else match seg["speaker"]
      case Str(s) => Ok(Text.PyStrip(s))
      case _ => Err("speaker is not a string")
  }

  /** One row of the per-segment table, without the semantic similarity. */
  datatype Row = Row(index: nat, gtSpeaker: Value, asrSpeaker: Value, speakerCorrect: nat,
                     wer: real, gtText: string, asrText: string)

  /** Raised by `.lower()` or `.strip()` on a segment field that is not a string. */
  const BadSegment := "segment field is not a string"

  /** The row for the `i`-th pair. */
  function ScoreRow(i: nat, g: Segment, a: Segment): Result<Row> {
    match (TextOf(g), TextOf(a), SpeakerOf(g), SpeakerOf(a))
    case (Ok(gt), Ok(at), Ok(gs), Ok(as_)) =>
      Ok(Row(i, GetOr(g, "speaker", Str([])), GetOr(a, "speaker", Str([])),
             if gs == as_ then 1 else 0, WordErrorRate(gt, at), gt, at))
    case _ => Err(BadSegment)
  }

  /** A row exists exactly when both texts and both speakers are well-typed; it scores the WER
      of the two texts, and its speaker flag is 1 exactly when the stripped speakers agree. */
  lemma ScoreRowMeaning(i: nat, g: Segment, a: Segment)
    ensures var r := ScoreRow(i, g, a);
            (r.Ok? <==> TextOf(g).Ok? && TextOf(a).Ok? && SpeakerOf(g).Ok? && SpeakerOf(a).Ok?)
            && (r.Err? ==> r.error == BadSegment)
            && (r.Ok? ==> r.value.index == i
                          && r.value.wer == WordErrorRate(TextOf(g).value, TextOf(a).value)
                          && r.value.gtText == TextOf(g).value && r.value.asrText == TextOf(a).value
                          && (r.value.speakerCorrect == 1 <==> SpeakerOf(g).value == SpeakerOf(a).value)
                          && r.value.speakerCorrect <= 1)
  {
  }

  /** The row, or the exception, of every pair. */
  function RowResults(gs: seq<Segment>, as_: seq<Segment>): (r: seq<Result<Row>>)
    requires |gs| == |as_|
    ensures |r| == |gs| && forall m :: 0 <= m < |gs| ==> r[m] == ScoreRow(m + 1, gs[m], as_[m])
  {
    seq(|gs|, m requires 0 <= m < |gs| => ScoreRow(m + 1, gs[m], as_[m]))
  }

  function SumWer(rows: seq<Row>): real
    decreases |rows|
  {
    if rows == [] then 0.0 else SumWer(rows[..|rows| - 1]) + rows[|rows| - 1].wer
  }

  function SpeakerHits(rows: seq<Row>): nat
    decreases |rows|
  {
    if rows == [] then 0 else SpeakerHits(rows[..|rows| - 1]) + rows[|rows| - 1].speakerCorrect
  }

  /** The summary without the semantic similarity. */
  datatype Summary = Summary(segmentsCompared: nat, averageWer: real, speakerAccuracy: real)

  /** The divisor `n = len(rows) if rows else 1`. */
  function Divisor(rows: seq<Row>): (n: nat)
    ensures n >= 1 && (rows != [] ==> n == |rows|)
  {
    if rows != [] then |rows| else 1
  }

  function Summarize(rows: seq<Row>): Summary {
    var n := Divisor(rows);
    Summary(|rows|, Mean(SumWer(rows), n), Ratio(SpeakerHits(rows), n))
  }

  datatype Evaluation = Evaluation(rows: seq<Row>, summary: Summary)

  /** `run_metrics` on the two loaded segment lists. */
  function EvaluateSegments(gt: seq<Segment>, asr: seq<Segment>): Result<Evaluation> {
    var p := PadToEqual(gt, asr);
    match AllOk(RowResults(p.0, p.1))
    case Err(e) => Err(e)
    case Ok(rows) => Ok(Evaluation(rows, Summarize(rows)))
  }

  /** The body of the loop of `run_metrics` for the `i`-th pair. */
  method ScorePair(i: nat, g: Segment, a: Segment) returns (r: Result<Row>)
    ensures r == ScoreRow(i, g, a)
  {
    var gText, aText := TextOf(g), TextOf(a);
    var gSpeaker, aSpeaker := SpeakerOf(g), SpeakerOf(a);
    if gText.Err? || aText.Err? || gSpeaker.Err? || aSpeaker.Err? {
      return Err(BadSegment);
    }
    var w := Wer(gText.value, aText.value);
    var spk := if gSpeaker.value == aSpeaker.value then 1 else 0;
    r := Ok(Row(i, GetOr(g, "speaker", Str([])), GetOr(a, "speaker", Str([])), spk, w, gText.value, aText.value));
  }

  /** `run_metrics` after padding: the loop, then the summary. */
  method RunMetrics(gt: seq<Segment>, asr: seq<Segment>) returns (res: Result<Evaluation>)
    ensures res == EvaluateSegments(gt, asr)
  {
    var p := PadToEqual(gt, asr);
    var scored, totWer, spkOk := ScoreRows(p.0, p.1);
    if scored.Err? {
      return Err(scored.error);
    }
    var rows := scored.value;
    var n := if |rows| > 0 then |rows| else 1;
    return Ok(Evaluation(rows, Summary(|rows|, Mean(totWer, n), Ratio(spkOk, n))));
  }

  /** The loop of `run_metrics`, accumulating the WER total and the speaker hits; the first
      segment that raises ends it. */
  method ScoreRows(g: seq<Segment>, a: seq<Segment>) returns (res: Result<seq<Row>>, totWer: real, spkOk: nat)
    requires |g| == |a|
    ensures res == AllOk(RowResults(g, a))
    ensures res.Ok? ==> totWer == SumWer(res.value) && spkOk == SpeakerHits(res.value)
  {
    var rows: seq<Row> := [];
    totWer, spkOk := 0.0, 0;
    ghost var results := RowResults(g, a);
    for k := 0 to |g|
      invariant AllOk(results[..k]) == Ok(rows) && |rows| == k
      invariant totWer == SumWer(rows) && spkOk == SpeakerHits(rows)
    {
      var row := ScorePair(k + 1, g[k], a[k]);
      if row.Err? {
        AllOkFirstError(results, k);
        return Err(row.error), totWer, spkOk;
      }
      RowStep(results, k, rows, row.value);
      totWer := totWer + row.value.wer;
      spkOk := spkOk + row.value.speakerCorrect;
      rows := rows + [row.value];
    }
    assert results[..|g|] == results;
    res := Ok(rows);
  }

  /** One pass of the loop: a scored row extends the rows and the two running sums. */
  lemma RowStep(results: seq<Result<Row>>, k: nat, rows: seq<Row>, row: Row)
    requires k < |results| && AllOk(results[..k]) == Ok(rows) && results[k] == Ok(row)
    ensures AllOk(results[..k + 1]) == Ok(rows + [row])
    ensures SumWer(rows + [row]) == SumWer(rows) + row.wer
    ensures SpeakerHits(rows + [row]) == SpeakerHits(rows) + row.speakerCorrect
  {
    AllOkSnoc(results, k);
    assert (rows + [row])[..|rows|] == rows;
  }

  lemma {:induction false} SpeakerHitsBound(rows: seq<Row>)
    requires forall m :: 0 <= m < |rows| ==> rows[m].speakerCorrect <= 1
    ensures SpeakerHits(rows) <= |rows|
    ensures SpeakerHits(rows) == |rows| <==> forall m :: 0 <= m < |rows| ==> rows[m].speakerCorrect == 1
    decreases |rows|
  {
    if rows != [] {
      SpeakerHitsBound(rows[..|rows| - 1]);
    }
  }

  /** One row per segment of the longer list, numbered from 1 in order, each scoring its pair
      of the padded lists. */
  lemma RowsOfEvaluation(gt: seq<Segment>, asr: seq<Segment>)
    requires EvaluateSegments(gt, asr).Ok?
    ensures var p := PadToEqual(gt, asr);
            var rows := EvaluateSegments(gt, asr).value.rows;
            |rows| == Max(|gt|, |asr|)
            && forall m :: 0 <= m < |rows| ==> ScoreRow(m + 1, p.0[m], p.1[m]) == Ok(rows[m])
  {
    var p := PadToEqual(gt, asr);
    AllOkShape(RowResults(p.0, p.1));
  }

  /** The speaker accuracy lies in [0, 1] and, when any segment was compared, is 1 exactly
      when every speaker matches. */
  lemma AccuracyBounds(gt: seq<Segment>, asr: seq<Segment>)
    requires EvaluateSegments(gt, asr).Ok?
    ensures var ev := EvaluateSegments(gt, asr).value;
            0.0 <= ev.summary.speakerAccuracy <= 1.0
            && (ev.rows != [] ==>
                  (ev.summary.speakerAccuracy == 1.0 <==> forall m :: 0 <= m < |ev.rows| ==> ev.rows[m].speakerCorrect == 1))
  {
    var p := PadToEqual(gt, asr);
    var ev := EvaluateSegments(gt, asr).value;
    RowsOfEvaluation(gt, asr);
    forall m | 0 <= m < |ev.rows| ensures ev.rows[m].speakerCorrect <= 1 {
      ScoreRowMeaning(m + 1, p.0[m], p.1[m]);
    }
    SpeakerHitsBound(ev.rows);
    assert ev.summary.speakerAccuracy == Ratio(SpeakerHits(ev.rows), Divisor(ev.rows));
    if ev.rows == [] {
      assert ev.summary.speakerAccuracy == 0.0;
    } else {
      RatioAtMostOne(SpeakerHits(ev.rows), |ev.rows|);
    }
  }

  /** With no segments on either side nothing is compared and the divisor guard gives zeros. */
  lemma EmptyEvaluation()
    ensures EvaluateSegments([], []) == Ok(Evaluation([], Summary(0, 0.0, 0.0)))
  {
  }

  lemma {:induction false} SumWerNonNegative(rows: seq<Row>)
    requires forall m :: 0 <= m < |rows| ==> rows[m].wer >= 0.0
    ensures SumWer(rows) >= 0.0
    decreases |rows|
  {
    if rows != [] {
      SumWerNonNegative(rows[..|rows| - 1]);
    }
  }

  /** The average WER is non-negative. */
  lemma AverageWerNonNegative(gt: seq<Segment>, asr: seq<Segment>)
    requires EvaluateSegments(gt, asr).Ok?
    ensures EvaluateSegments(gt, asr).value.summary.averageWer >= 0.0
  {
    var p := PadToEqual(gt, asr);
    var rows := EvaluateSegments(gt, asr).value.rows;
    RowsOfEvaluation(gt, asr);
    forall m | 0 <= m < |rows| ensures rows[m].wer >= 0.0 {
      ScoreRowMeaning(m + 1, p.0[m], p.1[m]);
      WerBounds(TextOf(p.0[m]).value, TextOf(p.1[m]).value);
    }
    SumWerNonNegative(rows);
    MeanNonNegative(SumWer(rows), Divisor(rows));
  }

  /** A reference segment with no counterpart is scored against an empty text: its row has an
      empty hypothesis and a rate of 1 unless the reference has no words either. */
  lemma MissingSegmentPenalised(gt: seq<Segment>, asr: seq<Segment>, m: nat)
    requires EvaluateSegments(gt, asr).Ok?
    requires |asr| <= m < |gt|
    ensures var rows := EvaluateSegments(gt, asr).value.rows;
            m < |rows| && rows[m].asrText == []
            && rows[m].wer == (if Tokenize(Some(rows[m].gtText)) == [] then 0.0 else 1.0)
  {
    RowsOfEvaluation(gt, asr);
    var p := PadToEqual(gt, asr);
    assert p.1[m] == PadSegment;
    ScoreRowMeaning(m + 1, p.0[m], p.1[m]);
    WerAgainstEmpty(EvaluateSegments(gt, asr).value.rows[m].gtText);
  }

  /** A hypothesis segment with no counterpart is scored against an empty reference, so
      hallucinated words count as errors. */
  lemma ExtraSegmentPenalised(gt: seq<Segment>, asr: seq<Segment>, m: nat)
    requires EvaluateSegments(gt, asr).Ok?
    requires |gt| <= m < |asr|
    ensures var rows := EvaluateSegments(gt, asr).value.rows;
            m < |rows| && rows[m].gtText == []
            && rows[m].wer == (if Tokenize(Some(rows[m].asrText)) == [] then 0.0 else 1.0)
  {
    RowsOfEvaluation(gt, asr);
    var p := PadToEqual(gt, asr);
    assert p.0[m] == PadSegment;
    ScoreRowMeaning(m + 1, p.0[m], p.1[m]);
    WerAgainstEmpty(EvaluateSegments(gt, asr).value.rows[m].asrText);
  }
}
