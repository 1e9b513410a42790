/** json_cleaner.py: `filter_diarized_json` keeps the four fields `start`, `end`, `text` and
    `speaker` of every segment of a diarized transcript. */
module JsonCleaner {
  import opened Wrappers
  import opened Json
  import Metrics
  import Text

  /** The names the comprehension keeps. */
  const Kept: set<string> := {"start", "end", "text", "speaker"}

  /** `{key: item.get(key) for key in (...) if key in item}` on a dict. */
  function Project(item: map<string, Value>): (r: map<string, Value>)
    ensures r.Keys == item.Keys * Kept
    ensures forall k :: k in r ==> r[k] == item[k]
  {
    map k | k in item.Keys && k in Kept :: item[k]
  }

  /** `key in item` where `item` is a string: substring test. */
  predicate Occurs(key: string, s: string) {
    exists i :: 0 <= i <= |s| && Text.StartsWith(s[i..], key)
  }

  /** Whether some kept name passes the comprehension's `key in item` test on a non-dict item,
      after which `item.get` raises. */
  predicate MatchesKeptName(item: Value)
    requires !item.Obj?
  {
    match item
    case Arr(items) => Str("start") in items || Str("end") in items || Str("text") in items || Str("speaker") in items
    case Str(s) => Occurs("start", s) || Occurs("end", s) || Occurs("text", s) || Occurs("speaker", s)
    case _ => true
  }

  /** One item of the outer comprehension. A list or string item that contains none of the four
      names yields an empty dict; any other non-dict item raises (`in` on a number, None or a
      boolean is a type error; `.get` on a list or string is an attribute error). */
  function CleanItem(item: Value): (r: Result<map<string, Value>>)
    ensures item.Obj? ==> r.Ok? && r.value.Keys == item.fields.Keys * Kept
                          && forall k :: k in r.value ==> r.value[k] == item.fields[k]
    ensures !item.Obj? ==> (r.Err? <==> MatchesKeptName(item))
    ensures !item.Obj? && r.Ok? ==> r.value == map[]
  {
    if item.Obj? then Ok(Project(item.fields))
    else if MatchesKeptName(item) then Err("segment is not a dict")
    else Ok(map[])
  }

  /** `filtered_data` for the loaded list `data`; the first item that raises aborts the script. */
  function FilterDiarized(data: seq<Value>): Result<seq<map<string, Value>>> {
    AllOk(CleanItems(data))
  }

  function CleanItems(data: seq<Value>): (r: seq<Result<map<string, Value>>>)
    ensures |r| == |data| && forall k :: 0 <= k < |data| ==> r[k] == CleanItem(data[k])
  {
    seq(|data|, k requires 0 <= k < |data| => CleanItem(data[k]))
  }

  /** The output has the length and order of the input, and each item is the cleaned item in
      the same position; it fails exactly when some item fails. */
  lemma FilterShape(data: seq<Value>)
    ensures FilterDiarized(data).Ok? <==> forall k :: 0 <= k < |data| ==> CleanItem(data[k]).Ok?
    ensures FilterDiarized(data).Ok? ==>
              |FilterDiarized(data).value| == |data|
              && forall k :: 0 <= k < |data| ==> CleanItem(data[k]) == Ok(FilterDiarized(data).value[k])
  {
    AllOkShape(CleanItems(data));
  }

  /** Every dict segment keeps exactly the kept names it has, with their values; nothing else. */
  lemma DictSegmentProjected(data: seq<Value>, k: nat)
    requires FilterDiarized(data).Ok? && k < |data| && data[k].Obj?
    ensures k < |FilterDiarized(data).value|
    ensures var out := FilterDiarized(data).value[k];
            out.Keys == data[k].fields.Keys * Kept
            && forall name :: name in out ==> out[name] == data[k].fields[name]
  {
    FilterShape(data);
  }

  /** The projection is idempotent. */
  lemma ProjectIdempotent(item: map<string, Value>)
    ensures Project(Project(item)) == Project(item)
  {
  }

  function AsValues(items: seq<map<string, Value>>): (r: seq<Value>)
    ensures |r| == |items| && forall k :: 0 <= k < |items| ==> r[k] == Obj(items[k])
  {
    seq(|items|, k requires 0 <= k < |items| => Obj(items[k]))
  }

  /** Cleaning a cleaned file changes nothing. */
  lemma {:induction false} FilterIdempotent(data: seq<Value>)
    requires FilterDiarized(data).Ok?
    ensures FilterDiarized(AsValues(FilterDiarized(data).value)) == FilterDiarized(data)
  {
    var out := FilterDiarized(data).value;
    FilterShape(data);
    var again := AsValues(out);
    forall k | 0 <= k < |again| ensures CleanItem(again[k]) == Ok(out[k]) {
      var orig := data[k];
      if orig.Obj? {
        ProjectIdempotent(orig.fields);
      } else {
        assert out[k] == map[];
        assert Project(map[]) == map[];
      }
    }
    FilterShape(again);
    assert FilterDiarized(again).value == out;
  }

  /** The scoring reads only `text` and `speaker`, so a cleaned segment scores as the raw one. */
  lemma ProjectKeepsScore(i: nat, g: map<string, Value>, a: map<string, Value>)
    ensures Metrics.ScoreRow(i, Project(g), Project(a)) == Metrics.ScoreRow(i, g, a)
  {
    assert Metrics.TextOf(Project(g)) == Metrics.TextOf(g);
    assert Metrics.TextOf(Project(a)) == Metrics.TextOf(a);
    assert Metrics.SpeakerOf(Project(g)) == Metrics.SpeakerOf(g);
    assert Metrics.SpeakerOf(Project(a)) == Metrics.SpeakerOf(a);
    assert GetOr(Project(g), "speaker", Str([])) == GetOr(g, "speaker", Str([]));
    assert GetOr(Project(a), "speaker", Str([])) == GetOr(a, "speaker", Str([]));
  }

  function ProjectAll(segs: seq<map<string, Value>>): (r: seq<map<string, Value>>)
    ensures |r| == |segs| && forall k :: 0 <= k < |segs| ==> r[k] == Project(segs[k])
  {
    seq(|segs|, k requires 0 <= k < |segs| => Project(segs[k]))
  }

  /** Metrics computed on cleaned transcripts equal those computed on the raw ones. */
  lemma CleanedTranscriptsScoreSame(gt: seq<Metrics.Segment>, asr: seq<Metrics.Segment>)
    ensures Metrics.EvaluateSegments(ProjectAll(gt), ProjectAll(asr)) == Metrics.EvaluateSegments(gt, asr)
  {
    var p := Metrics.PadToEqual(gt, asr);
    var q := Metrics.PadToEqual(ProjectAll(gt), ProjectAll(asr));
    assert Project(Metrics.PadSegment) == Metrics.PadSegment;
    forall m | 0 <= m < |p.0| ensures q.0[m] == Project(p.0[m]) && q.1[m] == Project(p.1[m]) {
      if m < |gt| {
        assert q.0[m] == q.0[..|gt|][m] && p.0[m] == p.0[..|gt|][m];
      }
      if m < |asr| {
        assert q.1[m] == q.1[..|asr|][m] && p.1[m] == p.1[..|asr|][m];
      }
    }
    forall m | 0 <= m < |p.0| ensures Metrics.RowResults(q.0, q.1)[m] == Metrics.RowResults(p.0, p.1)[m] {
      ProjectKeepsScore(m + 1, p.0[m], p.1[m]);
    }
    assert Metrics.RowResults(q.0, q.1) == Metrics.RowResults(p.0, p.1);
  }
}
