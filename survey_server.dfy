/** survey-app/server.js: the helpers behind the survey API. IDs are normalised to the
    pipeline's file keys, the video list is read from a CSV file, atomic facts are read one per
    line, and each user's answers are kept in one JSON object per user, keyed by video. */
module SurveyServer {
  import opened Wrappers
  import opened Json
  import Keys
  import Text
  import BatchJob
  import NarrativeBatch
  import AtomicBatch

  // ---------------------------------------------------------------------------
  // getVideoNumber / getNarrativeNumber

  /** `id.match(/prefix(\d+)/)`, then `parseInt(match[1], 10)` formatted with two digits below
      100; `null` when there is no match. */
  function NumberAfter(id: string, prefix: string): (r: Option<string>)
    ensures r.None? <==> Keys.MatchDigits(id, prefix).None?
    ensures r.Some? ==> r.value == Keys.PyKey(Keys.ParseDecimal(Keys.MatchDigits(id, prefix).value))
  {
    match Keys.MatchDigits(id, prefix)
    case None => None
    case Some(digits) =>
      var n := Keys.ParseDecimal(digits);
      Keys.JsKeyIsPyKey(n);
      Some(Keys.JsKey(n))
  }

  function VideoNumber(videoId: string): Option<string> {
    NumberAfter(videoId, "video_")
  }

  function NarrativeNumber(narrativeId: string): Option<string> {
    NumberAfter(narrativeId, "narrative_")
  }

  /** `null` exactly when no `video_` followed by a digit occurs; otherwise a key of at least two
      digits that denotes the value of the first such digit run. */
  lemma VideoNumberContract(videoId: string)
    ensures VideoNumber(videoId).None? <==> forall k: nat :: !Keys.MatchAt(videoId, "video_", k)
    ensures VideoNumber(videoId).Some? ==>
              var key := VideoNumber(videoId).value;
              |key| >= 2 && Keys.AllDigits(key)
              && Keys.ParseDecimal(key) == Keys.ParseDecimal(Keys.MatchDigits(videoId, "video_").value)
  {
    if VideoNumber(videoId).Some? {
      Keys.KeyRoundTrip(Keys.ParseDecimal(Keys.MatchDigits(videoId, "video_").value));
    }
  }

  /** The same contract for `narrative_`. */
  lemma NarrativeNumberContract(narrativeId: string)
    ensures NarrativeNumber(narrativeId).None? <==> forall k: nat :: !Keys.MatchAt(narrativeId, "narrative_", k)
    ensures NarrativeNumber(narrativeId).Some? ==>
              var key := NarrativeNumber(narrativeId).value;
              |key| >= 2 && Keys.AllDigits(key)
              && Keys.ParseDecimal(key) == Keys.ParseDecimal(Keys.MatchDigits(narrativeId, "narrative_").value)
  {
    if NarrativeNumber(narrativeId).Some? {
      Keys.KeyRoundTrip(Keys.ParseDecimal(Keys.MatchDigits(narrativeId, "narrative_").value));
    }
  }

  /** The server's number for `prefix` followed by the Python key of `i` is that key. */
  lemma NumberOfKey(prefix: string, i: nat)
    ensures NumberAfter(prefix + Keys.PyKey(i), prefix) == Some(Keys.PyKey(i))
  {
    Keys.MatchDigitsAtStart(prefix, Keys.PyKey(i));
    Keys.KeyRoundTrip(i);
  }

  /** Round trip with the pipeline: the ID built from the key of item `i` maps back to that key. */
  lemma VideoNumberRoundTrip(i: nat)
    ensures VideoNumber("video_" + Keys.PyKey(i)) == Some(Keys.PyKey(i))
  {
    NumberOfKey("video_", i);
  }

  lemma NarrativeNumberRoundTrip(i: nat)
    ensures NarrativeNumber("narrative_" + Keys.PyKey(i)) == Some(Keys.PyKey(i))
  {
    NumberOfKey("narrative_", i);
  }

  /** An ID written without padding is normalised to the key. */
  lemma VideoNumberUnpadded(i: nat)
    ensures VideoNumber("video_" + Keys.Decimal(i)) == Some(Keys.PyKey(i))
  {
    Keys.MatchDigitsAtStart("video_", Keys.Decimal(i));
    Keys.ParseDecimalOfDecimal(i);
  }

  /** An extra leading zero is dropped. */
  lemma VideoNumberExtraZero(i: nat)
    ensures VideoNumber("video_0" + Keys.PyKey(i)) == Some(Keys.PyKey(i))
  {
    var key := Keys.PyKey(i);
    var digits := "0" + key;
    assert "video_0" + key == "video_" + digits;
    VideoNumberOfDigits(digits);
    Keys.ParseDecimalLeadingZero(key);
    Keys.KeyRoundTrip(i);
  }

  lemma VideoNumberOfDigits(digits: string)
    requires |digits| >= 1 && Keys.AllDigits(digits)
    ensures VideoNumber("video_" + digits) == Some(Keys.PyKey(Keys.ParseDecimal(digits)))
  {
    Keys.MatchDigitsAtStart("video_", digits);
  }

  /** Two concrete IDs. */
  lemma VideoNumberExamples()
    ensures VideoNumber("video_01") == Some("01")
    ensures VideoNumber("clip") == None
  {
    VideoNumberRoundTrip(1);
    assert Keys.PyKey(1) == "01";
    assert !Keys.MatchAt("clip", "video_", 0);
  }

  /** The narrative route's file name `narrative_${num}.txt`. */
  function NarrativeFile(narrativeId: string): Option<string> {
    match NarrativeNumber(narrativeId)
    case None => None
    case Some(num) => Some("narrative_" + num + ".txt")
  }

  /** The atomic-facts route's file name `atomic_facts_${num}.txt`. */
  function AtomicFactsFile(videoId: string): Option<string> {
    match VideoNumber(videoId)
    case None => None
    case Some(num) => Some("atomic_facts_" + num + ".txt")
  }

  /** For video `i` the server looks for a file with the name the atomic-facts script gives its
      output `i`. The directories differ: the server reads from its own `data/` folder. */
  lemma ServedAtomicFactsName(i: nat)
    ensures AtomicFactsFile("video_" + Keys.PyKey(i)).Some?
    ensures AtomicBatch.Atomic.outputDir + "/" + AtomicFactsFile("video_" + Keys.PyKey(i)).value
            == BatchJob.OutputPath(AtomicBatch.Atomic, BatchJob.Idx(i))
  {
    var k := Keys.PyKey(i);
    VideoNumberRoundTrip(i);
    assert AtomicFactsFile("video_" + k) == Some("atomic_facts_" + k + ".txt");
    assert "atomic_facts" + "/" + ("atomic_facts_" + k + ".txt") == "atomic_facts" + "/" + "atomic_facts_" + k + ".txt";
  }

  /** For narrative `i` the server looks for a file with the name the narrative script gives its
      output `i`, again in a directory of its own. */
  lemma ServedNarrativeName(i: nat)
    ensures NarrativeFile("narrative_" + Keys.PyKey(i)).Some?
    ensures NarrativeBatch.Narrative.outputDir + "/" + NarrativeFile("narrative_" + Keys.PyKey(i)).value
            == BatchJob.OutputPath(NarrativeBatch.Narrative, BatchJob.Idx(i))
  {
    var k := Keys.PyKey(i);
    NarrativeNumberRoundTrip(i);
    assert NarrativeFile("narrative_" + k) == Some("narrative_" + k + ".txt");
    assert "narratives" + "/" + ("narrative_" + k + ".txt") == "narratives" + "/" + "narrative_" + k + ".txt";
  }

  // ---------------------------------------------------------------------------
  // loadVideos

  const Bom: char := 0xFEFF as char

  /** Removes one leading byte-order mark. */
  function StripBom(content: string): (r: string)
    ensures content != [] && content[0] == Bom ==> r == content[1..]
    ensures (content == [] || content[0] != Bom) ==> r == content
  {
    if |content| > 0 && content[0] == Bom then content[1..] else content
  }

  /** Only one mark goes: the result starts with a mark only when the input started with two,
      and the removed prefix is at most one character long. */
  lemma StripBomOnce(content: string)
    ensures |content| - 1 <= |StripBom(content)| <= |content|
    ensures content[|content| - |StripBom(content)|..] == StripBom(content)
    ensures StripBom(content) != [] && StripBom(content)[0] == Bom ==>
              |content| >= 2 && content[0] == Bom && content[1] == Bom
  {
  }

  /** A CSV row as csv-parser gives it: column name to cell text. */
  type CsvRow = map<string, string>

  /** `row.VideoID && row.VideoID.trim()`. */
  predicate KeepRow(row: CsvRow) {
    "VideoID" in row && row["VideoID"] != [] && Text.JsTrim(row["VideoID"]) != []
  }

  /** The rows kept, in order. */
  function KeptRows(rows: seq<CsvRow>): seq<CsvRow>
    decreases |rows|
  {
    if rows == [] then []
    else KeptRows(rows[..|rows| - 1]) + (if KeepRow(rows[|rows| - 1]) then [rows[|rows| - 1]] else [])
  }

  /** `loadVideos` after reading the file: strip the mark, parse, and push each kept row.
      The CSV parser (with its own skipping of empty and malformed lines) is `parseCsv`. */
  method LoadVideos(content: string, parseCsv: string -> seq<CsvRow>) returns (videos: seq<CsvRow>)
    ensures videos == KeptRows(parseCsv(StripBom(content)))
  {
    var fileContent := content;
    if |fileContent| > 0 && fileContent[0] == Bom {
      fileContent := fileContent[1..];
    }
    var rows := parseCsv(fileContent);
    videos := [];
    for k := 0 to |rows|
      invariant videos == KeptRows(rows[..k])
    {
      var row := rows[k];
      assert rows[..k + 1][..k] == rows[..k];
      if KeepRow(row) {
        videos := videos + [row];
      }
    }
    assert rows[..|rows|] == rows;
  }

  /** Filtering distributes over concatenation. */
  lemma {:induction false} KeptRowsAppend(a: seq<CsvRow>, b: seq<CsvRow>)
    ensures KeptRows(a + b) == KeptRows(a) + KeptRows(b)
    decreases |b|
  {
    if b == [] {
      assert a + b == a;
    } else {
      KeptRowsAppend(a, b[..|b| - 1]);
      assert (a + b)[..|a + b| - 1] == a + b[..|b| - 1];
    }
  }

  /** A row is kept exactly when its `VideoID` is present and not blank; with
      `KeptRowsAppend`, the kept rows keep their relative order. */
  lemma {:induction false} KeptRowsExact(rows: seq<CsvRow>)
    ensures forall row :: row in KeptRows(rows) <==> row in rows && KeepRow(row)
    decreases |rows|
  {
    if rows != [] {
      var init, last := rows[..|rows| - 1], rows[|rows| - 1];
      KeptRowsExact(init);
      assert rows == init + [last];
    }
  }

  // ---------------------------------------------------------------------------
  // atomic-facts route

  function TrimLines(lines: seq<string>): (r: seq<string>)
    ensures |r| == |lines| && forall k :: 0 <= k < |lines| ==> r[k] == Text.JsTrim(lines[k])
  {
    seq(|lines|, k requires 0 <= k < |lines| => Text.JsTrim(lines[k]))
  }

  function NonEmptyLines(lines: seq<string>): (r: seq<string>)
    ensures forall k :: 0 <= k < |r| ==> r[k] != [] && r[k] in lines
    decreases |lines|
  {
    if lines == [] then []
    else NonEmptyLines(lines[..|lines| - 1]) + (if lines[|lines| - 1] != [] then [lines[|lines| - 1]] else [])
  }

  /** `content.split('\n').map(line => line.trim()).filter(line => line.length > 0)`. */
  function ParseFacts(content: string): (facts: seq<string>)
    ensures forall k :: 0 <= k < |facts| ==> facts[k] != [] && Text.IsTrimmed(facts[k], Text.IsJsSpace)
  {
    var lines := TrimLines(Text.Split(content, '\n'));
    var facts := NonEmptyLines(lines);
    assert forall k :: 0 <= k < |facts| ==> facts[k] in lines;
    facts
  }

  lemma {:induction false} NonEmptyLinesKeepsAll(lines: seq<string>)
    requires forall k :: 0 <= k < |lines| ==> lines[k] != []
    ensures NonEmptyLines(lines) == lines
    decreases |lines|
  {
    if lines != [] {
      NonEmptyLinesKeepsAll(lines[..|lines| - 1]);
    }
  }

  /** Round trip: facts written one per line are read back as they were, provided each is
      non-empty, has no surrounding whitespace and holds no line break. */
  lemma FactsRoundTrip(facts: seq<string>)
    requires |facts| >= 1
    requires forall k :: 0 <= k < |facts| ==> facts[k] != [] && Text.IsTrimmed(facts[k], Text.IsJsSpace) && '\n' !in facts[k]
    ensures ParseFacts(Text.Join(facts, '\n')) == facts
  {
    Text.SplitJoin(facts, '\n');
    forall k | 0 <= k < |facts| ensures Text.JsTrim(facts[k]) == facts[k] {
      Text.StripTrimmed(facts[k], Text.IsJsSpace);
    }
    assert TrimLines(facts) == facts;
    NonEmptyLinesKeepsAll(facts);
  }

  /** The filter distributes over concatenation: it keeps order and drops only empty lines. */
  lemma {:induction false} NonEmptyLinesAppend(a: seq<string>, b: seq<string>)
    ensures NonEmptyLines(a + b) == NonEmptyLines(a) + NonEmptyLines(b)
    decreases |b|
  {
    if b == [] {
      assert a + b == a;
    } else {
      var b' := b[..|b| - 1];
      NonEmptyLinesAppend(a, b');
      assert (a + b)[..|a + b| - 1] == a + b';
      assert (a + b)[|a + b| - 1] == b[|b| - 1];
    }
  }

  /** On one line the filter keeps it exactly when it is non-empty. */
  lemma NonEmptyLinesSingle(l: string)
    ensures NonEmptyLines([l]) == if l == [] then [] else [l]
  {
    assert [l][..0] == [];
  }

  /** A line survives the filter exactly when it is among the input lines and is non-empty. */
  lemma {:induction false} NonEmptyLinesMembers(lines: seq<string>)
    ensures forall l :: l in NonEmptyLines(lines) <==> l in lines && l != []
    decreases |lines|
  {
    if lines != [] {
      var init, last := lines[..|lines| - 1], lines[|lines| - 1];
      NonEmptyLinesMembers(init);
      assert lines == init + [last];
    }
  }

  /** The facts are exactly the trimmed lines of the file that are not empty. */
  lemma ParseFactsMembers(content: string)
    ensures forall l :: l in ParseFacts(content) <==> l in TrimLines(Text.Split(content, '\n')) && l != []
  {
    NonEmptyLinesMembers(TrimLines(Text.Split(content, '\n')));
  }

  /** An empty file has no facts. */
  lemma NoFactsInEmptyFile()
    ensures ParseFacts([]) == []
  {
    assert Text.Split([], '\n') == [[]];
    assert TrimLines([[]]) == [[]];
  }

  /** A file made only of whitespace and line breaks has no facts. */
  lemma NoFactsInBlankFile(content: string)
    requires forall k :: 0 <= k < |content| ==> Text.IsJsSpace(content[k])
    ensures ParseFacts(content) == []
  {
    var pieces := Text.Split(content, '\n');
    Text.SplitPiecesFrom(content, '\n');
    var lines := TrimLines(pieces);
    forall k | 0 <= k < |lines| ensures lines[k] == [] {
      forall i | 0 <= i < |pieces[k]| ensures Text.IsJsSpace(pieces[k][i]) {
        assert pieces[k][i] in content;
      }
      Text.StripAllSpace(pieces[k], Text.IsJsSpace);
    }
    NonEmptyLinesOfBlank(lines);
  }

  lemma {:induction false} NonEmptyLinesOfBlank(lines: seq<string>)
    requires forall k :: 0 <= k < |lines| ==> lines[k] == []
    ensures NonEmptyLines(lines) == []
    decreases |lines|
  {
    if lines != [] {
      NonEmptyLinesOfBlank(lines[..|lines| - 1]);
    }
  }

  // ---------------------------------------------------------------------------
  // POST /api/responses/:username/:videoId

  /** `{...responses, timestamp: new Date().toISOString()}`; the timestamp comes last and so
      replaces any `timestamp` in the body. */
  function WithTimestamp(body: map<string, Value>, timestamp: string): (r: map<string, Value>)
    ensures r.Keys == body.Keys + {"timestamp"}
    ensures r["timestamp"] == Str(timestamp)
    ensures forall k :: k in body && k != "timestamp" ==> r[k] == body[k]
  {
    body["timestamp" := Str(timestamp)]
  }

  /** Raised by the property assignment on a stored value that is `null` or a primitive. */
  const NotAnObject := "stored responses are not an object"

  /** Raised by `arr.length = {...}`: an object converts to NaN, which is no valid array length. */
  const BadLength := "invalid array length"

  /** The array index a property name denotes: its canonical decimal form, below 2^32 - 1. */
  function ArrayIndex(name: string): Option<nat> {
    if |name| >= 1 && Keys.AllDigits(name) && (name[0] != '0' || |name| == 1)
       && Keys.ParseDecimal(name) < 0xFFFF_FFFF
    then Some(Keys.ParseDecimal(name))
    else None
  }

  /** `items[n] = v` on a JavaScript array: past the end, the holes serialise as `null`. */
  function SetElement(items: seq<Value>, n: nat, v: Value): (r: seq<Value>)
    ensures |r| == if n < |items| then |items| else n + 1
    ensures r[n] == v && forall k :: 0 <= k < |items| && k != n ==> r[k] == items[k]
    ensures forall k :: |items| <= k < n ==> r[k] == Null
  {
    if n < |items| then items[n := v] else items + seq(n - |items|, _ => Null) + [v]
  }

  /** The new contents of the user's file, from its old contents (`None` when the file does not
      exist yet). On an array an index name sets that element, `length` raises (the entry is
      an object, not a valid length), and any other property set on it is not written. */
  function SavedResponses(stored: Option<Value>, videoId: string, body: map<string, Value>, timestamp: string): Result<Value> {
    var entry := Obj(WithTimestamp(body, timestamp));
    match stored
    case None => Ok(Obj(map[videoId := entry]))
    case Some(Obj(all)) => Ok(Obj(all[videoId := entry]))
    case Some(Arr(items)) =>
      if videoId == "length" then Err(BadLength)
      else
        (match ArrayIndex(videoId)
         case Some(n) => Ok(Arr(SetElement(items, n, entry)))
         case None => Ok(Arr(items)))
    case Some(_) => Err(NotAnObject)
  }

  /** On an object (or a missing file), the video's entry becomes the body plus the timestamp and
      every other video's entry is kept; null and primitives fail. */
  lemma SaveUpdatesOneVideo(stored: Option<Value>, videoId: string, body: map<string, Value>, timestamp: string)
    requires stored.None? || stored.value.Obj?
    ensures var r := SavedResponses(stored, videoId, body, timestamp);
            r.Ok? && r.value.Obj?
            && videoId in r.value.fields && r.value.fields[videoId] == Obj(WithTimestamp(body, timestamp))
            && (stored.None? ==> r.value.fields.Keys == {videoId})
            && (stored.Some? ==>
                  r.value.fields.Keys == stored.value.fields.Keys + {videoId}
                  && forall v :: v in stored.value.fields && v != videoId ==> r.value.fields[v] == stored.value.fields[v])
  {
  }

  /** Saving the same video twice keeps only the later answer. */
  lemma SaveOverrides(stored: Option<Value>, videoId: string, b1: map<string, Value>, t1: string, b2: map<string, Value>, t2: string)
    requires stored.None? || stored.value.Obj?
    ensures SavedResponses(Some(SavedResponses(stored, videoId, b1, t1).value), videoId, b2, t2)
            == SavedResponses(stored, videoId, b2, t2)
  {
    var e1, e2 := Obj(WithTimestamp(b1, t1)), Obj(WithTimestamp(b2, t2));
    var all := if stored.None? then map[] else stored.value.fields;
    assert all[videoId := e1][videoId := e2] == all[videoId := e2];
    assert map[videoId := e1][videoId := e2] == map[videoId := e2];
  }

  /** A survey video ID is neither an array index nor `length`, so a file holding an array is
      written back unchanged. */
  lemma VideoIdOnArrayChangesNothing(i: nat, items: seq<Value>, body: map<string, Value>, timestamp: string)
    ensures SavedResponses(Some(Arr(items)), "video_" + Keys.PyKey(i), body, timestamp) == Ok(Arr(items))
  {
    var id := "video_" + Keys.PyKey(i);
    assert !Keys.IsDigit(id[0]);
  }

  /** An index name on an array sets that element, keeping the others. */
  lemma IndexOnArraySetsElement(items: seq<Value>, n: nat, body: map<string, Value>, timestamp: string)
    requires n < 0xFFFF_FFFF
    ensures var r := SavedResponses(Some(Arr(items)), Keys.Decimal(n), body, timestamp);
            r.Ok? && r.value.Arr? && n < |r.value.items|
            && r.value.items[n] == Obj(WithTimestamp(body, timestamp))
            && forall k :: 0 <= k < |items| && k != n ==> r.value.items[k] == items[k]
  {
    Keys.ParseDecimalOfDecimal(n);
    Keys.DecimalNoLeadingZero(n);
  }

  /** Assigning the entry to `length` of a stored array raises, so the save fails and nothing
      is written. */
  lemma LengthOnArrayRaises(items: seq<Value>, body: map<string, Value>, timestamp: string)
    ensures SavedResponses(Some(Arr(items)), "length", body, timestamp) == Err(BadLength)
  {
  }

  lemma SaveRejectsPrimitives(v: Value, videoId: string, body: map<string, Value>, timestamp: string)
    requires !v.Obj? && !v.Arr?
    ensures SavedResponses(Some(v), videoId, body, timestamp) == Err(NotAnObject)
  {
  }

  /** The responses directory: each user's file holds one JSON value. */
  class ResponseStore {
    var files: map<string, Value>

    constructor(files0: map<string, Value>)
      ensures files == files0
    {
      files := files0;
    }

    /** The POST route: load (an absent file is an empty object), update, write back. On a
        failure nothing is written. */
    method Save(username: string, videoId: string, body: map<string, Value>, timestamp: string)
      returns (ok: bool)
      modifies this
      ensures var r := SavedResponses(if username in old(files) then Some(old(files)[username]) else None,
                                      videoId, body, timestamp);
              ok == r.Ok? && files == (if r.Ok? then old(files)[username := r.value] else old(files))
    {
      var allResponses: Value := Obj(map[]);
      if username in files {
        allResponses := files[username];
      }
      var entry := Obj(body["timestamp" := Str(timestamp)]);
      match allResponses {
        case Obj(all) =>
          allResponses := Obj(all[videoId := entry]);
        case Arr(items) =>
          if videoId == "length" {
            return false;
          }
          match ArrayIndex(videoId) {
            case Some(n) => allResponses := Arr(SetElement(items, n, entry));
            case None =>
          }
        case _ =>
          return false;
      }
      files := files[username := allResponses];
      return true;
    }
  }
}
