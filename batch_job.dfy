/** The request / poll / demultiplex protocol shared by batch_prompt_narrative.py and
    batch_prompt_atomic.py. The Gemini backend is replaced by what the scripts observe of it:
    the job state each poll returns, and the lines of the downloaded results file. */
module BatchJob {
  import opened Wrappers
  import Keys
  import Text
  import opened Json

  /** What distinguishes the two scripts: where inputs are read, how requests are keyed and
      labelled, and where outputs are written. */
  datatype Config = Config(
    inputDir: string, inputPrefix: string, inputSuffix: string,
    keyPrefix: string, promptLabel: string,
    outputDir: string, outputPrefix: string, outputSuffix: string)

  /** `f"{i:02d}"`. */
  function Idx(i: nat): string {
    Keys.PyKey(i)
  }

  function InputPath(c: Config, idx: string): string {
    c.inputDir + "/" + c.inputPrefix + idx + c.inputSuffix
  }

  function RequestKey(c: Config, idx: string): string {
    c.keyPrefix + idx
  }

  function OutputPath(c: Config, idx: string): string {
    c.outputDir + "/" + c.outputPrefix + idx + c.outputSuffix
  }

  /** The text of one request: the fixed instruction, the label, then the whole input document. */
  function Prompt(c: Config, instruction: string, doc: string): string {
    instruction + c.promptLabel + doc
  }

  /** One line of the requests file, `{"key": key, "request": {"contents": [{"parts": [{"text": prompt}]}]}}`. */
  datatype Request = Request(key: string, prompt: string)

  // ---------------------------------------------------------------------------
  // 1) Building the requests

  /** The indices whose input file exists, in the order they are visited. */
  function PresentIndices(c: Config, indices: seq<nat>, inputs: map<string, string>): seq<nat>
    decreases |indices|
  {
    if indices == [] then []
    else
      var rest := PresentIndices(c, indices[..|indices| - 1], inputs);
      var i := indices[|indices| - 1];
      if InputPath(c, Idx(i)) in inputs then rest + [i] else rest
  }

  /** The requests written, one per index whose input file exists. */
  function Requests(c: Config, instruction: string, indices: seq<nat>, inputs: map<string, string>): seq<Request>
    decreases |indices|
  {
    if indices == [] then []
    else
      var rest := Requests(c, instruction, indices[..|indices| - 1], inputs);
      var idx := Idx(indices[|indices| - 1]);
      var path := InputPath(c, idx);
      if path in inputs then rest + [Request(RequestKey(c, idx), Prompt(c, instruction, inputs[path]))] else rest
  }

  /** The paths reported `[MISSING]`, in order. */
  function Missing(c: Config, indices: seq<nat>, inputs: map<string, string>): seq<string>
    decreases |indices|
  {
    if indices == [] then []
    else
      var rest := Missing(c, indices[..|indices| - 1], inputs);
      var path := InputPath(c, Idx(indices[|indices| - 1]));
      if path in inputs then rest else rest + [path]
  }

  /** The request-building loop: one request per existing input, a `[MISSING]` report otherwise. */
  method BuildRequests(c: Config, instruction: string, indices: seq<nat>, inputs: map<string, string>)
    returns (requests: seq<Request>, missing: seq<string>)
    ensures requests == Requests(c, instruction, indices, inputs)
    ensures missing == Missing(c, indices, inputs)
  {
    requests, missing := [], [];
    for n := 0 to |indices|
      invariant requests == Requests(c, instruction, indices[..n], inputs)
      invariant missing == Missing(c, indices[..n], inputs)
    {
      assert indices[..n + 1][..n] == indices[..n];
      var idx := Idx(indices[n]);
      var path := InputPath(c, idx);
      if path !in inputs {
        missing := missing + [path];
        continue;
      }
      var doc := inputs[path];
      requests := requests + [Request(RequestKey(c, idx), Prompt(c, instruction, doc))];
    }
    assert indices[..|indices|] == indices;
  }

  /** Exactly the indices with an existing input are kept, in order, and every request is the
      one built from its index's input; every other index is reported missing instead. */
  lemma {:induction false} RequestsFromPresent(c: Config, instruction: string, indices: seq<nat>,
                                               inputs: map<string, string>)
    ensures var p := PresentIndices(c, indices, inputs);
            var r := Requests(c, instruction, indices, inputs);
            (forall i :: i in p <==> i in indices && InputPath(c, Idx(i)) in inputs)
            && |r| == |p|
            && (forall k :: 0 <= k < |p| ==>
                  InputPath(c, Idx(p[k])) in inputs
                  && r[k] == Request(RequestKey(c, Idx(p[k])), Prompt(c, instruction, inputs[InputPath(c, Idx(p[k]))])))
            && |r| + |Missing(c, indices, inputs)| == |indices|
    decreases |indices|
  {
    if indices != [] {
      var init := indices[..|indices| - 1];
      RequestsFromPresent(c, instruction, init, inputs);
      assert indices == init + [indices[|indices| - 1]];
    }
  }

  predicate StrictlyIncreasing(xs: seq<nat>) {
    forall a, b :: 0 <= a < b < |xs| ==> xs[a] < xs[b]
  }

  lemma {:induction false} PresentIncreasing(c: Config, indices: seq<nat>, inputs: map<string, string>)
    requires StrictlyIncreasing(indices)
    ensures StrictlyIncreasing(PresentIndices(c, indices, inputs))
    decreases |indices|
  {
    if indices != [] {
      var init := indices[..|indices| - 1];
      PresentIncreasing(c, init, inputs);
      RequestsFromPresent(c, "", init, inputs);
    }
  }

  /** Different indices give different request keys. */
  lemma RequestKeyInjective(c: Config, i: nat, j: nat)
    requires RequestKey(c, Idx(i)) == RequestKey(c, Idx(j))
    ensures i == j
  {
    var n := |c.keyPrefix|;
    assert Idx(i) == RequestKey(c, Idx(i))[n..];
    assert Idx(j) == RequestKey(c, Idx(j))[n..];
    Keys.KeyInjective(i, j);
  }

  /** Over increasing indices the request keys follow the index order and are pairwise distinct. */
  lemma RequestKeysUnique(c: Config, instruction: string, indices: seq<nat>, inputs: map<string, string>)
    requires StrictlyIncreasing(indices)
    ensures var r := Requests(c, instruction, indices, inputs);
            forall a, b :: 0 <= a < b < |r| ==> r[a].key != r[b].key
  {
    var p := PresentIndices(c, indices, inputs);
    var r := Requests(c, instruction, indices, inputs);
    RequestsFromPresent(c, instruction, indices, inputs);
    PresentIncreasing(c, indices, inputs);
    forall a, b | 0 <= a < b < |r|
      ensures r[a].key != r[b].key
    {
      if r[a].key == r[b].key {
        RequestKeyInjective(c, p[a], p[b]);
      }
    }
  }

  /** `range(1, n + 1)`. */
  function Upto(n: nat): (r: seq<nat>)
    ensures |r| == n && forall k :: 0 <= k < n ==> r[k] == k + 1
    ensures StrictlyIncreasing(r)
  {
    if n == 0 then [] else Upto(n - 1) + [n]
  }

  lemma UptoMembers(n: nat)
    ensures forall i :: i in Upto(n) <==> 1 <= i <= n
  {
    forall i | 1 <= i <= n ensures i in Upto(n) {
      assert Upto(n)[i - 1] == i;
    }
  }

  /** The indices from 1 to `n` whose input file exists. */
  function PresentUpto(c: Config, n: nat, inputs: map<string, string>): set<nat> {
    set i: nat | 1 <= i <= n && InputPath(c, Idx(i)) in inputs
  }

  lemma RequestsUptoStep(c: Config, instruction: string, n: nat, inputs: map<string, string>)
    requires n > 0
    ensures |Requests(c, instruction, Upto(n), inputs)|
            == |Requests(c, instruction, Upto(n - 1), inputs)| + if InputPath(c, Idx(n)) in inputs then 1 else 0
  {
    assert Upto(n)[..n - 1] == Upto(n - 1);
  }

  lemma PresentUptoStep(c: Config, n: nat, inputs: map<string, string>)
    requires n > 0
    ensures |PresentUpto(c, n, inputs)| == |PresentUpto(c, n - 1, inputs)| + if InputPath(c, Idx(n)) in inputs then 1 else 0
  {
    var s0 := PresentUpto(c, n - 1, inputs);
    assert n !in s0;
    if InputPath(c, Idx(n)) in inputs {
      assert PresentUpto(c, n, inputs) == s0 + {n};
    } else {
      assert PresentUpto(c, n, inputs) == s0;
    }
  }

  /** Over indices 1 to `n`, the number of requests is the number of existing inputs. */
  lemma {:induction false} RequestCount(c: Config, instruction: string, n: nat, inputs: map<string, string>)
    ensures |Requests(c, instruction, Upto(n), inputs)| == |PresentUpto(c, n, inputs)|
    decreases n
  {
    if n > 0 {
      RequestCount(c, instruction, n - 1, inputs);
      RequestsUptoStep(c, instruction, n, inputs);
      PresentUptoStep(c, n, inputs);
    }
  }

  // ---------------------------------------------------------------------------
  // 4) Polling the job

  const SucceededState: string := "JOB_STATE_SUCCEEDED"
  const FailureStates: set<string> := {"JOB_STATE_FAILED", "JOB_STATE_CANCELLED", "JOB_STATE_EXPIRED"}

  predicate Terminal(state: string) {
    state == SucceededState || state in FailureStates
  }

  /** How the poll loop ends over a finite sequence of observed states: it leaves the loop
      after `polls` calls, raises with a message, or is still polling when the states run out. */
  datatype PollOutcome = Done(polls: nat) | Raised(message: string) | StillPolling

  /** The position of the first terminal state. */
  function FirstTerminal(observed: seq<string>): (r: Option<nat>)
    ensures r.Some? ==> r.value < |observed| && Terminal(observed[r.value])
                        && forall j :: 0 <= j < r.value ==> !Terminal(observed[j])
    ensures r.None? ==> forall j :: 0 <= j < |observed| ==> !Terminal(observed[j])
    decreases |observed|
  {
    if observed == [] then None
    else if Terminal(observed[0]) then Some(0)
    else match FirstTerminal(observed[1..])
      case None => None
      case Some(j) => Some(j + 1)
  }

  function PollResult(observed: seq<string>): (r: PollOutcome)
    ensures r.StillPolling? <==> forall j :: 0 <= j < |observed| ==> !Terminal(observed[j])
    ensures r.Done? ==> 1 <= r.polls <= |observed| && observed[r.polls - 1] == SucceededState
                        && forall j :: 0 <= j < r.polls - 1 ==> !Terminal(observed[j])
    ensures r.Raised? ==>
              exists k :: 0 <= k < |observed| && observed[k] in FailureStates
                          && (forall j :: 0 <= j < k ==> !Terminal(observed[j]))
                          && r.message == "Batch ended unsuccessfully: " + observed[k]
  {
    match FirstTerminal(observed)
    case None => StillPolling
    case Some(k) =>
      if observed[k] == SucceededState then Done(k + 1)
      else Raised("Batch ended unsuccessfully: " + observed[k])
  }

  /** The `while True` poll loop, one observed state per iteration. */
  method Poll(observed: seq<string>) returns (outcome: PollOutcome)
    ensures outcome == PollResult(observed)
  {
    var n := 0;
    while n < |observed|
      invariant 0 <= n <= |observed|
      invariant forall j :: 0 <= j < n ==> !Terminal(observed[j])
    {
      var state := observed[n];
      if state == SucceededState {
        return Done(n + 1);
      }
      if state in FailureStates {
        return Raised("Batch ended unsuccessfully: " + state);
      }
      n := n + 1;
    }
    return StillPolling;
  }

  /** Once the loop has left or raised, later states are never looked at. */
  lemma {:induction false} PollStopsAtTerminal(observed: seq<string>, later: seq<string>)
    requires !PollResult(observed).StillPolling?
    ensures PollResult(observed + later) == PollResult(observed)
  {
    var k := FirstTerminal(observed).value;
    var all := observed + later;
    assert forall j :: 0 <= j <= k ==> all[j] == observed[j];
    assert FirstTerminal(all) == Some(k);
  }

  lemma {:induction false} FirstTerminalAfterWaiting(waiting: seq<string>, observed: seq<string>)
    requires forall j :: 0 <= j < |waiting| ==> !Terminal(waiting[j])
    ensures FirstTerminal(waiting + observed)
            == match FirstTerminal(observed)
               case None => None
               case Some(k) => Some(|waiting| + k)
    decreases |waiting|
  {
    if waiting == [] {
      assert waiting + observed == observed;
    } else {
      assert (waiting + observed)[0] == waiting[0];
      assert (waiting + observed)[1..] == waiting[1..] + observed;
      FirstTerminalAfterWaiting(waiting[1..], observed);
    }
  }

  /** Non-terminal states in front of the observed ones only add polls. */
  lemma PollWaitsOnNonTerminal(waiting: seq<string>, observed: seq<string>)
    requires forall j :: 0 <= j < |waiting| ==> !Terminal(waiting[j])
    ensures PollResult(waiting + observed)
            == match PollResult(observed)
               case Done(p) => Done(|waiting| + p)
               case Raised(m) => Raised(m)
               case StillPolling => StillPolling
  {
    FirstTerminalAfterWaiting(waiting, observed);
    match FirstTerminal(observed)
    case None =>
    case Some(k) =>
      assert (waiting + observed)[|waiting| + k] == observed[k];
  }

  // ---------------------------------------------------------------------------
  // 6) Extracting the text of one result record

  const Malformed: string := "result record does not have the expected shape"

  /** `resp["candidates"][0]["content"]["parts"]`, or None when one of the subscripts raises. */
  function PartsOf(resp: Value): Option<Value> {
    if resp.Obj? && "candidates" in resp.fields then
      var cands := resp.fields["candidates"];
      if cands.Arr? && |cands.items| > 0 && cands.items[0].Obj? && "content" in cands.items[0].fields then
        var content := cands.items[0].fields["content"];
        if content.Obj? && "parts" in content.fields then Some(content.fields["parts"]) else None
      else None
    else None
  }

  /** `[p.get("text", "") for p in items if p.get("text")]` with the type check `"".join` makes:
      an error when a part has no `get` or a kept text is not a string. */
  function PartTexts(items: seq<Value>): (r: Result<seq<string>>)
    ensures r.Ok? ==> forall k :: 0 <= k < |r.value| ==> r.value[k] != []
    decreases |items|
  {
    if items == [] then Ok([])
    else
      match PartTexts(items[..|items| - 1])
      case Err(e) => Err(e)
      case Ok(ts) =>
        var p := items[|items| - 1];
        if !p.Obj? then Err(Malformed)
        else
          var t := Get(p.fields, "text");
          if !Truthy(t) then Ok(ts)
          else if t.Str? then Ok(ts + [t.s])
          else Err(Malformed)
  }

  /** The texts of `parts` as the comprehension iterates it: a list element-wise, an empty
      dict or string as nothing, anything else raises. */
  function TextsOf(parts: Value): Result<seq<string>> {
    match parts
    case Arr(items) => PartTexts(items)
    case Obj(f) => if f == map[] then Ok([]) else Err(Malformed)
    case Str(s) => if s == [] then Ok([]) else Err(Malformed)
    case _ => Err(Malformed)
  }

  /** `"".join(texts)`. */
  function Concat(texts: seq<string>): string
    decreases |texts|
  {
    if texts == [] then [] else Concat(texts[..|texts| - 1]) + texts[|texts| - 1]
  }

  /** `_extract_text(obj)`: Ok(None) for an error record, a missing or falsy response, or no
      non-empty text part; Ok(Some(t)) with the stripped concatenation otherwise; Err when the
      record's shape makes the script raise. */
  function ExtractText(obj: map<string, Value>): (r: Result<Option<string>>)
    ensures "error" in obj ==> r == Ok(None)
    ensures "error" !in obj && !Truthy(Get(obj, "response")) ==> r == Ok(None)
    ensures "error" !in obj && Truthy(Get(obj, "response")) && PartsOf(Get(obj, "response")).None? ==> r.Err?
    ensures r.Ok? && r.value.Some? ==> Text.IsTrimmed(r.value.value, Text.IsPySpace)
  {
    if "error" in obj then Ok(None)
    else
      var resp := Get(obj, "response");
      if !Truthy(resp) then Ok(None)
      else
        match PartsOf(resp)
        case None => Err(Malformed)
        case Some(parts) =>
          match TextsOf(parts)
          case Err(e) => Err(e)
          case Ok(ts) => if ts == [] then Ok(None) else Ok(Some(Text.PyStrip(Concat(ts))))
  }

  /** A part `{"text": t}`. */
  function TextPart(t: string): Value {
    Obj(map["text" := Str(t)])
  }

  function TextParts(texts: seq<string>): (r: seq<Value>)
    ensures |r| == |texts|
    decreases |texts|
  {
    if texts == [] then [] else TextParts(texts[..|texts| - 1]) + [TextPart(texts[|texts| - 1])]
  }

  /** A successful result line: `{"key": key, "response": {"candidates": [{"content": {"parts": [...]}}]}}`. */
  function ResultRecord(key: string, texts: seq<string>): map<string, Value> {
    map["key" := Str(key),
        "response" := Obj(map["candidates" := Arr([Obj(map["content" := Obj(map["parts" := Arr(TextParts(texts))])])])])]
  }

  /** A failed result line: `{"key": key, "error": err}`. */
  function ErrorRecord(key: string, err: Value): map<string, Value> {
    map["key" := Str(key), "error" := err]
  }

  /** The non-empty texts, in order. */
  function NonEmpty(texts: seq<string>): seq<string>
    decreases |texts|
  {
    if texts == [] then []
    else NonEmpty(texts[..|texts| - 1]) + (if texts[|texts| - 1] != [] then [texts[|texts| - 1]] else [])
  }

  lemma {:induction false} PartTextsOfTextParts(texts: seq<string>)
    ensures PartTexts(TextParts(texts)) == Ok(NonEmpty(texts))
    decreases |texts|
  {
    if texts != [] {
      var init := texts[..|texts| - 1];
      PartTextsOfTextParts(init);
      var last := texts[|texts| - 1];
      var ps := TextParts(texts);
      assert ps[..|ps| - 1] == TextParts(init);
      assert ps[|ps| - 1] == TextPart(last);
      assert Get(TextPart(last).fields, "text") == Str(last);
      if last != [] {
        assert PartTexts(ps) == Ok(NonEmpty(init) + [last]);
        assert NonEmpty(texts) == NonEmpty(init) + [last];
      } else {
        assert PartTexts(ps) == Ok(NonEmpty(init));
        assert NonEmpty(texts) == NonEmpty(init) + [];
        assert NonEmpty(init) + [] == NonEmpty(init);
      }
    }
  }

  /** A part the comprehension accepts: a dict whose `text` is falsy or a string. */
  predicate WellTypedPart(p: Value) {
    p.Obj? && (!Truthy(Get(p.fields, "text")) || Get(p.fields, "text").Str?)
  }

  predicate WellTypedParts(items: seq<Value>) {
    forall k :: 0 <= k < |items| ==> WellTypedPart(items[k])
  }

  /** The text a part contributes to the join: its `text` string, or nothing. */
  function PartString(p: Value): string {
    if p.Obj? && Get(p.fields, "text").Str? then Get(p.fields, "text").s else []
  }

  function PartStrings(items: seq<Value>): (r: seq<string>)
    ensures |r| == |items|
    decreases |items|
  {
    if items == [] then [] else PartStrings(items[..|items| - 1]) + [PartString(items[|items| - 1])]
  }

  /** The comprehension succeeds exactly on well-typed parts, and then keeps the non-empty
      texts of the parts in order, whatever else each part holds. */
  lemma {:induction false} PartTextsOfParts(items: seq<Value>)
    ensures PartTexts(items).Ok? <==> WellTypedParts(items)
    ensures WellTypedParts(items) ==> PartTexts(items) == Ok(NonEmpty(PartStrings(items)))
    decreases |items|
  {
    if items != [] {
      var init := items[..|items| - 1];
      var p := items[|items| - 1];
      PartTextsOfParts(init);
      assert forall k :: 0 <= k < |init| ==> init[k] == items[k];
      assert WellTypedParts(items) <==> WellTypedParts(init) && WellTypedPart(p);
      assert PartStrings(items) == PartStrings(init) + [PartString(p)];
      if WellTypedParts(items) {
        var t := Get(p.fields, "text");
        if Truthy(t) {
          assert PartString(p) == t.s != [];
          assert NonEmpty(PartStrings(items)) == NonEmpty(PartStrings(init)) + [t.s];
        } else {
          assert PartString(p) == [];
          assert NonEmpty(PartStrings(items)) == NonEmpty(PartStrings(init)) + [];
          assert NonEmpty(PartStrings(init)) + [] == NonEmpty(PartStrings(init));
        }
      }
    }
  }

  /** On any record without `error` whose `candidates[0].content.parts` is a list of
      well-typed parts, extraction is the stripped concatenation of the non-empty part
      texts, or None when there is none. */
  lemma ExtractFromParts(obj: map<string, Value>, items: seq<Value>)
    requires "error" !in obj
    requires PartsOf(Get(obj, "response")) == Some(Arr(items))
    requires WellTypedParts(items)
    ensures var ts := NonEmpty(PartStrings(items));
            ExtractText(obj) == Ok(if ts == [] then None else Some(Text.PyStrip(Concat(ts))))
  {
    var resp := Get(obj, "response");
    assert "candidates" in resp.fields;
    assert Truthy(resp);
    PartTextsOfParts(items);
  }

  /** A list of parts with one that is not a dict, or whose truthy `text` is not a string,
      makes extraction raise. */
  lemma ExtractFromMalformedParts(obj: map<string, Value>, items: seq<Value>)
    requires "error" !in obj
    requires PartsOf(Get(obj, "response")) == Some(Arr(items))
    requires !WellTypedParts(items)
    ensures ExtractText(obj).Err?
  {
    var resp := Get(obj, "response");
    assert "candidates" in resp.fields;
    assert Truthy(resp);
    PartTextsOfParts(items);
  }

  /** Text parts are well typed and contribute exactly their texts. */
  lemma {:induction false} TextPartsWellTyped(texts: seq<string>)
    ensures WellTypedParts(TextParts(texts))
    ensures PartStrings(TextParts(texts)) == texts
    decreases |texts|
  {
    if texts != [] {
      var init := texts[..|texts| - 1];
      TextPartsWellTyped(init);
      var ps := TextParts(texts);
      assert ps[..|ps| - 1] == TextParts(init);
      assert Get(ps[|ps| - 1].fields, "text") == Str(texts[|texts| - 1]);
      assert forall k :: 0 <= k < |ps| - 1 ==> ps[k] == TextParts(init)[k];
      assert PartStrings(ps) == texts;
    }
  }

  /** On a well-formed result record, extraction is the stripped concatenation of the
      non-empty texts, or None when there is none. */
  lemma ExtractFromResult(key: string, texts: seq<string>)
    ensures ExtractText(ResultRecord(key, texts))
            == Ok(if NonEmpty(texts) == [] then None else Some(Text.PyStrip(Concat(NonEmpty(texts)))))
  {
    var obj := ResultRecord(key, texts);
    assert PartsOf(Get(obj, "response")) == Some(Arr(TextParts(texts)));
    TextPartsWellTyped(texts);
    ExtractFromParts(obj, TextParts(texts));
  }

  /** An error record yields no text, whatever else it holds. */
  lemma ExtractFromError(key: string, err: Value)
    ensures ExtractText(ErrorRecord(key, err)) == Ok(None)
  {
  }

  /** A single trimmed non-empty text comes back unchanged. */
  lemma ExtractSingleText(key: string, t: string)
    requires t != [] && Text.IsTrimmed(t, Text.IsPySpace)
    ensures ExtractText(ResultRecord(key, [t])) == Ok(Some(t))
  {
    ExtractFromResult(key, [t]);
    assert [t][..0] == [];
    assert NonEmpty([t]) == [t];
    assert Concat([t]) == t;
    Text.StripTrimmed(t, Text.IsPySpace);
  }

  predicate AllPySpace(s: string) {
    forall k :: 0 <= k < |s| ==> Text.IsPySpace(s[k])
  }

  lemma {:induction false} ConcatAllSpace(texts: seq<string>)
    requires forall k :: 0 <= k < |texts| ==> AllPySpace(texts[k])
    ensures AllPySpace(Concat(texts))
    decreases |texts|
  {
    if texts != [] {
      ConcatAllSpace(texts[..|texts| - 1]);
    }
  }

  lemma {:induction false} NonEmptyAllSpace(texts: seq<string>)
    requires forall k :: 0 <= k < |texts| ==> AllPySpace(texts[k])
    ensures forall k :: 0 <= k < |NonEmpty(texts)| ==> AllPySpace(NonEmpty(texts)[k])
    decreases |texts|
  {
    if texts != [] {
      NonEmptyAllSpace(texts[..|texts| - 1]);
    }
  }

  /** Texts made only of whitespace yield the empty string, not None, so an empty file is written. */
  lemma ExtractWhitespaceOnly(key: string, texts: seq<string>)
    requires NonEmpty(texts) != []
    requires forall k :: 0 <= k < |texts| ==> AllPySpace(texts[k])
    ensures ExtractText(ResultRecord(key, texts)) == Ok(Some([]))
  {
    ExtractFromResult(key, texts);
    NonEmptyAllSpace(texts);
    ConcatAllSpace(NonEmpty(texts));
    Text.StripAllSpace(Concat(NonEmpty(texts)), Text.IsPySpace);
  }

  // ---------------------------------------------------------------------------
  // 6) Demultiplexing the results file

  /** The output files, the indices whose output file was written (in order), the `written`
      counter, and whether an uncaught exception ended the loop. */
  datatype DemuxState = DemuxState(outputs: map<string, string>, writes: seq<string>, written: nat, aborted: bool)

  /** The output paths of the written indices. */
  function WrittenPaths(c: Config, idxs: seq<string>): (r: seq<string>)
    ensures |r| == |idxs| && forall k :: 0 <= k < |idxs| ==> r[k] == OutputPath(c, idxs[k])
    decreases |idxs|
  {
    if idxs == [] then [] else WrittenPaths(c, idxs[..|idxs| - 1]) + [OutputPath(c, idxs[|idxs| - 1])]
  }

  /** `obj.get("key", "")` as `.startswith` then sees it: Err when the value is not a string. */
  function KeyOf(obj: map<string, Value>): (r: Result<string>)
    ensures "key" !in obj ==> r == Ok([])
    ensures "key" in obj ==> (r.Ok? <==> obj["key"].Str?)
    ensures "key" in obj && r.Ok? ==> obj["key"] == Str(r.value)
  {
    if "key" !in obj then Ok([])
    else match obj["key"]
      case Str(s) => Ok(s)
      case _ => Err(Malformed)
  }

  /** Writing `text` to the output file of `idx` and counting it. */
  function WriteOutput(c: Config, st: DemuxState, idx: string, text: string): (r: DemuxState)
    ensures r.outputs.Keys == st.outputs.Keys + {OutputPath(c, idx)} && r.outputs[OutputPath(c, idx)] == text
    ensures forall p :: p in st.outputs && p != OutputPath(c, idx) ==> r.outputs[p] == st.outputs[p]
    ensures r.writes == st.writes + [idx] && r.written == st.written + 1 && r.aborted == st.aborted
  {
    st.(outputs := st.outputs[OutputPath(c, idx) := text], writes := st.writes + [idx], written := st.written + 1)
  }

  /** The body of the results loop for a line that decoded to a JSON object. */
  function DemuxRecord(c: Config, st: DemuxState, obj: map<string, Value>): DemuxState
  {
    match KeyOf(obj)
    case Err(_) => st.(aborted := true)
    case Ok(key) =>
      if !Text.StartsWith(key, c.keyPrefix) then st
      else
        match ExtractText(obj)
        case Err(_) => st.(aborted := true)
        case Ok(None) => st
        case Ok(Some(text)) => WriteOutput(c, st, Text.LastPiece(key, '_'), text)
  }

  /** The body of the results loop for one line; `parse` is `json.loads`, None when it raises. */
  function DemuxLine(c: Config, st: DemuxState, line: string, parse: string -> Option<Value>): DemuxState
  {
    if Text.PyStrip(line) == [] then st
    else
      match parse(line)
      case None => st.(aborted := true)
      case Some(v) => if v.Obj? then DemuxRecord(c, st, v.fields) else st.(aborted := true)
  }

  /** A record either leaves the state unchanged, aborts the loop, or writes exactly one output. */
  lemma DemuxRecordOutcome(c: Config, st: DemuxState, obj: map<string, Value>)
    ensures var r := DemuxRecord(c, st, obj);
            r == st || r == st.(aborted := true) || exists idx, text :: r == WriteOutput(c, st, idx, text)
  {
    var r := DemuxRecord(c, st, obj);
    if KeyOf(obj).Ok? && Text.StartsWith(KeyOf(obj).value, c.keyPrefix) {
      var e := ExtractText(obj);
      if e.Ok? && e.value.Some? {
        assert r == WriteOutput(c, st, Text.LastPiece(KeyOf(obj).value, '_'), e.value.value);
      }
    }
  }

  /** One line either leaves the state unchanged, aborts the loop, or writes exactly one output. */
  lemma DemuxLineOutcome(c: Config, st: DemuxState, line: string, parse: string -> Option<Value>)
    ensures var r := DemuxLine(c, st, line, parse);
            r == st || r == st.(aborted := true) || exists idx, text :: r == WriteOutput(c, st, idx, text)
  {
    if Text.PyStrip(line) != [] && parse(line).Some? && parse(line).value.Obj? {
      DemuxRecordOutcome(c, st, parse(line).value.fields);
    }
  }

  /** The loop over `lines` from state `st`; once aborted, no later line is looked at. */
  function DemuxFrom(c: Config, st: DemuxState, lines: seq<string>, parse: string -> Option<Value>): DemuxState
    decreases |lines|
  {
    if lines == [] || st.aborted then st
    else DemuxFrom(c, DemuxLine(c, st, lines[0], parse), lines[1..], parse)
  }

  /** The loop over all lines, starting from the existing output files and `written = 0`. */
  function DemuxLines(c: Config, outputs0: map<string, string>, lines: seq<string>,
                      parse: string -> Option<Value>): DemuxState
  {
    DemuxFrom(c, DemuxState(outputs0, [], 0, false), lines, parse)
  }

  /** One pass of the results loop: skip a blank line, decode it, check the key prefix,
      extract the text and write it; `aborted` is set where the body raises. */
  method DemuxStep(c: Config, outputs0: map<string, string>, writes0: seq<string>, written0: nat,
                   line: string, parse: string -> Option<Value>)
    returns (outputs: map<string, string>, writes: seq<string>, written: nat, aborted: bool)
    ensures DemuxState(outputs, writes, written, aborted)
            == DemuxLine(c, DemuxState(outputs0, writes0, written0, false), line, parse)
  {
    outputs, writes, written, aborted := outputs0, writes0, written0, false;
    if Text.PyStrip(line) == [] {
      return;
    }
    var parsed := parse(line);
    if parsed.None? || !parsed.value.Obj? {
      aborted := true;
      return;
    }
    var obj := parsed.value.fields;
    assert DemuxLine(c, DemuxState(outputs0, writes0, written0, false), line, parse)
        == DemuxRecord(c, DemuxState(outputs0, writes0, written0, false), obj);
    var key := KeyOf(obj);
    if key.Err? {
      aborted := true;
      return;
    }
    if !Text.StartsWith(key.value, c.keyPrefix) {
      return;
    }
    var idx := Text.LastPiece(key.value, '_');
    var text := ExtractText(obj);
    if text.Err? {
      aborted := true;
      return;
    }
    if text.value.None? {
      return;
    }
    var path := OutputPath(c, idx);
    outputs := outputs[path := text.value.value];
    writes := writes + [idx];
    written := written + 1;
  }

  /** The results loop, writing one file per record with text and counting the writes. */
  method Demux(c: Config, outputs0: map<string, string>, lines: seq<string>, parse: string -> Option<Value>)
    returns (outputs: map<string, string>, writes: seq<string>, written: nat, aborted: bool)
    ensures DemuxState(outputs, writes, written, aborted) == DemuxLines(c, outputs0, lines, parse)
  {
    outputs, writes, written, aborted := outputs0, [], 0, false;
    var n := 0;
    while n < |lines| && !aborted
      invariant 0 <= n <= |lines|
      invariant DemuxFrom(c, DemuxState(outputs, writes, written, aborted), lines[n..], parse)
                == DemuxLines(c, outputs0, lines, parse)
    {
      DemuxFromNext(c, DemuxState(outputs, writes, written, aborted), lines, n, parse);
      outputs, writes, written, aborted := DemuxStep(c, outputs, writes, written, lines[n], parse);
      n := n + 1;
    }
    DemuxFromDone(c, DemuxState(outputs, writes, written, aborted), lines[n..], parse);
  }

  lemma {:induction false} DemuxFromNext(c: Config, st: DemuxState, lines: seq<string>, n: nat,
                                         parse: string -> Option<Value>)
    requires n < |lines| && !st.aborted
    ensures DemuxFrom(c, st, lines[n..], parse) == DemuxFrom(c, DemuxLine(c, st, lines[n], parse), lines[n + 1..], parse)
  {
    assert lines[n..][0] == lines[n];
    assert lines[n..][1..] == lines[n + 1..];
  }

  lemma {:induction false} DemuxFromDone(c: Config, st: DemuxState, lines: seq<string>, parse: string -> Option<Value>)
    requires lines == [] || st.aborted
    ensures DemuxFrom(c, st, lines, parse) == st
  {
  }

  /** Running the loop over `a + b` is running it over `a`, then over `b` from where it stopped. */
  lemma {:induction false} DemuxFromAppend(c: Config, st: DemuxState, a: seq<string>, b: seq<string>,
                                           parse: string -> Option<Value>)
    ensures DemuxFrom(c, st, a + b, parse) == DemuxFrom(c, DemuxFrom(c, st, a, parse), b, parse)
    decreases |a|
  {
    if a == [] {
      assert a + b == b;
    } else if !st.aborted {
      assert (a + b)[1..] == a[1..] + b;
      DemuxFromAppend(c, DemuxLine(c, st, a[0], parse), a[1..], b, parse);
    }
  }

  /** An aborted loop stays aborted: the lines after the failing one change nothing. */
  lemma {:induction false} DemuxAbortedPrefix(c: Config, st: DemuxState, a: seq<string>, b: seq<string>,
                                              parse: string -> Option<Value>)
    requires DemuxFrom(c, st, a, parse).aborted
    ensures DemuxFrom(c, st, a + b, parse) == DemuxFrom(c, st, a, parse)
  {
    DemuxFromAppend(c, st, a, b, parse);
    DemuxFromDone(c, DemuxFrom(c, st, a, parse), b, parse);
  }

  /** The counter counts the writes, the files present are the initial ones plus those written,
      and a file not written keeps its content. */
  predicate Bookkept(c: Config, outputs0: map<string, string>, st: DemuxState) {
    var paths := WrittenPaths(c, st.writes);
    st.written == |st.writes|
    && st.outputs.Keys == outputs0.Keys + (set k | 0 <= k < |paths| :: paths[k])
    && (forall p :: p in outputs0 && p !in paths ==> st.outputs[p] == outputs0[p])
  }

  lemma WriteOutputBookkept(c: Config, outputs0: map<string, string>, st: DemuxState, idx: string, text: string)
    requires Bookkept(c, outputs0, st)
    ensures Bookkept(c, outputs0, WriteOutput(c, st, idx, text))
  {
    var r := WriteOutput(c, st, idx, text);
    var ps := WrittenPaths(c, st.writes);
    var p := OutputPath(c, idx);
    assert r.writes[..|st.writes|] == st.writes;
    assert WrittenPaths(c, r.writes) == ps + [p];
    assert (set k | 0 <= k < |ps| + 1 :: (ps + [p])[k]) == (set k | 0 <= k < |ps| :: ps[k]) + {p};
  }

  lemma DemuxLineBookkept(c: Config, outputs0: map<string, string>, st: DemuxState, line: string,
                          parse: string -> Option<Value>)
    requires Bookkept(c, outputs0, st)
    ensures Bookkept(c, outputs0, DemuxLine(c, st, line, parse))
  {
    var r := DemuxLine(c, st, line, parse);
    DemuxLineOutcome(c, st, line, parse);
    if r == st {
    } else if r == st.(aborted := true) {
    } else {
      var idx, text :| r == WriteOutput(c, st, idx, text);
      WriteOutputBookkept(c, outputs0, st, idx, text);
    }
  }

  lemma {:induction false} DemuxFromBookkept(c: Config, outputs0: map<string, string>, st: DemuxState,
                                             lines: seq<string>, parse: string -> Option<Value>)
    requires Bookkept(c, outputs0, st)
    ensures Bookkept(c, outputs0, DemuxFrom(c, st, lines, parse))
    decreases |lines|
  {
    if lines != [] && !st.aborted {
      DemuxLineBookkept(c, outputs0, st, lines[0], parse);
      DemuxFromBookkept(c, outputs0, DemuxLine(c, st, lines[0], parse), lines[1..], parse);
    }
  }

  lemma DemuxBookkeeping(c: Config, outputs0: map<string, string>, lines: seq<string>,
                         parse: string -> Option<Value>)
    ensures Bookkept(c, outputs0, DemuxLines(c, outputs0, lines, parse))
  {
    DemuxFromBookkept(c, outputs0, DemuxState(outputs0, [], 0, false), lines, parse);
  }

  /** Blank lines are skipped. */
  lemma BlankLineSkipped(c: Config, st: DemuxState, line: string, parse: string -> Option<Value>)
    requires forall k :: 0 <= k < |line| ==> Text.IsPySpace(line[k])
    ensures DemuxLine(c, st, line, parse) == st
  {
    Text.StripAllSpace(line, Text.IsPySpace);
  }

  /** A line that is not JSON, or not a JSON object, raises and ends the loop; nothing is written. */
  lemma BadLineAborts(c: Config, st: DemuxState, line: string, parse: string -> Option<Value>)
    requires Text.PyStrip(line) != []
    requires parse(line).None? || !parse(line).value.Obj?
    ensures DemuxLine(c, st, line, parse) == st.(aborted := true)
  {
  }

  /** Any object record whose key lacks the script's prefix is ignored, whatever else it holds. */
  lemma ForeignKeyIgnored(c: Config, st: DemuxState, line: string, parse: string -> Option<Value>,
                          obj: map<string, Value>, key: string)
    requires Text.PyStrip(line) != []
    requires parse(line) == Some(Obj(obj))
    requires KeyOf(obj) == Ok(key) && !Text.StartsWith(key, c.keyPrefix)
    ensures DemuxLine(c, st, line, parse) == st
  {
  }

  /** A record with no "key" reads as the empty key, which lacks any non-empty prefix. */
  lemma MissingKeyIgnored(c: Config, st: DemuxState, line: string, parse: string -> Option<Value>,
                          obj: map<string, Value>)
    requires |c.keyPrefix| >= 1
    requires Text.PyStrip(line) != []
    requires parse(line) == Some(Obj(obj)) && "key" !in obj
    ensures DemuxLine(c, st, line, parse) == st
  {
    assert KeyOf(obj) == Ok([]);
    ForeignKeyIgnored(c, st, line, parse, obj, []);
  }

  /** A prefixed record from which no text is extracted (an error record, a falsy response,
      an answer without parts) writes no file and does not stop the loop. */
  lemma NoTextIgnored(c: Config, st: DemuxState, line: string, parse: string -> Option<Value>,
                      obj: map<string, Value>, key: string)
    requires Text.PyStrip(line) != []
    requires parse(line) == Some(Obj(obj))
    requires KeyOf(obj) == Ok(key) && Text.StartsWith(key, c.keyPrefix)
    requires ExtractText(obj) == Ok(None)
    ensures DemuxLine(c, st, line, parse) == st
  {
  }

  /** Any error record with a readable key writes no file and does not stop the loop. */
  lemma ErrorRecordIgnored(c: Config, st: DemuxState, line: string, parse: string -> Option<Value>,
                           obj: map<string, Value>)
    requires Text.PyStrip(line) != []
    requires parse(line) == Some(Obj(obj))
    requires "error" in obj && KeyOf(obj).Ok?
    ensures DemuxLine(c, st, line, parse) == st
  {
    var key := KeyOf(obj).value;
    if Text.StartsWith(key, c.keyPrefix) {
      NoTextIgnored(c, st, line, parse, obj, key);
    } else {
      ForeignKeyIgnored(c, st, line, parse, obj, key);
    }
  }

  /** Key round trip: the index the loop reads back from a request key is the index it was built with. */
  lemma RequestKeyIndex(c: Config, i: nat)
    requires |c.keyPrefix| >= 1 && c.keyPrefix[|c.keyPrefix| - 1] == '_'
    ensures Text.StartsWith(RequestKey(c, Idx(i)), c.keyPrefix)
    ensures Text.LastPiece(RequestKey(c, Idx(i)), '_') == Idx(i)
  {
    var key := RequestKey(c, Idx(i));
    var p := c.keyPrefix;
    assert key[..|p|] == p;
    assert forall k :: 0 <= k < |Idx(i)| ==> Idx(i)[k] != '_';
    assert key == p[..|p| - 1] + ['_'] + Idx(i);
    Text.LastPieceAfterSep(p[..|p| - 1], Idx(i), '_');
  }

  /** The answer to request `i` lands in output file `i`, holding the stripped join of its
      non-empty part texts, whatever else the record holds. */
  lemma ResultRecordWritten(c: Config, st: DemuxState, line: string, parse: string -> Option<Value>,
                            i: nat, obj: map<string, Value>, items: seq<Value>)
    requires |c.keyPrefix| >= 1 && c.keyPrefix[|c.keyPrefix| - 1] == '_'
    requires Text.PyStrip(line) != []
    requires parse(line) == Some(Obj(obj))
    requires KeyOf(obj) == Ok(RequestKey(c, Idx(i)))
    requires "error" !in obj
    requires PartsOf(Get(obj, "response")) == Some(Arr(items))
    requires WellTypedParts(items)
    requires NonEmpty(PartStrings(items)) != []
    ensures DemuxLine(c, st, line, parse)
            == WriteOutput(c, st, Idx(i), Text.PyStrip(Concat(NonEmpty(PartStrings(items)))))
  {
    RequestKeyIndex(c, i);
    ExtractFromParts(obj, items);
  }

  // ---------------------------------------------------------------------------
  // The whole script

  /** What one execution of a batch script leaves behind. */
  datatype BatchRun = BatchRun(requests: seq<Request>, missing: seq<string>, poll: PollOutcome, demux: DemuxState)

  /** A whole execution: build the requests, poll the job, and demultiplex the results only
      when the job succeeded; a raised poll or a job that never ends writes no output. */
  function BatchResult(c: Config, instruction: string, indices: seq<nat>, inputs: map<string, string>,
                       observed: seq<string>, resultLines: seq<string>, parse: string -> Option<Value>,
                       outputs0: map<string, string>): BatchRun
  {
    var poll := PollResult(observed);
    BatchRun(Requests(c, instruction, indices, inputs), Missing(c, indices, inputs), poll,
             if poll.Done? then DemuxLines(c, outputs0, resultLines, parse) else DemuxState(outputs0, [], 0, false))
  }

  method RunBatch(c: Config, instruction: string, indices: seq<nat>, inputs: map<string, string>,
                  observed: seq<string>, resultLines: seq<string>, parse: string -> Option<Value>,
                  outputs0: map<string, string>)
    returns (run: BatchRun)
    ensures run == BatchResult(c, instruction, indices, inputs, observed, resultLines, parse, outputs0)
    ensures !run.poll.Done? ==> run.demux.outputs == outputs0 && run.demux.written == 0
  {
    var requests, missing := BuildRequests(c, instruction, indices, inputs);
    var poll := Poll(observed);
    if !poll.Done? {
      return BatchRun(requests, missing, poll, DemuxState(outputs0, [], 0, false));
    }
    var outputs, writes, written, aborted := Demux(c, outputs0, resultLines, parse);
    return BatchRun(requests, missing, poll, DemuxState(outputs, writes, written, aborted));
  }
}
