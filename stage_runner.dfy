/** The resumable per-item driver of main_pipeline.py: every URL gets a key, passes through
    three ordered stages whose outputs are files, skips a stage whose file exists, and a
    failure in any stage ends that item only, with one entry appended to errors.log. */
module StageRunner {
  import opened Wrappers
  import Keys

  datatype Stage = Audio | RawTranscript | CleanTranscript

  /** The stages in the order the `try` block runs them. */
  const Stages: seq<Stage> := [Audio, RawTranscript, CleanTranscript]

  /** The item key `f"{i:02d}"` of the 1-based position `i`. */
  function Key(i: nat): string {
    Keys.PyKey(i)
  }

  function ArtifactName(s: Stage, key: string): string {
    match s
    case Audio => "audio_" + key + ".mp3"
    case RawTranscript => "transcript_raw_" + key + ".json"
    case CleanTranscript => "transcript_" + key + ".json"
  }

  /** `out / name`: where a stage of the item with this key writes its artifact. */
  function ArtifactPath(outDir: string, s: Stage, key: string): string {
    outDir + "/" + ArtifactName(s, key)
  }

  /** The file a stage writes for the item with a key. The artifact store of `out_dir` is
      modelled as the set of artifacts whose file exists; `ArtifactPathInjective` shows that
      distinct artifacts are distinct files, so testing an artifact for membership is testing
      its path for existence. */
  datatype Artifact = Artifact(stage: Stage, key: string)

  /** What an external stage action (download, speech recognition, cleaning) does when invoked. */
  datatype Outcome = Succeeded | Failed(detail: string)

  /** What the run does at one stage of one item: skips it, or invokes its action. */
  datatype Event = Skipped(key: string, stage: Stage) | Ran(key: string, stage: Stage, ok: bool)

  predicate Fails(e: Event) {
    e.Ran? && !e.ok
  }

  /** One entry of errors.log: the item key, its URL and the captured traceback. */
  datatype LogEntry = LogEntry(key: string, url: string, detail: string)

  /** The text the `except` block appends to errors.log for an entry. */
  function EntryText(e: LogEntry): string {
    "\n\n--- ERROR " + e.key + " ---\nURL: " + e.url + "\n" + e.detail
  }

  /** The contents of errors.log after the given entries were appended to `initial`. */
  function LogText(initial: string, log: seq<LogEntry>): string
    decreases |log|
  {
    if log == [] then initial else LogText(initial, log[..|log| - 1]) + EntryText(log[|log| - 1])
  }

  /** The three artifacts of one item. */
  function ItemArtifacts(key: string): set<Artifact> {
    {Artifact(Audio, key), Artifact(RawTranscript, key), Artifact(CleanTranscript, key)}
  }

  /** The artifacts that the successful actions among `events` created. */
  function Created(events: seq<Event>): set<Artifact>
    decreases |events|
  {
    if events == [] then {}
    else
      (if events[0].Ran? && events[0].ok then {Artifact(events[0].stage, events[0].key)} else {})
      + Created(events[1..])
  }

  /** The result of pushing one item through a list of stages. */
  datatype ItemRun = ItemRun(files: set<Artifact>, events: seq<Event>, failure: Option<string>)

  /** Reference semantics of the `try` block for item `i`: each stage in turn is skipped when
      its artifact exists, otherwise its action runs; the first failing action ends the item. */
  function RunStages(files: set<Artifact>, i: nat, stages: seq<Stage>,
                     act: (nat, Stage) -> Outcome): ItemRun
    decreases |stages|
  {
    if stages == [] then ItemRun(files, [], None)
    else
      var s, key := stages[0], Key(i);
      var p := Artifact(s, key);
      if p in files then
        var rest := RunStages(files, i, stages[1..], act);
        ItemRun(rest.files, [Skipped(key, s)] + rest.events, rest.failure)
      else
        match act(i, s)
        case Failed(d) => ItemRun(files, [Ran(key, s, false)], Some(d))
        case Succeeded =>
          var rest := RunStages(files + {p}, i, stages[1..], act);
          ItemRun(rest.files, [Ran(key, s, true)] + rest.events, rest.failure)
  }

  /** The artifact store, the error log and the trace of events of a run. */
  datatype RunState = RunState(files: set<Artifact>, log: seq<LogEntry>, trace: seq<Event>)

  /** One iteration of the `for` loop: the item's stages, then a log entry if it failed. */
  function Step(st: RunState, i: nat, url: string, act: (nat, Stage) -> Outcome): RunState {
    var r := RunStages(st.files, i, Stages, act);
    RunState(r.files,
             st.log + Entry(i, url, r),
             st.trace + r.events)
  }

  /** The state after the first `k` URLs were processed. */
  function RunPrefix(files: set<Artifact>, log: seq<LogEntry>, urls: seq<string>,
                     k: nat, act: (nat, Stage) -> Outcome): RunState
    requires k <= |urls|
    decreases k
  {
    if k == 0 then RunState(files, log, [])
    else Step(RunPrefix(files, log, urls, k - 1, act), k, urls[k - 1], act)
  }

  /** `r` with `events` run before it. */
  ghost function After(events: seq<Event>, r: ItemRun): ItemRun {
    ItemRun(r.files, events + r.events, r.failure)
  }

  lemma AfterOne(events: seq<Event>, e: Event, r: ItemRun)
    ensures After(events, ItemRun(r.files, [e] + r.events, r.failure)) == After(events + [e], r)
  {
    assert events + ([e] + r.events) == (events + [e]) + r.events;
  }

  /** One `if not path.exists(): action(...)` block of the `try` body: runs stage `s` unless its
      artifact exists. `later` are the stages after it, which it leaves to the caller. */
  method RunStage(files: set<Artifact>, i: nat, s: Stage, ghost later: seq<Stage>,
                  act: (nat, Stage) -> Outcome)
    returns (files': set<Artifact>, event: Event, failure: Option<string>)
    ensures failure.Some? ==> RunStages(files, i, [s] + later, act) == ItemRun(files', [event], failure)
    ensures failure.None? ==> RunStages(files, i, [s] + later, act)
                              == After([event], RunStages(files', i, later, act))
  {
    assert ([s] + later)[0] == s && ([s] + later)[1..] == later;
    var key := Key(i);
    var path := Artifact(s, key);
    if path !in files {
      match act(i, s)
      case Failed(d) =>
        return files, Ran(key, s, false), Some(d);
      case Succeeded =>
        return files + {path}, Ran(key, s, true), None;
    }
    return files, Skipped(key, s), None;
  }

  /** The body of the `try` block for the item at 1-based position `i`: download the audio,
      transcribe it, clean the transcript. */
  method ProcessItem(files: set<Artifact>, i: nat, act: (nat, Stage) -> Outcome)
    returns (files': set<Artifact>, events: seq<Event>, failure: Option<string>)
    ensures ItemRun(files', events, failure) == RunStages(files, i, Stages, act)
  {
    var e1, e2, e3: Event;
    var f1, f2: set<Artifact>;
    assert Stages == [Audio] + [RawTranscript, CleanTranscript];
    assert [RawTranscript, CleanTranscript] == [RawTranscript] + [CleanTranscript];
    assert [CleanTranscript] == [CleanTranscript] + [];

    f1, e1, failure := RunStage(files, i, Audio, [RawTranscript, CleanTranscript], act);
    if failure.Some? {
      return f1, [e1], failure;
    }
    f2, e2, failure := RunStage(f1, i, RawTranscript, [CleanTranscript], act);
    if failure.Some? {
      return f2, [e1, e2], failure;
    }
    files', e3, failure := RunStage(f2, i, CleanTranscript, [], act);
    events := [e1, e2, e3];
  }

  /** `run(urls, out_dir)`: every URL in order, each failure logged and the loop continued. */
  method Run(urls: seq<string>, files: set<Artifact>, log: seq<LogEntry>,
             act: (nat, Stage) -> Outcome)
    returns (files': set<Artifact>, log': seq<LogEntry>, trace: seq<Event>)
    ensures RunState(files', log', trace) == RunPrefix(files, log, urls, |urls|, act)
  {
    files', log', trace := files, log, [];
    for n := 0 to |urls|
      invariant RunState(files', log', trace) == RunPrefix(files, log, urls, n, act)
    {
      var i := n + 1;
      var f, events, failure := ProcessItem(files', i, act);
      files', trace := f, trace + events;
      if failure.Some? {
        log' := log' + [LogEntry(Key(i), urls[n], failure.value)];
      }
    }
  }

  // ---------------------------------------------------------------------------
  // Artifact paths

  /** The stage an artifact file name belongs to, read back from the name. */
  function StageOfName(n: string): Stage {
    if |n| > 0 && n[0] == 'a' then Audio
    else if |n| > 11 && n[11] == 'r' then RawTranscript
    else CleanTranscript
  }

  /** The key an artifact file name carries, read back from the name. */
  function KeyOfName(n: string): string {
    match StageOfName(n)
    case Audio => if |n| >= 10 then n[6..|n| - 4] else []
    case RawTranscript => if |n| >= 20 then n[15..|n| - 5] else []
    case CleanTranscript => if |n| >= 16 then n[11..|n| - 5] else []
  }

  /** An artifact file name determines its stage and key. */
  lemma ArtifactNameDecodes(s: Stage, key: string)
    requires |key| >= 1 && Keys.AllDigits(key)
    ensures StageOfName(ArtifactName(s, key)) == s && KeyOfName(ArtifactName(s, key)) == key
  {
    var n := ArtifactName(s, key);
    match s
    case Audio =>
      assert n[0] == 'a';
      assert n[6..|n| - 4] == key;
    case RawTranscript =>
      assert n[0] == 't' && n[11] == 'r';
      assert n[15..|n| - 5] == key;
    case CleanTranscript =>
      assert n[0] == 't' && n[11] == key[0] && Keys.IsDigit(key[0]);
      assert n[11..|n| - 5] == key;
  }

  /** Artifact paths are pairwise distinct: distinct stages or distinct keys give distinct paths. */
  lemma ArtifactPathInjective(outDir: string, s1: Stage, k1: string, s2: Stage, k2: string)
    requires |k1| >= 1 && Keys.AllDigits(k1) && |k2| >= 1 && Keys.AllDigits(k2)
    requires ArtifactPath(outDir, s1, k1) == ArtifactPath(outDir, s2, k2)
    ensures s1 == s2 && k1 == k2
  {
    var d := outDir + "/";
    var n1, n2 := ArtifactName(s1, k1), ArtifactName(s2, k2);
    assert n1 == (d + n1)[|d|..] && n2 == (d + n2)[|d|..];
    ArtifactNameDecodes(s1, k1);
    ArtifactNameDecodes(s2, k2);
  }

  lemma InItemArtifacts(s: Stage, key: string)
    ensures Artifact(s, key) in ItemArtifacts(key)
  {
    match s
    case Audio =>
    case RawTranscript =>
    case CleanTranscript =>
  }

  /** Items at different positions never share an artifact file. */
  lemma DistinctItemsDistinctPaths(outDir: string, i: nat, j: nat, s1: Stage, s2: Stage)
    requires i != j
    ensures ArtifactPath(outDir, s1, Key(i)) != ArtifactPath(outDir, s2, Key(j))
  {
    if ArtifactPath(outDir, s1, Key(i)) == ArtifactPath(outDir, s2, Key(j)) {
      ArtifactPathInjective(outDir, s1, Key(i), s2, Key(j));
      Keys.KeyInjective(i, j);
    }
  }

  /** Items at different positions have no artifact in common. */
  lemma ItemArtifactsDisjoint(i: nat, j: nat)
    requires i != j
    ensures ItemArtifacts(Key(i)) !! ItemArtifacts(Key(j))
  {
    if Key(i) == Key(j) {
      Keys.KeyInjective(i, j);
    }
  }

  // ---------------------------------------------------------------------------
  // One item

  predicate DistinctStages(stages: seq<Stage>) {
    forall a, b :: 0 <= a < b < |stages| ==> stages[a] != stages[b]
  }

  /** Stages are visited in the declared order, each at most once, all for this item's key. */
  lemma {:induction false} StagesInOrder(files: set<Artifact>, i: nat, stages: seq<Stage>,
                                         act: (nat, Stage) -> Outcome)
    ensures var r := RunStages(files, i, stages, act);
            |r.events| <= |stages|
            && forall j :: 0 <= j < |r.events| ==> r.events[j].key == Key(i) && r.events[j].stage == stages[j]
    decreases |stages|
  {
    if stages != [] {
      var p := Artifact(stages[0], Key(i));
      if p in files {
        StagesInOrder(files, i, stages[1..], act);
      } else if act(i, stages[0]).Succeeded? {
        StagesInOrder(files + {p}, i, stages[1..], act);
      }
    }
  }

  /** A failing action is the last thing that happens to the item: no later stage is reached,
      and the item reports exactly that failure; an item without failure visits every stage. */
  lemma {:induction false} FailureEndsItem(files: set<Artifact>, i: nat, stages: seq<Stage>,
                                           act: (nat, Stage) -> Outcome)
    ensures var r := RunStages(files, i, stages, act);
            (forall j :: 0 <= j < |r.events| && Fails(r.events[j]) ==> j == |r.events| - 1)
            && (r.failure.Some? <==> |r.events| > 0 && Fails(r.events[|r.events| - 1]))
            && (r.failure.None? ==> |r.events| == |stages|)
            && (r.failure.Some? ==>
                  |r.events| <= |stages| && act(i, stages[|r.events| - 1]) == Failed(r.failure.value))
    decreases |stages|
  {
    if stages != [] {
      var key := Key(i);
      var p := Artifact(stages[0], key);
      var r := RunStages(files, i, stages, act);
      if p in files || act(i, stages[0]).Succeeded? {
        var files' := if p in files then files else files + {p};
        var e := if p in files then Skipped(key, stages[0]) else Ran(key, stages[0], true);
        var rest := RunStages(files', i, stages[1..], act);
        FailureEndsItem(files', i, stages[1..], act);
        assert r.events == [e] + rest.events && r.failure == rest.failure;
        assert !Fails(e);
        forall j | 1 <= j < |r.events| ensures r.events[j] == rest.events[j - 1] {
        }
        if r.failure.Some? {
          assert stages[|r.events| - 1] == stages[1..][|rest.events| - 1];
        }
      } else {
        assert r == ItemRun(files, [Ran(key, stages[0], false)], Some(act(i, stages[0]).detail));
      }
    }
  }

  /** Skip rule: a stage is skipped exactly when its artifact existed when the item started,
      and an invoked action's outcome is what the action reported. */
  lemma {:induction false} SkipRule(files: set<Artifact>, i: nat, stages: seq<Stage>,
                                    act: (nat, Stage) -> Outcome)
    requires DistinctStages(stages)
    ensures var r := RunStages(files, i, stages, act);
            |r.events| <= |stages|
            && forall j :: 0 <= j < |r.events| ==>
              (r.events[j].Skipped? <==> Artifact(stages[j], Key(i)) in files)
              && (r.events[j].Ran? ==> r.events[j].ok == act(i, stages[j]).Succeeded?)
    decreases |stages|
  {
    if stages != [] {
      var r := RunStages(files, i, stages, act);
      var p := Artifact(stages[0], Key(i));
      var tail := stages[1..];
      assert DistinctStages(tail);
      if p in files {
        SkipRule(files, i, tail, act);
      } else if act(i, stages[0]).Succeeded? {
        SkipRule(files + {p}, i, tail, act);
        forall j | 0 <= j < |tail|
          ensures Artifact(tail[j], Key(i)) in files + {p}
                  <==> Artifact(tail[j], Key(i)) in files
        {
          assert tail[j] == stages[j + 1];
        }
      }
    }
  }

  /** The store after an item holds what it held before plus the artifacts of the item's
      successful actions, and nothing outside the item's own three paths is added. */
  lemma {:induction false} ItemFiles(files: set<Artifact>, i: nat, stages: seq<Stage>,
                                     act: (nat, Stage) -> Outcome)
    ensures var r := RunStages(files, i, stages, act);
            r.files == files + Created(r.events)
            && Created(r.events) <= ItemArtifacts(Key(i))
    decreases |stages|
  {
    if stages != [] {
      var r := RunStages(files, i, stages, act);
      var p := Artifact(stages[0], Key(i));
      if p in files {
        ItemFiles(files, i, stages[1..], act);
        assert r.events[1..] == RunStages(files, i, stages[1..], act).events;
      } else if act(i, stages[0]).Succeeded? {
        ItemFiles(files + {p}, i, stages[1..], act);
        InItemArtifacts(stages[0], Key(i));
        assert r.events[1..] == RunStages(files + {p}, i, stages[1..], act).events;
      }
    }
  }

  /** An item's behaviour depends on the store only through its own artifact paths. */
  lemma {:induction false} Locality(f1: set<Artifact>, f2: set<Artifact>, i: nat,
                                    stages: seq<Stage>, act: (nat, Stage) -> Outcome)
    requires forall s :: s in stages ==>
               (Artifact(s, Key(i)) in f1 <==> Artifact(s, Key(i)) in f2)
    ensures RunStages(f1, i, stages, act).events == RunStages(f2, i, stages, act).events
    ensures RunStages(f1, i, stages, act).failure == RunStages(f2, i, stages, act).failure
    decreases |stages|
  {
    if stages != [] {
      var p := Artifact(stages[0], Key(i));
      assert stages[0] in stages;
      assert forall s :: s in stages[1..] ==> s in stages;
      if p in f1 {
        Locality(f1, f2, i, stages[1..], act);
      } else if act(i, stages[0]).Succeeded? {
        Locality(f1 + {p}, f2 + {p}, i, stages[1..], act);
      }
    }
  }

  /** An item whose artifacts all exist invokes no action and changes nothing. */
  lemma {:induction false} ItemIdempotent(files: set<Artifact>, i: nat, stages: seq<Stage>,
                                          act: (nat, Stage) -> Outcome)
    requires forall s :: s in stages ==> Artifact(s, Key(i)) in files
    ensures var r := RunStages(files, i, stages, act);
            r.files == files && r.failure.None? && forall e :: e in r.events ==> e.Skipped?
    decreases |stages|
  {
    if stages != [] {
      assert stages[0] in stages;
      assert forall s :: s in stages[1..] ==> s in stages;
      ItemIdempotent(files, i, stages[1..], act);
    }
  }

  /** An item that reports no failure ends with all its artifacts present. */
  lemma {:induction false} ItemComplete(files: set<Artifact>, i: nat, stages: seq<Stage>,
                                        act: (nat, Stage) -> Outcome)
    requires RunStages(files, i, stages, act).failure.None?
    ensures forall s :: s in stages ==> Artifact(s, Key(i)) in RunStages(files, i, stages, act).files
    decreases |stages|
  {
    if stages != [] {
      var p := Artifact(stages[0], Key(i));
      var r := RunStages(files, i, stages, act);
      if p in files {
        ItemComplete(files, i, stages[1..], act);
        ItemFiles(files, i, stages[1..], act);
      } else {
        ItemComplete(files + {p}, i, stages[1..], act);
        ItemFiles(files + {p}, i, stages[1..], act);
      }
    }
  }

  // ---------------------------------------------------------------------------
  // The whole run

  /** The events of a trace that concern the item with this key. */
  function EventsFor(trace: seq<Event>, key: string): seq<Event>
    decreases |trace|
  {
    if trace == [] then []
    else EventsFor(trace[..|trace| - 1], key)
         + (if trace[|trace| - 1].key == key then [trace[|trace| - 1]] else [])
  }

  /** The log entries about the item with this key. */
  function EntriesFor(log: seq<LogEntry>, key: string): seq<LogEntry>
    decreases |log|
  {
    if log == [] then []
    else EntriesFor(log[..|log| - 1], key)
         + (if log[|log| - 1].key == key then [log[|log| - 1]] else [])
  }

  /** The keys of the items whose first stage was reached, in order: the items attempted. */
  function Attempted(trace: seq<Event>): seq<string>
    decreases |trace|
  {
    if trace == [] then []
    else Attempted(trace[..|trace| - 1])
         + (if trace[|trace| - 1].stage == Audio then [trace[|trace| - 1].key] else [])
  }

  lemma {:induction false} EventsForAppend(a: seq<Event>, b: seq<Event>, key: string)
    ensures EventsFor(a + b, key) == EventsFor(a, key) + EventsFor(b, key)
    decreases |b|
  {
    if b == [] {
      assert a + b == a;
    } else {
      var b' := b[..|b| - 1];
      EventsForAppend(a, b', key);
      assert (a + b)[..|a + b| - 1] == a + b';
    }
  }

  lemma {:induction false} EntriesForAppend(a: seq<LogEntry>, b: seq<LogEntry>, key: string)
    ensures EntriesFor(a + b, key) == EntriesFor(a, key) + EntriesFor(b, key)
    decreases |b|
  {
    if b == [] {
      assert a + b == a;
    } else {
      var b' := b[..|b| - 1];
      EntriesForAppend(a, b', key);
      assert (a + b)[..|a + b| - 1] == a + b';
    }
  }

  lemma {:induction false} AttemptedAppend(a: seq<Event>, b: seq<Event>)
    ensures Attempted(a + b) == Attempted(a) + Attempted(b)
    decreases |b|
  {
    if b == [] {
      assert a + b == a;
    } else {
      var b' := b[..|b| - 1];
      AttemptedAppend(a, b');
      assert (a + b)[..|a + b| - 1] == a + b';
    }
  }

  /** A trace whose events all carry one key: filtering on it keeps all or nothing. */
  lemma {:induction false} EventsForUniform(es: seq<Event>, k: string, key: string)
    requires forall j :: 0 <= j < |es| ==> es[j].key == k
    ensures EventsFor(es, key) == if k == key then es else []
    decreases |es|
  {
    if es != [] {
      EventsForUniform(es[..|es| - 1], k, key);
      assert es[..|es| - 1] + [es[|es| - 1]] == es;
    }
  }

  /** A trace that never reaches a first stage attempts no item. */
  lemma {:induction false} NoneAttempted(es: seq<Event>)
    requires forall j :: 0 <= j < |es| ==> es[j].stage != Audio
    ensures Attempted(es) == []
    decreases |es|
  {
    if es != [] {
      NoneAttempted(es[..|es| - 1]);
    }
  }

  /** Every item's events name its first stage exactly once. */
  lemma ItemAttemptedOnce(files: set<Artifact>, i: nat, act: (nat, Stage) -> Outcome)
    ensures Attempted(RunStages(files, i, Stages, act).events) == [Key(i)]
  {
    var es := RunStages(files, i, Stages, act).events;
    StagesInOrder(files, i, Stages, act);
    FailureEndsItem(files, i, Stages, act);
    assert 1 <= |es| <= 3;
    assert es[0].stage == Audio && es[0].key == Key(i);
    var rest := es[1..];
    forall j | 0 <= j < |rest| ensures rest[j].stage != Audio {
      assert rest[j] == es[j + 1];
      assert Stages[j + 1] != Audio;
    }
    NoneAttempted(rest);
    AttemptedAppend([es[0]], rest);
    assert [es[0]] + rest == es;
    assert [es[0]][..0] == [];
  }

  // ---------------------------------------------------------------------------
  // Items in isolation

  /** The log entry the `except` block writes for item `i` when its run failed. */
  function Entry(i: nat, url: string, r: ItemRun): seq<LogEntry> {
    if r.failure.Some? then [LogEntry(Key(i), url, r.failure.value)] else []
  }

  /** The runs of items 1 to `k`, each started from the store `files0` as it was before the run. */
  function AloneRuns(files0: set<Artifact>, k: nat, act: (nat, Stage) -> Outcome): (rs: seq<ItemRun>)
    ensures |rs| == k
    decreases k
  {
    if k == 0 then [] else AloneRuns(files0, k - 1, act) + [RunStages(files0, k, Stages, act)]
  }

  lemma {:induction false} AloneRunAt(files0: set<Artifact>, k: nat, act: (nat, Stage) -> Outcome, m: nat)
    requires m < k
    ensures AloneRuns(files0, k, act)[m] == RunStages(files0, m + 1, Stages, act)
    decreases k
  {
    if m < k - 1 {
      AloneRunAt(files0, k - 1, act, m);
    }
  }

  /** The events of a list of item runs, in order. */
  function Traces(rs: seq<ItemRun>): seq<Event>
    decreases |rs|
  {
    if rs == [] then [] else Traces(rs[..|rs| - 1]) + rs[|rs| - 1].events
  }

  /** The artifacts a list of item runs created. */
  function Made(rs: seq<ItemRun>): set<Artifact>
    decreases |rs|
  {
    if rs == [] then {} else Made(rs[..|rs| - 1]) + Created(rs[|rs| - 1].events)
  }

  /** The log entries of a list of item runs, the run at `rs[m]` being item `m + 1`. */
  function Failures(rs: seq<ItemRun>, urls: seq<string>): seq<LogEntry>
    requires |rs| <= |urls|
    decreases |rs|
  {
    if rs == [] then [] else Failures(rs[..|rs| - 1], urls) + Entry(|rs|, urls[|rs| - 1], rs[|rs| - 1])
  }

  lemma RunsSnoc(rs: seq<ItemRun>, r: ItemRun)
    ensures Traces(rs + [r]) == Traces(rs) + r.events
    ensures Made(rs + [r]) == Made(rs) + Created(r.events)
  {
    assert (rs + [r])[..|rs|] == rs;
  }

  lemma FailuresSnoc(rs: seq<ItemRun>, r: ItemRun, urls: seq<string>)
    requires |rs| < |urls|
    ensures Failures(rs + [r], urls) == Failures(rs, urls) + Entry(|rs| + 1, urls[|rs|], r)
  {
    assert (rs + [r])[..|rs|] == rs;
  }

  /** What the first `k` items create lies outside the artifacts of every later item. */
  lemma {:induction false} AloneMadeLocal(files0: set<Artifact>, k: nat, j: nat, act: (nat, Stage) -> Outcome)
    requires k < j
    ensures Made(AloneRuns(files0, k, act)) !! ItemArtifacts(Key(j))
    decreases k
  {
    if k > 0 {
      var rs := AloneRuns(files0, k - 1, act);
      var r := RunStages(files0, k, Stages, act);
      assert AloneRuns(files0, k, act) == rs + [r];
      RunsSnoc(rs, r);
      AloneMadeLocal(files0, k - 1, j, act);
      ItemFiles(files0, k, Stages, act);
      ItemArtifactsDisjoint(k, j);
    }
  }

  /** Item `k` behaves in the run as it would alone on the initial store. */
  lemma ItemSeesInitialStore(files0: set<Artifact>, k: nat, act: (nat, Stage) -> Outcome)
    requires k >= 1
    ensures var before := files0 + Made(AloneRuns(files0, k - 1, act));
            var r := RunStages(files0, k, Stages, act);
            RunStages(before, k, Stages, act) == ItemRun(before + Created(r.events), r.events, r.failure)
  {
    var before := files0 + Made(AloneRuns(files0, k - 1, act));
    AloneMadeLocal(files0, k - 1, k, act);
    forall s | s in Stages
      ensures Artifact(s, Key(k)) in before <==> Artifact(s, Key(k)) in files0
    {
      InItemArtifacts(s, Key(k));
    }
    Locality(before, files0, k, Stages, act);
    ItemFiles(before, k, Stages, act);
  }

  /** Isolation: the run is the sequence of the items' runs, each computed from the store as it
      was before the run began. No item's outcome, failure included, affects another item. */
  lemma {:induction false} Isolation(files0: set<Artifact>, log0: seq<LogEntry>,
                                     urls: seq<string>, k: nat, act: (nat, Stage) -> Outcome)
    requires k <= |urls|
    ensures var rs := AloneRuns(files0, k, act);
            RunPrefix(files0, log0, urls, k, act)
            == RunState(files0 + Made(rs), log0 + Failures(rs, urls), Traces(rs))
    decreases k
  {
    if k > 0 {
      Isolation(files0, log0, urls, k - 1, act);
      var rs := AloneRuns(files0, k - 1, act);
      var r := RunStages(files0, k, Stages, act);
      assert AloneRuns(files0, k, act) == rs + [r];
      ItemSeesInitialStore(files0, k, act);
      var prev := RunPrefix(files0, log0, urls, k - 1, act);
      StepIs(prev, k, urls[k - 1], act, ItemRun(files0 + Made(rs) + Created(r.events), r.events, r.failure));
      SnocState(prev, files0, log0, rs, r, urls);
    }
  }

  /** Appending one item's run to the state of the items before it. */
  lemma SnocState(st: RunState, files0: set<Artifact>, log0: seq<LogEntry>, rs: seq<ItemRun>, r: ItemRun,
                  urls: seq<string>)
    requires |rs| < |urls|
    requires st == RunState(files0 + Made(rs), log0 + Failures(rs, urls), Traces(rs))
    ensures RunState(files0 + Made(rs) + Created(r.events), st.log + Entry(|rs| + 1, urls[|rs|], r),
                     st.trace + r.events)
            == RunState(files0 + Made(rs + [r]), log0 + Failures(rs + [r], urls), Traces(rs + [r]))
  {
    RunsSnoc(rs, r);
    SnocLog(log0, rs, r, urls);
  }

  lemma SnocLog(log0: seq<LogEntry>, rs: seq<ItemRun>, r: ItemRun, urls: seq<string>)
    requires |rs| < |urls|
    ensures log0 + Failures(rs, urls) + Entry(|rs| + 1, urls[|rs|], r) == log0 + Failures(rs + [r], urls)
  {
    FailuresSnoc(rs, r, urls);
    var f, e := Failures(rs, urls), Entry(|rs| + 1, urls[|rs|], r);
    assert log0 + f + e == log0 + (f + e);
  }

  /** One iteration of the loop, given the item's run. */
  lemma StepIs(st: RunState, i: nat, url: string, act: (nat, Stage) -> Outcome, r: ItemRun)
    requires RunStages(st.files, i, Stages, act) == r
    ensures Step(st, i, url, act) == RunState(r.files, st.log + Entry(i, url, r), st.trace + r.events)
  {
  }

  /** Each run in `rs` carries the key of its position. */
  predicate KeyedRuns(rs: seq<ItemRun>) {
    forall m, n :: 0 <= m < |rs| && 0 <= n < |rs[m].events| ==> rs[m].events[n].key == Key(m + 1)
  }

  /** Filtering the events of keyed runs on the key of item `j` yields the events of run `j`. */
  lemma {:induction false} TracesFor(rs: seq<ItemRun>, j: nat)
    requires KeyedRuns(rs) && 1 <= j
    ensures EventsFor(Traces(rs), Key(j)) == if j <= |rs| then rs[j - 1].events else []
    decreases |rs|
  {
    if rs != [] {
      var k := |rs|;
      var prev := rs[..k - 1];
      var es := rs[k - 1].events;
      forall m, n | 0 <= m < |prev| && 0 <= n < |prev[m].events|
        ensures prev[m].events[n].key == Key(m + 1)
      {
        assert prev[m] == rs[m];
      }
      TracesFor(prev, j);
      EventsForAppend(Traces(prev), es, Key(j));
      EventsForUniform(es, Key(k), Key(j));
      if k != j && Key(k) == Key(j) { Keys.KeyInjective(k, j); }
      var here := EventsFor(Traces(rs), Key(j));
      if j < k {
        assert here == prev[j - 1].events + [];
      } else if j == k {
        assert here == [] + es;
      } else {
        assert here == [] + [];
      }
    }
  }

  /** The runs of the items alone carry their own keys. */
  lemma AloneRunsKeyed(files0: set<Artifact>, k: nat, act: (nat, Stage) -> Outcome)
    ensures KeyedRuns(AloneRuns(files0, k, act))
  {
    var rs := AloneRuns(files0, k, act);
    forall m, n | 0 <= m < |rs| && 0 <= n < |rs[m].events|
      ensures rs[m].events[n].key == Key(m + 1)
    {
      AloneRunAt(files0, k, act, m);
      StagesInOrder(files0, m + 1, Stages, act);
    }
  }

  /** The events about item `j` in a run are exactly those of item `j` run alone on the
      initial store; no other item contributes to them. */
  lemma ItemEventsIsolated(files0: set<Artifact>, log0: seq<LogEntry>,
                           urls: seq<string>, act: (nat, Stage) -> Outcome, j: nat)
    requires 1 <= j <= |urls|
    ensures EventsFor(RunPrefix(files0, log0, urls, |urls|, act).trace, Key(j))
            == RunStages(files0, j, Stages, act).events
  {
    Isolation(files0, log0, urls, |urls|, act);
    AloneRunsKeyed(files0, |urls|, act);
    TracesFor(AloneRuns(files0, |urls|, act), j);
    AloneRunAt(files0, |urls|, act, j - 1);
  }

  lemma EntriesForSingleton(x: LogEntry, key: string)
    ensures EntriesFor([x], key) == if x.key == key then [x] else []
  {
    assert [x][..0] == [];
  }

  /** Filtering an item's log entry on the key of item `j` keeps it exactly when `j` is that item. */
  lemma EntryFor(k: nat, url: string, r: ItemRun, j: nat)
    ensures EntriesFor(Entry(k, url, r), Key(j)) == if k == j then Entry(k, url, r) else []
  {
    var e := Entry(k, url, r);
    if e != [] {
      EntriesForSingleton(e[0], Key(j));
      if k != j && Key(k) == Key(j) { Keys.KeyInjective(k, j); }
    }
  }

  /** Filtering the log entries of a list of runs on the key of item `j` yields item `j`'s entry. */
  lemma {:induction false} FailuresFor(rs: seq<ItemRun>, urls: seq<string>, j: nat)
    requires |rs| <= |urls| && 1 <= j <= |urls|
    ensures EntriesFor(Failures(rs, urls), Key(j)) == if j <= |rs| then Entry(j, urls[j - 1], rs[j - 1]) else []
    decreases |rs|
  {
    if rs != [] {
      var k := |rs|;
      var prev := rs[..k - 1];
      FailuresFor(prev, urls, j);
      var f := Failures(prev, urls);
      var e := Entry(k, urls[k - 1], rs[k - 1]);
      assert Failures(rs, urls) == f + e;
      EntriesForAppend(f, e, Key(j));
      EntryFor(k, urls[k - 1], rs[k - 1], j);
      if j < k {
        assert prev[j - 1] == rs[j - 1];
        assert EntriesFor(Failures(rs, urls), Key(j)) == EntriesFor(f, Key(j)) + [];
      } else if j == k {
        assert EntriesFor(Failures(rs, urls), Key(j)) == [] + e;
      } else {
        assert EntriesFor(Failures(rs, urls), Key(j)) == [] + [];
      }
    }
  }

  /** The log is append-only, and a run appends, for each failing item, exactly one entry,
      carrying its key, its URL and the failure, and none for an item that did not fail. */
  lemma ItemLogged(files0: set<Artifact>, log0: seq<LogEntry>,
                   urls: seq<string>, act: (nat, Stage) -> Outcome, j: nat)
    requires 1 <= j <= |urls|
    ensures var run := RunPrefix(files0, log0, urls, |urls|, act);
            var r := RunStages(files0, j, Stages, act);
            log0 <= run.log
            && EntriesFor(run.log, Key(j))
               == EntriesFor(log0, Key(j))
                  + (if r.failure.Some? then [LogEntry(Key(j), urls[j - 1], r.failure.value)] else [])
  {
    Isolation(files0, log0, urls, |urls|, act);
    var rs := AloneRuns(files0, |urls|, act);
    EntriesForAppend(log0, Failures(rs, urls), Key(j));
    FailuresFor(rs, urls, j);
    AloneRunAt(files0, |urls|, act, j - 1);
  }

  /** Writing entries in two batches gives the file one batch gives. */
  lemma {:induction false} LogTextAppend(initial: string, log: seq<LogEntry>, extra: seq<LogEntry>)
    ensures LogText(initial, log + extra) == LogText(LogText(initial, log), extra)
    decreases |extra|
  {
    if extra == [] {
      assert log + extra == log;
    } else {
      var init := extra[..|extra| - 1];
      LogTextAppend(initial, log, init);
      assert (log + extra)[..|log + extra| - 1] == log + init;
      assert (log + extra)[|log + extra| - 1] == extra[|extra| - 1];
    }
  }

  /** Appending entries keeps what the file held before as a prefix. */
  lemma {:induction false} LogTextKeepsOld(initial: string, log: seq<LogEntry>)
    ensures initial <= LogText(initial, log)
    decreases |log|
  {
    if log != [] {
      LogTextKeepsOld(initial, log[..|log| - 1]);
    }
  }

  /** errors.log is opened in append mode: after a run it is its earlier text followed by the
      text of the entries the run appended. */
  lemma LogFileAppendOnly(files0: set<Artifact>, log0: seq<LogEntry>, urls: seq<string>,
                          act: (nat, Stage) -> Outcome, initial: string)
    ensures var run := RunPrefix(files0, log0, urls, |urls|, act);
            var before := LogText(initial, log0);
            log0 <= run.log
            && before <= LogText(initial, run.log)
            && LogText(initial, run.log) == LogText(before, run.log[|log0|..])
  {
    Isolation(files0, log0, urls, |urls|, act);
    var rest := Failures(AloneRuns(files0, |urls|, act), urls);
    var log := RunPrefix(files0, log0, urls, |urls|, act).log;
    assert log == log0 + rest && log[|log0|..] == rest;
    LogTextAppend(initial, log0, rest);
    LogTextKeepsOld(LogText(initial, log0), rest);
  }

  /** The keys of positions 1 to `k`, in order. */
  function KeysUpTo(k: nat): (r: seq<string>)
    ensures |r| == k && forall j :: 0 <= j < k ==> r[j] == Key(j + 1)
  {
    if k == 0 then [] else KeysUpTo(k - 1) + [Key(k)]
  }

  /** Every item in the list is attempted exactly once per run, in list order, whatever failed. */
  lemma {:induction false} AllItemsAttempted(files0: set<Artifact>, log0: seq<LogEntry>,
                                             urls: seq<string>, k: nat, act: (nat, Stage) -> Outcome)
    requires k <= |urls|
    ensures Attempted(RunPrefix(files0, log0, urls, k, act).trace) == KeysUpTo(k)
    decreases k
  {
    if k > 0 {
      AllItemsAttempted(files0, log0, urls, k - 1, act);
      var before := RunPrefix(files0, log0, urls, k - 1, act);
      var es := RunStages(before.files, k, Stages, act).events;
      AttemptedAppend(before.trace, es);
      ItemAttemptedOnce(before.files, k, act);
    }
  }

  /** Every artifact of the first `n` items exists. */
  predicate AllDone(files: set<Artifact>, n: nat) {
    forall j: nat, s: Stage :: 1 <= j <= n ==> Artifact(s, Key(j)) in files
  }

  /** Idempotence: when every artifact exists, a run invokes no action, adds no file and
      writes no log entry. */
  lemma {:induction false} RunIdempotent(files0: set<Artifact>, log0: seq<LogEntry>,
                                         urls: seq<string>, k: nat, act: (nat, Stage) -> Outcome)
    requires k <= |urls| && AllDone(files0, k)
    ensures var run := RunPrefix(files0, log0, urls, k, act);
            run.files == files0 && run.log == log0 && forall e :: e in run.trace ==> e.Skipped?
    decreases k
  {
    if k > 0 {
      RunIdempotent(files0, log0, urls, k - 1, act);
      ItemIdempotent(files0, k, Stages, act);
    }
  }

  lemma {:induction false} MadeGrows(rs: seq<ItemRun>, m: nat)
    requires m < |rs|
    ensures Created(rs[m].events) <= Made(rs)
    decreases |rs|
  {
    if m < |rs| - 1 {
      MadeGrows(rs[..|rs| - 1], m);
    }
  }

  /** Re-running after a run re-executes nothing for an item that completed in that run. */
  lemma RerunSkipsCompletedItems(files0: set<Artifact>, log0: seq<LogEntry>,
                                 urls: seq<string>, act: (nat, Stage) -> Outcome,
                                 act2: (nat, Stage) -> Outcome, j: nat)
    requires 1 <= j <= |urls|
    requires RunStages(files0, j, Stages, act).failure.None?
    ensures var files1 := RunPrefix(files0, log0, urls, |urls|, act).files;
            forall e :: e in RunStages(files1, j, Stages, act2).events ==> e.Skipped?
  {
    var files1 := RunPrefix(files0, log0, urls, |urls|, act).files;
    forall s | s in Stages
      ensures Artifact(s, Key(j)) in files1
    {
      CompletedItemDone(files0, log0, urls, act, j, s);
    }
    ItemIdempotent(files1, j, Stages, act2);
  }

  lemma {:induction false} NoEntriesNoFailures(rs: seq<ItemRun>, urls: seq<string>, m: nat)
    requires |rs| <= |urls| && m < |rs|
    requires Failures(rs, urls) == []
    ensures rs[m].failure.None?
    decreases |rs|
  {
    if m < |rs| - 1 {
      NoEntriesNoFailures(rs[..|rs| - 1], urls, m);
    }
  }

  /** Item `j` of a run that did not fail has all its artifacts in the final store. */
  lemma CompletedItemDone(files0: set<Artifact>, log0: seq<LogEntry>, urls: seq<string>,
                          act: (nat, Stage) -> Outcome, j: nat, s: Stage)
    requires 1 <= j <= |urls|
    requires RunStages(files0, j, Stages, act).failure.None?
    ensures Artifact(s, Key(j)) in RunPrefix(files0, log0, urls, |urls|, act).files
  {
    Isolation(files0, log0, urls, |urls|, act);
    AloneRunAt(files0, |urls|, act, j - 1);
    MadeGrows(AloneRuns(files0, |urls|, act), j - 1);
    ItemComplete(files0, j, Stages, act);
    ItemFiles(files0, j, Stages, act);
    assert s in Stages by {
      assert Stages == [Audio, RawTranscript, CleanTranscript];
      match s
      case Audio => assert Stages[0] == s;
      case RawTranscript => assert Stages[1] == s;
      case CleanTranscript => assert Stages[2] == s;
    }
  }

  /** A run that logged nothing leaves every artifact of every item in the store. */
  lemma CleanRunCompletes(files0: set<Artifact>, log0: seq<LogEntry>, urls: seq<string>,
                          act: (nat, Stage) -> Outcome)
    requires RunPrefix(files0, log0, urls, |urls|, act).log == log0
    ensures AllDone(RunPrefix(files0, log0, urls, |urls|, act).files, |urls|)
  {
    Isolation(files0, log0, urls, |urls|, act);
    var rs := AloneRuns(files0, |urls|, act);
    assert Failures(rs, urls) == [] by {
      assert |log0 + Failures(rs, urls)| == |log0|;
    }
    forall j: nat, s: Stage | 1 <= j <= |urls|
      ensures Artifact(s, Key(j)) in RunPrefix(files0, log0, urls, |urls|, act).files
    {
      NoEntriesNoFailures(rs, urls, j - 1);
      AloneRunAt(files0, |urls|, act, j - 1);
      CompletedItemDone(files0, log0, urls, act, j, s);
    }
  }

  /** A second run after a run that logged nothing invokes no action and changes nothing. */
  lemma RerunAfterCleanRun(files0: set<Artifact>, log0: seq<LogEntry>, urls: seq<string>,
                           act: (nat, Stage) -> Outcome, act2: (nat, Stage) -> Outcome)
    requires RunPrefix(files0, log0, urls, |urls|, act).log == log0
    ensures var first := RunPrefix(files0, log0, urls, |urls|, act);
            var second := RunPrefix(first.files, first.log, urls, |urls|, act2);
            second.files == first.files && second.log == first.log
            && forall e :: e in second.trace ==> e.Skipped?
  {
    var first := RunPrefix(files0, log0, urls, |urls|, act);
    CleanRunCompletes(files0, log0, urls, act);
    RunIdempotent(first.files, first.log, urls, |urls|, act2);
  }

  /** Item 7 is keyed "07", and its first two artifacts are outputs/audio_07.mp3 and
      outputs/transcript_raw_07.json. */
  lemma ExampleItemSeven()
    ensures Key(7) == "07"
    ensures ArtifactPath("outputs", Audio, Key(7)) == "outputs/audio_07.mp3"
    ensures ArtifactPath("outputs", RawTranscript, Key(7)) == "outputs/transcript_raw_07.json"
  {
  }
}
