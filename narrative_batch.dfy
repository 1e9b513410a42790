/** batch_prompt_narrative.py: one police-report narrative per raw transcript that the
    pipeline left in outputs/, through one batch job. */
module NarrativeBatch {
  import opened Json
  import opened Wrappers
  import BatchJob
  import StageRunner
  import Text

  /** The script's defaults: transcripts `outputs/transcript_raw_NN.json`, request keys
      `transcript_raw_NN`, narratives `narratives/narrative_NN.txt`. */
  const Narrative: BatchJob.Config :=
    BatchJob.Config("outputs", "transcript_raw_", ".json", "transcript_raw_", "\n\nTranscript (JSON):\n",
                    "narratives", "narrative_", ".txt")

  /** `batch_generate_narratives` over indices 1 to `total`; the instruction text, the input
      files, the observed job states and the results file are parameters. */
  method GenerateNarratives(instruction: string, total: nat, inputs: map<string, string>,
                            observed: seq<string>, resultLines: seq<string>, parse: string -> Option<Value>,
                            outputs0: map<string, string>)
    returns (run: BatchJob.BatchRun)
    ensures run == BatchJob.BatchResult(Narrative, instruction, BatchJob.Upto(total), inputs,
                                        observed, resultLines, parse, outputs0)
  {
    run := BatchJob.RunBatch(Narrative, instruction, BatchJob.Upto(total), inputs,
                             observed, resultLines, parse, outputs0);
  }

  /** Where the script looks for transcript `i`. */
  lemma NarrativeInput(i: nat)
    ensures BatchJob.InputPath(Narrative, BatchJob.Idx(i)) == "outputs/transcript_raw_" + BatchJob.Idx(i) + ".json"
  {
    assert Narrative.inputDir + "/" + Narrative.inputPrefix == "outputs/transcript_raw_";
  }

  /** The requests are keyed `transcript_raw_NN`, for exactly the indices 1 to `total` whose
      transcript exists, in increasing index order, so the keys are pairwise distinct. */
  lemma NarrativeRequestKeys(instruction: string, total: nat, inputs: map<string, string>)
    ensures var p := BatchJob.PresentIndices(Narrative, BatchJob.Upto(total), inputs);
            var r := BatchJob.Requests(Narrative, instruction, BatchJob.Upto(total), inputs);
            |r| == |p|
            && BatchJob.StrictlyIncreasing(p)
            && (forall i :: i in p <==> 1 <= i <= total && BatchJob.InputPath(Narrative, BatchJob.Idx(i)) in inputs)
            && (forall k :: 0 <= k < |p| ==> r[k].key == "transcript_raw_" + BatchJob.Idx(p[k]))
            && (forall a, b :: 0 <= a < b < |r| ==> r[a].key != r[b].key)
  {
    var up := BatchJob.Upto(total);
    BatchJob.RequestsFromPresent(Narrative, instruction, up, inputs);
    BatchJob.PresentIncreasing(Narrative, up, inputs);
    BatchJob.RequestKeysUnique(Narrative, instruction, up, inputs);
    BatchJob.UptoMembers(total);
  }

  /** A missing transcript is not fatal: the number of requests is the number of transcripts present. */
  lemma NarrativeRequestCount(instruction: string, total: nat, inputs: map<string, string>)
    ensures |BatchJob.Requests(Narrative, instruction, BatchJob.Upto(total), inputs)|
            == |set i: nat | 1 <= i <= total && "outputs/transcript_raw_" + BatchJob.Idx(i) + ".json" in inputs|
  {
    BatchJob.RequestCount(Narrative, instruction, total, inputs);
    forall i: nat ensures BatchJob.InputPath(Narrative, BatchJob.Idx(i)) == "outputs/transcript_raw_" + BatchJob.Idx(i) + ".json" {
      NarrativeInput(i);
    }
    assert BatchJob.PresentUpto(Narrative, total, inputs)
        == set i: nat | 1 <= i <= total && "outputs/transcript_raw_" + BatchJob.Idx(i) + ".json" in inputs;
  }

  /** The raw transcript the pipeline writes for item `i` is the input of request `i`. */
  lemma PipelineFeedsNarratives(i: nat)
    ensures BatchJob.InputPath(Narrative, BatchJob.Idx(i))
            == StageRunner.ArtifactPath("outputs", StageRunner.RawTranscript, StageRunner.Key(i))
  {
  }

  /** The answer to request `i` is written to `narratives/narrative_NN.txt` with the same `NN`. */
  lemma NarrativeKeyRoundTrip(i: nat)
    ensures Text.StartsWith("transcript_raw_" + BatchJob.Idx(i), Narrative.keyPrefix)
    ensures Text.LastPiece("transcript_raw_" + BatchJob.Idx(i), '_') == BatchJob.Idx(i)
    ensures BatchJob.OutputPath(Narrative, BatchJob.Idx(i)) == "narratives/narrative_" + BatchJob.Idx(i) + ".txt"
  {
    BatchJob.RequestKeyIndex(Narrative, i);
  }

  /** Example: request 7 reads outputs/transcript_raw_07.json and is answered in narratives/narrative_07.txt. */
  lemma ExampleSeven()
    ensures BatchJob.InputPath(Narrative, BatchJob.Idx(7)) == "outputs/transcript_raw_07.json"
    ensures BatchJob.RequestKey(Narrative, BatchJob.Idx(7)) == "transcript_raw_07"
    ensures BatchJob.OutputPath(Narrative, BatchJob.Idx(7)) == "narratives/narrative_07.txt"
  {
    var idx := BatchJob.Idx(7);
    assert idx == "07";
    NarrativeInput(7);
    assert Narrative.outputDir + "/" + Narrative.outputPrefix == "narratives/narrative_";
    assert BatchJob.OutputPath(Narrative, idx) == "narratives/narrative_" + idx + ".txt";
  }
}
