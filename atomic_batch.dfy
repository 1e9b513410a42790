/** batch_prompt_atomic.py: atomic facts for the narratives, for the fixed index list [63]. */
module AtomicBatch {
  import opened Json
  import opened Wrappers
  import BatchJob
  import NarrativeBatch
  import Text

  /** The script's defaults: narratives `narratives/narrative_NN.txt`, request keys
      `narrative_NN`, outputs `atomic_facts/atomic_facts_NN.txt`. */
  const Atomic: BatchJob.Config :=
    BatchJob.Config("narratives", "narrative_", ".txt", "narrative_", "\n\nReport:\n",
                    "atomic_facts", "atomic_facts_", ".txt")

  /** The index list the request loop iterates. */
  const AtomicIndices: seq<nat> := [63]

  /** `batch_generate_atomic_facts`; the prompt, the input files, the observed job states and
      the results file are parameters. */
  method GenerateAtomicFacts(prompt: string, inputs: map<string, string>,
                             observed: seq<string>, resultLines: seq<string>, parse: string -> Option<Value>,
                             outputs0: map<string, string>)
    returns (run: BatchJob.BatchRun)
    ensures run == BatchJob.BatchResult(Atomic, prompt, AtomicIndices, inputs, observed, resultLines, parse, outputs0)
  {
    run := BatchJob.RunBatch(Atomic, prompt, AtomicIndices, inputs, observed, resultLines, parse, outputs0);
  }

  /** At most one request, keyed `narrative_63`, and only when its narrative exists;
      otherwise that narrative is reported missing. */
  lemma AtMostOneRequest(prompt: string, inputs: map<string, string>)
    ensures var path := "narratives/narrative_63.txt";
            BatchJob.Requests(Atomic, prompt, AtomicIndices, inputs)
            == (if path in inputs then [BatchJob.Request("narrative_63", BatchJob.Prompt(Atomic, prompt, inputs[path]))] else [])
            && BatchJob.Missing(Atomic, AtomicIndices, inputs) == (if path in inputs then [] else [path])
  {
    assert BatchJob.Idx(63) == "63";
    assert BatchJob.InputPath(Atomic, "63") == "narratives/narrative_63.txt";
    assert BatchJob.RequestKey(Atomic, "63") == "narrative_63";
    assert AtomicIndices[..0] == [];
  }

  /** The narrative file written for index `i` is the file this script reads for index `i`. */
  lemma NarrativesFeedAtomicFacts(i: nat)
    ensures BatchJob.OutputPath(NarrativeBatch.Narrative, BatchJob.Idx(i)) == BatchJob.InputPath(Atomic, BatchJob.Idx(i))
  {
  }

  /** The answer to `narrative_NN` is written to `atomic_facts/atomic_facts_NN.txt`. */
  lemma AtomicKeyRoundTrip(i: nat)
    ensures Text.StartsWith("narrative_" + BatchJob.Idx(i), Atomic.keyPrefix)
    ensures Text.LastPiece("narrative_" + BatchJob.Idx(i), '_') == BatchJob.Idx(i)
    ensures BatchJob.OutputPath(Atomic, BatchJob.Idx(i)) == "atomic_facts/atomic_facts_" + BatchJob.Idx(i) + ".txt"
  {
    BatchJob.RequestKeyIndex(Atomic, i);
  }
}
