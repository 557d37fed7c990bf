/** The calls a buffer has seen. `BufferObject.Buffer` keeps this log. */
module CallLog {
  import opened BufferModel
  import opened BufferRuns

  lemma {:induction false} RunAppend(b: Buf, calls: seq<Call>, call: Call)
    ensures Run(b, calls + [call]) == Apply(Run(b, calls), call).0
    decreases |calls|
  {
    if calls == [] {
      assert (calls + [call])[1..] == [];
    } else {
      assert (calls + [call])[1..] == calls[1..] + [call];
      RunAppend(Apply(b, calls[0]).0, calls[1..], call);
    }
  }

  /** One more call on a buffer continues the run of the calls before it. */
  lemma ReachedMore(maxNameLen: nat, calls: seq<Call>, call: Call)
    ensures Reached(maxNameLen, calls + [call]) == Apply(Reached(maxNameLen, calls), call).0
  {
    RunAppend(NewBuf(maxNameLen), calls, call);
  }

  /** Every buffer in use is sound. */
  lemma ReachedIsSound(maxNameLen: nat, calls: seq<Call>)
    ensures Sound(Reached(maxNameLen, calls))
  {
    ReachedIsRecorded(maxNameLen, calls);
  }
}
