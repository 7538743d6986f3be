/** `skip` of bencode/decode.go as a function of the scanner state, and what it means for `checkValid`. */
module Skip {
  import opened Bytes
  import opened ScanState
  import opened Validity

  // OffEnd is the index panic of reading past the input.
  datatype Stop = Stopped(off: nat, s: Scan, op: Opcode) | OffEnd

  /** Steps on until fewer than `depth` containers are open. */
  function SkipTo(data: bytes, i: nat, s: Scan, depth: nat): Stop
    requires Inv(s) && 0 < depth <= |s.stack|
    decreases Left(data, i), Rank(s.mode)
  {
    if i >= |data| then OffEnd
    else
      var (s', op) := Step(s, data[i]);
      StepInv(s, data[i]);
      if |s'.stack| < depth then Stopped(i + s'.stepSize, s', op)
      else SkipTo(data, i + s'.stepSize, s', depth)
  }

  /** checkValid's run agrees with skip: it goes on from where skip stops, or rejects. */
  lemma {:induction false} RunThroughSkip(data: bytes, i: nat, s: Scan, depth: nat)
    requires Inv(s) && 0 < depth <= |s.stack|
    ensures match SkipTo(data, i, s, depth)
            case Stopped(off, t, op) => Inv(t) && Run(data, i, s) == Run(data, off, t)
            case OffEnd => Run(data, i, s) == Reject
    decreases Left(data, i), Rank(s.mode)
  {
    hide Step, Eof;
    if i < |data| {
      var (s', op) := Step(s, data[i]);
      StepInv(s, data[i]);
      if op == ScanError {
        ErrorRunsOff(data, i + s'.stepSize, s', depth);
      } else if |s'.stack| >= depth {
        RunThroughSkip(data, i + s'.stepSize, s', depth);
      }
    } else {
      OpenAtEof(s);
    }
  }

  lemma OpenAtEof(s: Scan)
    requires Inv(s) && s.stack != []
    ensures Eof(s).1 == ScanError
  {
    StepInv(s, 32);
  }

  lemma {:induction false} ErrorRunsOff(data: bytes, i: nat, s: Scan, depth: nat)
    requires Inv(s) && s.failed && 0 < depth <= |s.stack|
    ensures SkipTo(data, i, s, depth) == OffEnd
    decreases Left(data, i)
  {
    if i < |data| {
      ErrorRunsOff(data, i + 1, s, depth);
    }
  }

  // One step of skip that leaves enough containers open.
  lemma SkipOnce(data: bytes, i: nat, s: Scan, t: Scan, op: Opcode, depth: nat)
    requires Inv(s) && i < |data| && Step(s, data[i]) == (t, op) && 0 < depth <= |s.stack| && depth <= |t.stack|
    ensures Inv(t) && SkipTo(data, i, s, depth) == SkipTo(data, i + t.stepSize, t, depth)
  {
    StepInv(s, data[i]);
    hide Step;
  }

  // A step that fails runs off the end.
  lemma SkipFails(data: bytes, i: nat, s: Scan, depth: nat)
    requires Inv(s) && i < |data| && Step(s, data[i]) == Fail(s) && 0 < depth <= |s.stack|
    ensures SkipTo(data, i, s, depth) == OffEnd
  {
    var t := Fail(s).0;
    SkipOnce(data, i, s, t, ScanError, depth);
    ErrorRunsOff(data, i + t.stepSize, t, depth);
    hide Step, SkipTo;
  }

  lemma SkipEnds(data: bytes, i: nat, s: Scan, depth: nat)
    requires Inv(s) && i >= |data| && 0 < depth <= |s.stack|
    ensures SkipTo(data, i, s, depth) == OffEnd
  {
  }
}
