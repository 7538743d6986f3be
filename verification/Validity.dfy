/** `checkValid` of bencode/scanner.go as a function of the scanner state, and when its loop ends. */
module Validity {
  import opened Bytes
  import opened ScanState

  // Loop means that the scanner reaches a configuration that steps to itself.
  datatype Outcome = Accept | Reject | Loop

  // How many steps of size zero can still follow from this mode.
  function Rank(m: Mode): nat {
    match m
    case InString => 3
    case EndValue => 2
    case EndTop => 1
    case _ => 0
  }

  function Left(data: bytes, i: nat): nat {
    if i <= |data| then |data| - i else 0
  }

  lemma StepProgress(s: Scan, c: byte)
    requires Inv(s)
    ensures Inv(Step(s, c).0)
    ensures Step(s, c).1 != ScanError && Step(s, c).0.stepSize == 0 && Step(s, c).0 != s ==>
              Rank(Step(s, c).0.mode) < Rank(s.mode)
  {
    StepInv(s, c);
  }

  /** The rest of `checkValid`'s loop and its final `eof`, from index `i`. */
  function Run(data: bytes, i: nat, s: Scan): Outcome
    requires Inv(s)
    decreases Left(data, i), Rank(s.mode)
  {
    if i == |data| then (if Eof(s).1 == ScanError then Reject else Accept)
    else if i > |data| then Reject
    else
      var (s', op) := Step(s, data[i]);
      if op == ScanError then Reject
      else if s' == s && s.stepSize == 0 then Loop
      else
        StepProgress(s, data[i]);
        Run(data, i + s'.stepSize, s')
  }

  // One iteration that goes on.
  lemma RunOnce(data: bytes, i: nat, s: Scan, t: Scan, op: Opcode)
    requires Inv(s) && i < |data| && Step(s, data[i]) == (t, op) && op != ScanError && t.stepSize > 0
    ensures Inv(t) && Run(data, i, s) == Run(data, i + t.stepSize, t)
  {
    StepInv(s, data[i]);
    hide Step;
  }

  // One iteration that fails.
  lemma RunFails(data: bytes, i: nat, s: Scan)
    requires Inv(s) && i < |data| && Step(s, data[i]).1 == ScanError
    ensures Run(data, i, s) == Reject
  {
    hide Step;
  }

  // What a fresh scanner says of `data`.
  function Check(data: bytes): Outcome {
    Run(data, 0, FRESH)
  }

  /** Whether the loop is still running after `k` iterations: the loop itself, with no outcome of its own. */
  predicate Running(data: bytes, i: nat, s: Scan, k: nat)
    decreases k
  {
    k == 0 ||
    (i < |data| &&
     var (s', op) := Step(s, data[i]);
     op != ScanError && Running(data, i + s'.stepSize, s', k - 1))
  }

  lemma {:induction false} LoopNeverEnds(data: bytes, i: nat, s: Scan, k: nat)
    requires Inv(s) && Run(data, i, s) == Loop
    ensures Running(data, i, s, k)
    decreases k
  {
    hide Step;
    if k > 0 {
      StepInv(s, data[i]);
      var s' := Step(s, data[i]).0;
      LoopNeverEnds(data, i + s'.stepSize, s', k - 1);
    }
  }

  lemma {:induction false} OtherwiseEnds(data: bytes, i: nat, s: Scan) returns (k: nat)
    requires Inv(s) && Run(data, i, s) != Loop
    ensures !Running(data, i, s, k)
    decreases Left(data, i), Rank(s.mode)
  {
    hide Step;
    if i >= |data| || Step(s, data[i]).1 == ScanError {
      k := 1;
    } else {
      StepProgress(s, data[i]);
      var s' := Step(s, data[i]).0;
      var k' := OtherwiseEnds(data, i + s'.stepSize, s');
      k := k' + 1;
    }
  }

  // The one family of inputs on which checkValid never returns: an empty top-level string and a blank.
  ghost predicate EmptyStringThenSpace(data: bytes) {
    exists z: nat | 0 < z < |data| - 1 ::
      (forall j | 0 <= j < z :: data[j] == CH0) && data[z] == COLON && IsSpace(data[z + 1])
  }

  // Scanner states from which no zero-length top-level string can still be read.
  predicate NoEmptyTop(s: Scan) {
    s.stack == [] ==>
      && s.mode != BeginValue
      && (s.mode in {EndValue, EndTop} ==> s.stepSize > 0)
      && (s.mode in {BeginString, InString} ==> s.stringLen > 0)
  }

  lemma NoEmptyTopStep(s: Scan, c: byte)
    requires Inv(s) && NoEmptyTop(s)
    ensures Inv(Step(s, c).0) && NoEmptyTop(Step(s, c).0)
  {
    StepInv(s, c);
  }

  lemma {:induction false} NoEmptyTopEnds(data: bytes, i: nat, s: Scan)
    requires Inv(s) && NoEmptyTop(s)
    ensures Run(data, i, s) != Loop
    decreases Left(data, i), Rank(s.mode)
  {
    hide Step;
    if i < |data| && Step(s, data[i]).1 != ScanError {
      StepInv(s, data[i]);
      NoEmptyTopStep(s, data[i]);
      StepProgress(s, data[i]);
      var s' := Step(s, data[i]).0;
      NoEmptyTopEnds(data, i + s'.stepSize, s');
    }
  }

  const ZEROS := FRESH.(mode := BeginString)

  // After the zeros data[..i], with no other length digit read yet.
  lemma {:induction false} ZerosRun(data: bytes, i: nat)
    requires 0 < i <= |data| && forall j | 0 <= j < i :: data[j] == CH0
    ensures Run(data, i, ZEROS) == Loop <==> EmptyStringThenSpace(data)
    decreases |data| - i
  {
    hide Run, Step, NoEmptyTop;
    if i >= |data| {
      ZerosEnd(data, i);
    } else {
      var c := data[i];
      LengthSteps(ZEROS, c);
      if IsDigit(c) {
        var t := ZEROS.(stringLen := c - CH0);
        RunOnce(data, i, ZEROS, t, ScanBeginString);
        if c == CH0 {
          ZerosRun(data, i + 1);
        } else {
          LengthBegun(t);
          NoEmptyTopEnds(data, i + 1, t);
        }
      } else if c == COLON {
        RunOnce(data, i, ZEROS, ZEROS.(mode := InString), ScanInString);
        EmptyRun(data, i + 1);
      } else if c == CHE {
        ZerosShut(data, i);
      } else {
        RunFails(data, i, ZEROS);
      }
    }
  }

  lemma ZerosEnd(data: bytes, i: nat)
    requires i >= |data|
    ensures Run(data, i, ZEROS) != Loop
  {
  }

  lemma ZerosShut(data: bytes, i: nat)
    requires i < |data| && data[i] == CHE
    ensures Run(data, i, ZEROS) != Loop
  {
    var t := Step(ZEROS, CHE).0;
    assert t.failed && t.stepSize == 1;
    StepInv(ZEROS, CHE);
    RunOnce(data, i, ZEROS, t, ScanEnd);
    NoEmptyTopEnds(data, i + 1, t);
    hide Run;
  }

  lemma LengthBegun(s: Scan)
    requires s.mode == BeginString && s.stringLen > 0
    ensures NoEmptyTop(s)
  {
  }

  // After the colon of an empty string at top level: a blank is looked at for ever.
  lemma EmptyRun(data: bytes, i: nat)
    ensures Run(data, i, ZEROS.(mode := InString)) == Loop <==> i < |data| && IsSpace(data[i])
  {
    if i < |data| {
      var s1 := ZEROS.(mode := InString);
      var s2 := Step(s1, data[i]).0;
      var s3 := Step(s2, data[i]).0;
      assert Run(data, i, s1) == Run(data, i, s2) == Run(data, i, s3);
    }
  }

  /** checkValid runs for ever exactly on zeros, a colon and a blank. */
  lemma LoopExactly(data: bytes)
    ensures Check(data) == Loop <==> EmptyStringThenSpace(data)
  {
    if data != [] && Step(FRESH, data[0]).1 != ScanError {
      var s := Step(FRESH, data[0]).0;
      StepInv(FRESH, data[0]);
      if data[0] == CH0 {
        ZerosRun(data, 1);
      } else {
        NoEmptyTopEnds(data, 1, s);
      }
    }
  }

  /** checkValid terminates, in the sense that its loop stops after some number of iterations, exactly then. */
  lemma TerminatesExactly(data: bytes)
    ensures (exists k: nat :: !Running(data, 0, FRESH, k)) <==> !EmptyStringThenSpace(data)
  {
    LoopExactly(data);
    if Check(data) == Loop {
      forall k: nat ensures Running(data, 0, FRESH, k) {
        LoopNeverEnds(data, 0, FRESH, k);
      }
    } else {
      var k := OtherwiseEnds(data, 0, FRESH);
    }
  }
}
