/** The symmetric-NAT port predictor of pkg/nat/predict.go. */
module PortPrediction {
  import opened PortOrder

  const MIN_PORT: nat := 1024

  function InRange(port: int): int {
    if port > MAX_PORT || port < MIN_PORT then 0 else port
  }

  /** Consecutive samples differ by d throughout. */
  ghost predicate Progression(samples: seq<int>, d: int) {
    forall i :: 0 <= i < |samples| - 1 ==> samples[i + 1] - samples[i] == d
  }

  ghost predicate Predictable(samples: seq<int>) {
    |samples| >= 2 && exists d :: d != 0 && Progression(samples, d)
  }

  /** The step Analyze derives; 0 when there is none. */
  ghost function StepOf(samples: seq<int>): int {
    if |samples| >= 2 && Progression(samples, samples[1] - samples[0]) then samples[1] - samples[0] else 0
  }

  lemma StepOfProgression(samples: seq<int>)
    ensures StepOf(samples) != 0 <==> Predictable(samples)
    ensures StepOf(samples) != 0 ==> Progression(samples, StepOf(samples))
  {
    if Predictable(samples) {
      var d :| d != 0 && Progression(samples, d);
      assert samples[0 + 1] - samples[0] == d;
    }
  }

  /** The k-th next term of the progression. */
  function NextTerm(samples: seq<int>, step: int, k: int): int
    requires samples != []
  {
    samples[|samples| - 1] + step * k
  }

  function PredictionFor(samples: seq<int>, step: int, k: int): int {
    if step == 0 || samples == [] then 0 else InRange(NextTerm(samples, step, k))
  }

  class PortPredictor {
    var samples: seq<int>
    var step: int

    constructor ()
      ensures samples == [] && step == 0
    {
      samples, step := [], 0;
    }

    /** The part of Probe that follows a parsed response; a response without a
        mapped port is an error and changes nothing. */
    method Record(port: int) returns (ok: bool)
      modifies this
      ensures ok == (port != 0)
      ensures samples == (if ok then old(samples) + [port] else old(samples))
      ensures step == old(step)
    {
      if port == 0 {
        return false;
      }
      samples := samples + [port];
      return true;
    }

    method Analyze() returns (ok: bool)
      modifies this
      ensures samples == old(samples)
      ensures step == StepOf(samples)
      ensures ok <==> Predictable(samples)
    {
      StepOfProgression(samples);
      if |samples| < 2 {
        step := 0;
        return false;
      }
      var firstDelta := samples[1] - samples[0];
      var stable := true;
      var i := 2;
      while i < |samples|
        invariant 2 <= i <= |samples| && samples == old(samples) && step == old(step)
        invariant stable
        invariant forall k :: 0 <= k < i - 1 ==> samples[k + 1] - samples[k] == firstDelta
      {
        if samples[i] - samples[i - 1] != firstDelta {
          assert samples[(i - 1) + 1] - samples[i - 1] != firstDelta;
          stable := false;
          break;
        }
        i := i + 1;
      }
      if !stable || firstDelta == 0 {
        step := 0;
        return false;
      }
      step := firstDelta;
      return true;
    }

    method Predict() returns (port: int)
      ensures port == PredictionFor(samples, step, 1)
      ensures step != 0 && samples != [] && 1024 <= samples[|samples| - 1] + step <= 65535 ==>
                port == samples[|samples| - 1] + step
      ensures !(step != 0 && samples != [] && 1024 <= samples[|samples| - 1] + step <= 65535) ==> port == 0
    {
      if step == 0 || |samples| == 0 {
        return 0;
      }
      var next := samples[|samples| - 1] + step;
      if next > 65535 || next < 1024 {
        return 0;
      }
      return next;
    }

    method PredictForTarget(offset: int) returns (port: int)
      ensures port == PredictionFor(samples, step, offset)
      ensures step != 0 && samples != [] && 1024 <= samples[|samples| - 1] + step * offset <= 65535 ==>
                port == samples[|samples| - 1] + step * offset
      ensures !(step != 0 && samples != [] && 1024 <= samples[|samples| - 1] + step * offset <= 65535) ==> port == 0
    {
      if step == 0 || |samples| == 0 {
        return 0;
      }
      var next := samples[|samples| - 1] + step * offset;
      if next > 65535 || next < 1024 {
        return 0;
      }
      return next;
    }

    method Reset()
      modifies this
      ensures samples == [] && step == 0
    {
      samples, step := [], 0;
    }
  }

  // ------------------------------------------------------------ meaning

  /** One round: predict, suppose the NAT assigned that port, analyze again. */
  ghost function Round(samples: seq<int>): seq<int> {
    samples + [PredictionFor(samples, StepOf(samples), 1)]
  }

  ghost function Rounds(samples: seq<int>, k: nat): seq<int>
    decreases k
  {
    if k == 0 then samples else Rounds(Round(samples), k - 1)
  }

  /** A prediction that is in range continues the progression. */
  lemma RoundContinues(samples: seq<int>)
    requires Predictable(samples) && PredictionFor(samples, StepOf(samples), 1) != 0
    ensures Predictable(Round(samples)) && StepOf(Round(samples)) == StepOf(samples)
    ensures Round(samples)[|samples|] == NextTerm(samples, StepOf(samples), 1)
  {
    StepOfProgression(samples);
    var d, more := StepOf(samples), Round(samples);
    forall i | 0 <= i < |more| - 1 ensures more[i + 1] - more[i] == d {
      if i < |samples| - 1 {
        assert more[i + 1] == samples[i + 1] && more[i] == samples[i];
      }
    }
    assert more[0 + 1] - more[0] == d;
    assert Progression(more, d);
    StepOfProgression(more);
  }

  lemma Multiples(d: int, k: int)
    ensures d * 1 == d && d * 2 == d + d
    ensures d + d * (k - 1) == d * k
    ensures k >= 2 ==> if d >= 0 then d <= d + d <= d * k else d * k <= d + d <= d
  {
    if k >= 2 {
      if d >= 0 {
        assert d * 2 <= d * k;
      } else {
        assert d * k <= d * 2;
      }
    }
  }

  /** After one round the same port is one jump nearer. */
  lemma JumpAfterRound(samples: seq<int>, k: nat)
    requires Predictable(samples) && k >= 2
    requires PredictionFor(samples, StepOf(samples), 1) != 0 && PredictionFor(samples, StepOf(samples), k) != 0
    ensures PredictionFor(Round(samples), StepOf(samples), 1) != 0
    ensures PredictionFor(Round(samples), StepOf(samples), k - 1) == PredictionFor(samples, StepOf(samples), k)
  {
    RoundContinues(samples);
    NextTermAfter(samples, Round(samples), StepOf(samples), k);
  }

  lemma NextTermAfter(samples: seq<int>, more: seq<int>, d: int, k: nat)
    requires samples != [] && |more| == |samples| + 1 && more[|samples|] == NextTerm(samples, d, 1) && k >= 2
    ensures NextTerm(more, d, k - 1) == NextTerm(samples, d, k)
    ensures NextTerm(samples, d, 1) <= NextTerm(more, d, 1) <= NextTerm(samples, d, k)
            || NextTerm(samples, d, k) <= NextTerm(more, d, 1) <= NextTerm(samples, d, 1)
  {
    Multiples(d, k);
  }

  /** Jumping k destinations ahead is the same as k single-step rounds, whenever
      both the next port and the k-th next port are in range. */
  lemma {:induction false} JumpIsRounds(samples: seq<int>, k: nat)
    requires Predictable(samples) && k >= 1
    requires PredictionFor(samples, StepOf(samples), 1) != 0 && PredictionFor(samples, StepOf(samples), k) != 0
    ensures |Rounds(samples, k)| == |samples| + k
    ensures Predictable(Rounds(samples, k)) && StepOf(Rounds(samples, k)) == StepOf(samples)
    ensures Rounds(samples, k)[|samples| + k - 1] == PredictionFor(samples, StepOf(samples), k)
    decreases k
  {
    RoundContinues(samples);
    if k == 1 {
      assert Rounds(samples, 1) == Rounds(Round(samples), 0);
    } else {
      JumpAfterRound(samples, k);
      JumpIsRounds(Round(samples), k - 1);
    }
  }

  lemma NotPredictableMore(samples: seq<int>, x: int)
    requires |samples| >= 2 && !Predictable(samples)
    ensures !Predictable(samples + [x])
  {
    var more := samples + [x];
    if d :| d != 0 && Progression(more, d) {
      forall i | 0 <= i < |samples| - 1 ensures samples[i + 1] - samples[i] == d {
        assert more[i + 1] - more[i] == d;
      }
      assert Progression(samples, d);
    }
  }

  lemma StopsAtZero(samples: seq<int>)
    requires Predictable(samples) && samples[|samples| - 1] == 0
    ensures !Predictable(samples + [0])
  {
    var more := samples + [0];
    StepOfProgression(samples);
    StepOfProgression(more);
    assert more[0 + 1] - more[0] == StepOf(samples);
    assert more[(|samples| - 1) + 1] - more[|samples| - 1] == 0;
  }

  /** Once the rounds have recorded a refused prediction they only record more. */
  lemma {:induction false} ZeroForever(samples: seq<int>, k: nat)
    requires |samples| >= 2 && samples[|samples| - 1] == 0
    requires Predictable(samples) ==> StepOf(samples) < 0
    ensures var r := Rounds(samples, k); r != [] && r[|r| - 1] == 0
    decreases k
  {
    if k > 0 {
      StepOfProgression(samples);
      assert PredictionFor(samples, StepOf(samples), 1) == 0;
      if Predictable(samples) {
        StopsAtZero(samples);
      } else {
        NotPredictableMore(samples, 0);
      }
      ZeroForever(Round(samples), k - 1);
    }
  }

  lemma RefusedStaysRefused(samples: seq<int>, k: nat)
    requires Predictable(samples) && samples[|samples| - 1] > 0 && k >= 1
    requires PredictionFor(samples, StepOf(samples), 1) == 0
    ensures var r := Rounds(samples, k); r != [] && r[|r| - 1] == 0
  {
    var more := Round(samples);
    StepOfProgression(more);
    if Predictable(more) {
      assert more[(|samples| - 1) + 1] - more[|samples| - 1] == StepOf(more);
    }
    ZeroForever(more, k - 1);
  }

  /** A jump that leaves the range is also refused by the rounds. */
  lemma {:induction false} RefusedJump(samples: seq<int>, k: nat)
    requires Predictable(samples) && samples[|samples| - 1] > 0 && k >= 1
    requires PredictionFor(samples, StepOf(samples), k) == 0
    ensures var r := Rounds(samples, k); r != [] && r[|r| - 1] == 0
    decreases k
  {
    StepOfProgression(samples);
    if PredictionFor(samples, StepOf(samples), 1) == 0 {
      RefusedStaysRefused(samples, k);
    } else {
      RoundContinues(samples);
      NextTermAfter(samples, Round(samples), StepOf(samples), k);
      RefusedJump(Round(samples), k - 1);
    }
  }

  /** The rounds agree with the jump unless they are refused where it is not. */
  lemma JumpOrRounds(samples: seq<int>, k: nat)
    requires Predictable(samples) && samples[|samples| - 1] > 0 && k >= 1
    ensures Rounds(samples, k) != []
    ensures var r, d := Rounds(samples, k), StepOf(samples);
            r[|r| - 1] == PredictionFor(samples, d, k) <==>
            PredictionFor(samples, d, k) == 0 || PredictionFor(samples, d, 1) != 0
  {
    if PredictionFor(samples, StepOf(samples), k) == 0 {
      RefusedJump(samples, k);
    } else if PredictionFor(samples, StepOf(samples), 1) == 0 {
      RefusedStaysRefused(samples, k);
    } else {
      JumpIsRounds(samples, k);
    }
  }

  /** Of a progression that starts at a port, only the lower bound can refuse a
      step and not a jump. */
  lemma RefusedOnlyBelow(last: int, d: int, k: nat)
    requires ValidPort(last) && k >= 1
    ensures InRange(last + d * k) != 0 && InRange(last + d) == 0 <==> last + d < MIN_PORT <= last + d * k <= MAX_PORT
    ensures last >= MIN_PORT ==> !(last + d < MIN_PORT <= last + d * k)
  {
    Multiples(d, k);
  }

  /** For mapped ports, jumping k destinations ahead equals k rounds of
      append-the-prediction and analyze-again if and only if it is not the case
      that the next port lies below 1024 and the k-th next is back in range.
      In particular they agree whenever the last port is at least 1024. */
  lemma JumpIsRoundsIff(samples: seq<int>, k: nat)
    requires Predictable(samples) && ValidPort(samples[|samples| - 1]) && k >= 1
    ensures Rounds(samples, k) != []
    ensures var r, last, d := Rounds(samples, k), samples[|samples| - 1], StepOf(samples);
            && (r[|r| - 1] == PredictionFor(samples, d, k) <==> !(last + d < MIN_PORT <= last + d * k <= MAX_PORT))
            && (last >= MIN_PORT ==> r[|r| - 1] == PredictionFor(samples, d, k))
  {
    StepOfProgression(samples);
    JumpOrRounds(samples, k);
    RefusedOnlyBelow(samples[|samples| - 1], StepOf(samples), k);
    Multiples(StepOf(samples), k);
  }

  /** A concrete progression on which jump and rounds differ. */
  lemma JumpWithoutRounds()
    ensures var samples := [988, 1000];
            && Predictable(samples) && StepOf(samples) == 12
            && PredictionFor(samples, 12, 1) == 0 && PredictionFor(samples, 12, 3) == 1036
            && !Predictable(Round(samples))
  {
    var samples := [988, 1000];
    assert Progression(samples, 12);
    var more := Round(samples);
    assert more == [988, 1000, 0];
    assert more[1 + 1] - more[1] != more[1] - more[0];
    StepOfProgression(more);
  }
}
