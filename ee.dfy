/** The Equilibrium-Expectation controller: Algorithm S (statistics-only
    sampling from theta = 0, giving a starting theta and the derivative
    scale D0) and Algorithm EE (committing sampling in an outer/inner double
    loop with an accumulating discrepancy dzA and a variance-limiting
    rescale of D0).

    Values are reals; exp, sqrt and mean_and_sd are uninterpreted function
    parameters. */
module EquilibriumExpectation {
  import opened Graphs
  import opened Wrappers
  import opened Sampler

  /** The numeric collaborators: exp (acceptance), sqrt (rescale) and
      mean_and_sd (mean and standard deviation of a sequence). */
  datatype Numerics = Numerics(exp: real -> real, sqrt: real -> real, meanAndSd: seq<real> -> (real, real))

  /** What one sampler batch hands back to the controller. */
  datatype Batch = Batch(add: seq<real>, del: seq<real>)

  /** Every batch has n entries per accumulator. */
  predicate BatchesSized(bs: seq<Batch>, n: nat)
  {
    forall k :: 0 <= k < |bs| ==> |bs[k].add| == n && |bs[k].del| == n
  }

  function Abs(x: real): real
  {
    if x < 0.0 then -x else x
  }

  // ---------------------------------------------------------------------
  // Algorithm S
  // ---------------------------------------------------------------------

  /** Real multiplication, named so that the solver treats each product as
      a unit; its sign facts are the lemmas below. */
  function Mul(a: real, b: real): real
  {
    a * b
  }

  lemma MulPositive(a: real, b: real)
    requires a > 0.0 && b > 0.0
    ensures Mul(a, b) > 0.0
  {
  }

  lemma MulNonNegative(a: real, b: real)
    requires a >= 0.0 && b >= 0.0
    ensures Mul(a, b) >= 0.0
  {
  }

  lemma MulNegNeg(a: real, b: real)
    ensures Mul(-a, -b) == Mul(a, b)
  {
  }

  /** A square is never negative, and positive unless its root is 0. */
  lemma SquareSign(x: real)
    ensures Mul(x, x) >= 0.0
    ensures x != 0.0 ==> Mul(x, x) > 0.0
  {
    if x > 0.0 {
      MulPositive(x, x);
    } else if x < 0.0 {
      MulPositive(-x, -x);
      MulNegNeg(x, x);
    }
  }

  lemma PositiveQuotient(a: real, b: real)
    requires a > 0.0 && b > 0.0
    ensures a / b > 0.0
  {
  }

  /** The Algorithm S step of one parameter: with dz = del - add and
      sum = add + del, da = ACA / sum^2 (0 when sum is 0) and the step is
      sign(dz) * da * dz^2. */
  function SStep(add: real, del: real, aca: real): (r: real)
    ensures add + del == 0.0 || del == add ==> r == 0.0
  {
    var dz := del - add;
    var sum := add + del;
    var da := if sum != 0.0 then SquareSign(sum); aca / Mul(sum, sum) else 0.0;
    (if dz < 0.0 then -1.0 else 1.0) * Mul(da, Mul(dz, dz))
  }

  /** With a positive ACA and a non-zero sum, the Algorithm S step moves theta
      in the direction of del - add: when proposals that add arcs changed
      the statistic more than those that delete them, theta goes down, and
      vice versa. */
  lemma SStepFollowsDiscrepancy(add: real, del: real, aca: real)
    requires aca > 0.0 && add + del != 0.0
    ensures del > add ==> SStep(add, del, aca) > 0.0
    ensures del < add ==> SStep(add, del, aca) < 0.0
  {
    SquareSign(add + del);
    PositiveQuotient(aca, Mul(add + del, add + del));
    if del != add {
      SquareSign(del - add);
      MulPositive(aca / Mul(add + del, add + del), Mul(del - add, del - add));
    }
  }

  /** theta after one Algorithm S step. */
  function SUpdateTheta(theta: seq<real>, b: Batch, aca: real): (r: seq<real>)
    requires |b.add| == |theta| && |b.del| == |theta|
    ensures |r| == |theta|
  {
    seq(|theta|, l requires 0 <= l < |theta| => theta[l] + SStep(b.add[l], b.del[l], aca))
  }

  /** The squared-discrepancy accumulator D0 after one Algorithm S step. */
  function SUpdateD0(d0: seq<real>, b: Batch): (r: seq<real>)
    requires |b.add| == |d0| && |b.del| == |d0|
    ensures |r| == |d0|
  {
    seq(|d0|, l requires 0 <= l < |d0| => d0[l] + Mul(b.del[l] - b.add[l], b.del[l] - b.add[l]))
  }

  /** theta after the Algorithm S steps bs, starting from all zeros. */
  function SThetas(n: nat, bs: seq<Batch>, aca: real): (r: seq<real>)
    requires BatchesSized(bs, n)
    decreases |bs|
    ensures |r| == n
  {
    if bs == [] then Zeros(n)
    else SUpdateTheta(SThetas(n, bs[..|bs| - 1], aca), bs[|bs| - 1], aca)
  }

  /** D0 after the Algorithm S steps bs, starting from all zeros: the sum of
      the squared discrepancies. It never becomes negative. */
  function SD0(n: nat, bs: seq<Batch>): (r: seq<real>)
    requires BatchesSized(bs, n)
    decreases |bs|
    ensures |r| == n
  {
    if bs == [] then Zeros(n)
    else SUpdateD0(SD0(n, bs[..|bs| - 1]), bs[|bs| - 1])
  }

  /** The last step of SD0 adds the squared discrepancy of its batch, which
      is not negative. */
  lemma SD0Last(n: nat, bs: seq<Batch>, l: nat)
    requires BatchesSized(bs, n) && bs != [] && l < n
    ensures BatchesSized(bs[..|bs| - 1], n)
    ensures SD0(n, bs)[l] == SD0(n, bs[..|bs| - 1])[l] + Mul(bs[|bs| - 1].del[l] - bs[|bs| - 1].add[l], bs[|bs| - 1].del[l] - bs[|bs| - 1].add[l])
    ensures Mul(bs[|bs| - 1].del[l] - bs[|bs| - 1].add[l], bs[|bs| - 1].del[l] - bs[|bs| - 1].add[l]) >= 0.0
  {
    var b := bs[|bs| - 1];
    var pre := bs[..|bs| - 1];
    forall k | 0 <= k < |pre|
      ensures |pre[k].add| == n && |pre[k].del| == n
    {
      assert pre[k] == bs[k];
    }
    var d := SD0(n, pre);
    var sq := Mul(b.del[l] - b.add[l], b.del[l] - b.add[l]);
    assert SD0(n, bs) == SUpdateD0(d, b);
    assert SUpdateD0(d, b)[l] == d[l] + sq;
    SquareSign(b.del[l] - b.add[l]);
  }

  /** D0 never becomes negative. */
  lemma {:induction false} SD0NonNegative(n: nat, bs: seq<Batch>, l: nat)
    requires BatchesSized(bs, n) && l < n
    ensures SD0(n, bs)[l] >= 0.0
    decreases |bs|
  {
    if bs != [] {
      SD0Last(n, bs, l);
      SD0NonNegative(n, bs[..|bs| - 1], l);
    }
  }

  /** D0 only gains squares: every further step leaves each entry at least
      as large as before. */
  lemma {:induction false} SD0Grows(n: nat, bs: seq<Batch>, extra: seq<Batch>, l: nat)
    requires BatchesSized(bs + extra, n) && l < n
    ensures BatchesSized(bs, n)
    ensures SD0(n, bs + extra)[l] >= SD0(n, bs)[l]
    decreases |extra|
  {
    assert forall k :: 0 <= k < |bs| ==> bs[k] == (bs + extra)[k];
    if extra != [] {
      var shorter := extra[..|extra| - 1];
      assert (bs + extra)[..|bs + extra| - 1] == bs + shorter;
      assert BatchesSized(bs + shorter, n) by {
        forall k | 0 <= k < |bs + shorter|
          ensures |(bs + shorter)[k].add| == n && |(bs + shorter)[k].del| == n
        {
          assert (bs + shorter)[k] == (bs + extra)[k];
        }
      }
      SD0Grows(n, bs, shorter, l);
      SD0Last(n, bs + extra, l);
    } else {
      assert bs + extra == bs;
    }
  }

  /** An entry of D0 is zero exactly when no step so far had a discrepancy
      for that parameter; then Dmean = sampler_m / D0 is undefined. */
  lemma {:induction false} SD0ZeroIffNoDiscrepancy(n: nat, bs: seq<Batch>, l: nat)
    requires BatchesSized(bs, n) && l < n
    ensures SD0(n, bs)[l] == 0.0 <==> forall k :: 0 <= k < |bs| ==> bs[k].del[l] == bs[k].add[l]
    decreases |bs|
  {
    if bs != [] {
      var pre := bs[..|bs| - 1];
      var b := bs[|bs| - 1];
      assert BatchesSized(pre, n);
      SD0ZeroIffNoDiscrepancy(n, pre, l);
      SD0Last(n, bs, l);
      SD0NonNegative(n, pre, l);
      SquareSign(b.del[l] - b.add[l]);
      assert forall k :: 0 <= k < |pre| ==> pre[k] == bs[k];
    }
  }

  // ---------------------------------------------------------------------
  // Algorithm EE
  // ---------------------------------------------------------------------

  /** The Algorithm EE step of one parameter: da = D0 * ACA and the step is
      -sign(dzA) * da * dzA^2, with dzA the running discrepancy. */
  function EEStep(d0: real, aca: real, dzA: real): (r: real)
    ensures dzA == 0.0 ==> r == 0.0
  {
    (if dzA < 0.0 then 1.0 else -1.0) * Mul(Mul(d0, aca), Mul(dzA, dzA))
  }

  /** With D0 * ACA >= 0 the EE step pushes theta against the running
      discrepancy: never down while the statistics run below the observed
      ones (dzA < 0), never up otherwise; strictly so when D0 * ACA > 0 and
      dzA is not zero. */
  lemma EEStepOpposesDiscrepancy(d0: real, aca: real, dzA: real)
    requires Mul(d0, aca) >= 0.0
    ensures dzA < 0.0 ==> EEStep(d0, aca, dzA) >= 0.0
    ensures dzA >= 0.0 ==> EEStep(d0, aca, dzA) <= 0.0
    ensures Mul(d0, aca) > 0.0 && dzA > 0.0 ==> EEStep(d0, aca, dzA) < 0.0
    ensures Mul(d0, aca) > 0.0 && dzA < 0.0 ==> EEStep(d0, aca, dzA) > 0.0
  {
    SquareSign(dzA);
    MulNonNegative(Mul(d0, aca), Mul(dzA, dzA));
    if Mul(d0, aca) > 0.0 && dzA != 0.0 {
      MulPositive(Mul(d0, aca), Mul(dzA, dzA));
    }
  }

  /** The controller state Algorithm EE carries: theta, dzA and D0. */
  datatype EEState = EEState(theta: seq<real>, dzA: seq<real>, d0: seq<real>)
  {
    predicate Sized(n: nat)
    {
      |theta| == n && |dzA| == n && |d0| == n
    }
  }

  /** One inner iteration after its sampler batch: dzA accumulates
      add - del, then theta takes the EE step; D0 is untouched. */
  function InnerStep(s: EEState, b: Batch, aca: real): (r: EEState)
    requires s.Sized(|s.theta|) && |b.add| == |s.theta| && |b.del| == |s.theta|
    ensures r.Sized(|s.theta|) && r.d0 == s.d0
  {
    var n := |s.theta|;
    var dzA := seq(n, l requires 0 <= l < n => s.dzA[l] + (b.add[l] - b.del[l]));
    EEState(seq(n, l requires 0 <= l < n => s.theta[l] + EEStep(s.d0[l], aca, dzA[l])), dzA, s.d0)
  }

  /** The state after the inner iterations bs. */
  function InnerRun(s: EEState, bs: seq<Batch>, aca: real): (r: EEState)
    requires s.Sized(|s.theta|) && BatchesSized(bs, |s.theta|)
    decreases |bs|
    ensures r.Sized(|s.theta|) && r.d0 == s.d0
  {
    if bs == [] then s
    else InnerStep(InnerRun(s, bs[..|bs| - 1], aca), bs[|bs| - 1], aca)
  }

  /** theta after each of the inner iterations bs: what thetamatrix records. */
  function Trajectory(s: EEState, bs: seq<Batch>, aca: real): (r: seq<seq<real>>)
    requires s.Sized(|s.theta|) && BatchesSized(bs, |s.theta|)
    decreases |bs|
    ensures |r| == |bs|
    ensures forall k :: 0 <= k < |bs| ==> |r[k]| == |s.theta|
  {
    if bs == [] then []
    else Trajectory(s, bs[..|bs| - 1], aca) + [InnerRun(s, bs, aca).theta]
  }

  /** The trajectory of parameter l. */
  function Column(traj: seq<seq<real>>, l: nat): (r: seq<real>)
    requires forall k :: 0 <= k < |traj| ==> l < |traj[k]|
    ensures |r| == |traj|
  {
    seq(|traj|, k requires 0 <= k < |traj| => traj[k][l])
  }

  /** Entry k of the trajectory is theta after exactly k + 1 inner iterations. */
  lemma {:induction false} TrajectoryAt(s: EEState, bs: seq<Batch>, aca: real, k: nat)
    requires s.Sized(|s.theta|) && BatchesSized(bs, |s.theta|) && k < |bs|
    ensures BatchesSized(bs[..k + 1], |s.theta|)
    ensures Trajectory(s, bs, aca)[k] == InnerRun(s, bs[..k + 1], aca).theta
    decreases |bs|
  {
    assert forall m :: 0 <= m < k + 1 ==> bs[..k + 1][m] == bs[m];
    if k < |bs| - 1 {
      var pre := bs[..|bs| - 1];
      assert BatchesSized(pre, |s.theta|);
      TrajectoryAt(s, pre, aca, k);
      assert pre[..k + 1] == bs[..k + 1];
    } else {
      assert bs[..k + 1] == bs;
    }
  }

  /** The mean is forced to magnitude at least 0.1. */
  function ClampMean(mean: real): (r: real)
    ensures Abs(r) >= 0.1
    ensures Abs(mean) >= 0.1 ==> r == mean
    ensures Abs(mean) < 0.1 ==> r == 0.1
  {
    if Abs(mean) < 0.1 then 0.1 else mean
  }

  /** The variance threshold below which D0 is not rescaled. */
  const SdThreshold: real := 0.0000000001

  /** One parameter's D0 rescale at the end of an outer iteration. */
  function RescaledD0(d0: real, mean: real, sd: real, compC: real, sqrt: real -> real): (r: real)
    ensures sd <= SdThreshold ==> r == d0
    ensures sd > SdThreshold ==> r == d0 * sqrt(compC / (sd / Abs(ClampMean(mean))))
  {
    var m := ClampMean(mean);
    if sd > SdThreshold then d0 * sqrt(compC / (sd / Abs(m))) else d0
  }

  /** The standard deviation mean_and_sd gives for parameter l's trajectory
      is not negative (the source asserts this). */
  predicate SdOk(traj: seq<seq<real>>, l: nat, num: Numerics)
    requires forall k :: 0 <= k < |traj| ==> l < |traj[k]|
  {
    num.meanAndSd(Column(traj, l)).1 >= 0.0
  }

  /** The end-of-outer-iteration rescale of D0 from the inner trajectory;
      None when an assertion on a standard deviation fails. */
  function RescaleAll(d0: seq<real>, traj: seq<seq<real>>, compC: real, num: Numerics): (r: Option<seq<real>>)
    requires forall k :: 0 <= k < |traj| ==> |traj[k]| == |d0|
    ensures r.Some? <==> forall l :: 0 <= l < |d0| ==> SdOk(traj, l, num)
    ensures r.Some? ==> |r.value| == |d0|
    ensures r.Some? ==>
              forall l :: 0 <= l < |d0| ==>
                r.value[l] == RescaledD0(d0[l], num.meanAndSd(Column(traj, l)).0, num.meanAndSd(Column(traj, l)).1,
                                         compC, num.sqrt)
  {
    if forall l :: 0 <= l < |d0| ==> SdOk(traj, l, num) then
      Some(seq(|d0|, l requires 0 <= l < |d0| =>
        RescaledD0(d0[l], num.meanAndSd(Column(traj, l)).0, num.meanAndSd(Column(traj, l)).1, compC, num.sqrt)))
    else None
  }

  /** One outer iteration: the inner iterations bs, then the rescale. */
  function OuterStep(s: EEState, bs: seq<Batch>, aca: real, compC: real, num: Numerics): (r: Option<EEState>)
    requires s.Sized(|s.theta|) && BatchesSized(bs, |s.theta|)
    ensures r.Some? ==> r.value.Sized(|s.theta|)
  {
    var inner := InnerRun(s, bs, aca);
    match RescaleAll(inner.d0, Trajectory(s, bs, aca), compC, num)
    case None => None
    case Some(d) => Some(EEState(inner.theta, inner.dzA, d))
  }

  predicate GroupsSized(groups: seq<seq<Batch>>, n: nat)
  {
    forall k :: 0 <= k < |groups| ==> BatchesSized(groups[k], n)
  }

  /** Algorithm EE over the outer iterations `groups` (one inner batch
      sequence each); None once an assertion has failed. */
  function EERun(s: EEState, groups: seq<seq<Batch>>, aca: real, compC: real, num: Numerics): (r: Option<EEState>)
    requires s.Sized(|s.theta|) && GroupsSized(groups, |s.theta|)
    decreases |groups|
    ensures r.Some? ==> r.value.Sized(|s.theta|)
  {
    if groups == [] then Some(s)
    else
      match EERun(s, groups[..|groups| - 1], aca, compC, num)
      case None => None
      case Some(prev) => OuterStep(prev, groups[|groups| - 1], aca, compC, num)
  }

  /** The sum of add - del over the batches bs. */
  function DzSum(bs: seq<Batch>, n: nat): (r: seq<real>)
    requires BatchesSized(bs, n)
    decreases |bs|
    ensures |r| == n
  {
    if bs == [] then Zeros(n)
    else
      var prev := DzSum(bs[..|bs| - 1], n);
      var b := bs[|bs| - 1];
      seq(n, l requires 0 <= l < n => prev[l] + (b.add[l] - b.del[l]))
  }

  function Flatten(groups: seq<seq<Batch>>): seq<Batch>
    decreases |groups|
  {
    if groups == [] then [] else Flatten(groups[..|groups| - 1]) + groups[|groups| - 1]
  }

  /** Inner iterations add every batch's add - del to dzA. */
  lemma {:induction false} InnerRunAccumulates(s: EEState, bs: seq<Batch>, aca: real)
    requires s.Sized(|s.theta|) && BatchesSized(bs, |s.theta|)
    ensures InnerRun(s, bs, aca).dzA == VecAdd(s.dzA, DzSum(bs, |s.theta|))
    decreases |bs|
  {
    var n := |s.theta|;
    if bs != [] {
      var pre := bs[..|bs| - 1];
      assert BatchesSized(pre, n);
      InnerRunAccumulates(s, pre, aca);
    } else {
      assert VecAdd(s.dzA, Zeros(n)) == s.dzA;
    }
  }

  lemma {:induction false} DzSumAppend(a: seq<Batch>, b: seq<Batch>, n: nat)
    requires BatchesSized(a, n) && BatchesSized(b, n)
    ensures BatchesSized(a + b, n)
    ensures DzSum(a + b, n) == VecAdd(DzSum(a, n), DzSum(b, n))
    decreases |b|
  {
    assert forall k :: 0 <= k < |a| ==> (a + b)[k] == a[k];
    assert forall k :: 0 <= k < |b| ==> (a + b)[|a| + k] == b[k];
    if b == [] {
      assert a + b == a;
      assert VecAdd(DzSum(a, n), Zeros(n)) == DzSum(a, n);
    } else {
      var pre := b[..|b| - 1];
      assert BatchesSized(pre, n);
      DzSumAppend(a, pre, n);
      assert (a + b)[..|a + b| - 1] == a + pre;
    }
  }

  lemma {:induction false} FlattenSized(groups: seq<seq<Batch>>, n: nat)
    requires GroupsSized(groups, n)
    ensures BatchesSized(Flatten(groups), n)
    decreases |groups|
  {
    if groups != [] {
      var pre := groups[..|groups| - 1];
      assert GroupsSized(pre, n);
      FlattenSized(pre, n);
      assert BatchesSized(groups[|groups| - 1], n);
      DzSumAppend(Flatten(pre), groups[|groups| - 1], n);
    }
  }

  /** dzA is never reset between outer iterations: at every point it is the
      starting dzA plus add - del summed over every batch so far. */
  lemma {:induction false} EERunAccumulates(s: EEState, groups: seq<seq<Batch>>, aca: real, compC: real,
                                            num: Numerics)
    requires s.Sized(|s.theta|) && GroupsSized(groups, |s.theta|)
    ensures BatchesSized(Flatten(groups), |s.theta|)
    ensures EERun(s, groups, aca, compC, num).Some? ==>
              EERun(s, groups, aca, compC, num).value.dzA == VecAdd(s.dzA, DzSum(Flatten(groups), |s.theta|))
    decreases |groups|
  {
    var n := |s.theta|;
    FlattenSized(groups, n);
    if groups == [] {
      assert VecAdd(s.dzA, Zeros(n)) == s.dzA;
    } else {
      var pre := groups[..|groups| - 1];
      var last := groups[|groups| - 1];
      assert GroupsSized(pre, n);
      EERunAccumulates(s, pre, aca, compC, num);
      match EERun(s, pre, aca, compC, num)
      case None =>
      case Some(prev) =>
        InnerRunAccumulates(prev, last, aca);
        FlattenSized(pre, n);
        DzSumAppend(Flatten(pre), last, n);
        assert VecAdd(VecAdd(s.dzA, DzSum(Flatten(pre), n)), DzSum(last, n)) ==
               VecAdd(s.dzA, VecAdd(DzSum(Flatten(pre), n), DzSum(last, n)));
    }
  }

  // ---------------------------------------------------------------------
  // Output schedule of Algorithm EE
  // ---------------------------------------------------------------------

  /** The row indices written during the first k inner iterations of an
      outer iteration whose first row index is `base`. */
  function InnerRows(base: nat, k: nat, outputAllSteps: bool): seq<nat>
    decreases k
  {
    if k == 0 then []
    else InnerRows(base, k - 1, outputAllSteps) + (if outputAllSteps || k - 1 == 0 then [base + k - 1] else [])
  }

  /** The row indices written during mOuter complete outer iterations. */
  function OuterRows(mOuter: nat, mInner: nat, outputAllSteps: bool): seq<nat>
    decreases mOuter
  {
    if mOuter == 0 then []
    else OuterRows(mOuter - 1, mInner, outputAllSteps) + InnerRows((mOuter - 1) * mInner, mInner, outputAllSteps)
  }

  lemma {:induction false} InnerRowCount(base: nat, k: nat, outputAllSteps: bool)
    ensures |InnerRows(base, k, outputAllSteps)| == if outputAllSteps then k else if k > 0 then 1 else 0
    decreases k
  {
    if k > 0 {
      InnerRowCount(base, k - 1, outputAllSteps);
    }
  }

  /** Mouter * Minner rows with outputAllSteps, otherwise one per outer
      iteration (none when the inner loop is empty). */
  lemma {:induction false} RowCount(mOuter: nat, mInner: nat, outputAllSteps: bool)
    ensures |OuterRows(mOuter, mInner, outputAllSteps)| ==
              if outputAllSteps then mOuter * mInner else if mInner > 0 then mOuter else 0
    decreases mOuter
  {
    if mOuter > 0 {
      RowCount(mOuter - 1, mInner, outputAllSteps);
      InnerRowCount((mOuter - 1) * mInner, mInner, outputAllSteps);
      assert (mOuter - 1) * mInner + mInner == mOuter * mInner;
    }
  }

  /** Within an outer iteration the row of inner step k (index base + k) is
      written exactly when outputAllSteps holds or k is 0. */
  lemma {:induction false} InnerRowsExactly(base: nat, k: nat, outputAllSteps: bool, x: nat)
    ensures x in InnerRows(base, k, outputAllSteps) <==>
              base <= x < base + k && (outputAllSteps || x == base)
    decreases k
  {
    if k > 0 {
      InnerRowsExactly(base, k - 1, outputAllSteps, x);
    }
  }

  // ---------------------------------------------------------------------
  // The controller methods
  // ---------------------------------------------------------------------

  /** How a controller run ends: normally, because the sampler stopped,
      because some D0 entry of Algorithm S is zero (so Dmean = sampler_m / D0
      has no real value), or because a standard deviation was negative. */
  datatype Outcome = Finished | Stopped(why: Status) | UndefinedDmean | NegativeSd

  /** The draws of sampler call t; a call beyond the supplied ones has none. */
  function OracleAt(oracles: seq<Oracle>, t: nat): Oracle
  {
    if t < |oracles| then oracles[t] else Oracle([], [])
  }

  /** Every supplied batch of draws is in range for the selection mode. */
  predicate OraclesInRange(oracles: seq<Oracle>, snowball: bool, d: Design)
  {
    forall t :: 0 <= t < |oracles| ==> PicksInRange(oracles[t].picks, snowball, d)
  }

  /** The per-parameter loop of one Algorithm S step. */
  method SUpdate(theta: array<real>, d0: array<real>, add: array<real>, del: array<real>, aca: real)
    requires d0.Length == theta.Length && add.Length == theta.Length && del.Length == theta.Length
    requires theta != d0 && theta != add && theta != del && d0 != add && d0 != del
    modifies theta, d0
    ensures theta[..] == SUpdateTheta(old(theta[..]), Batch(add[..], del[..]), aca)
    ensures d0[..] == SUpdateD0(old(d0[..]), Batch(add[..], del[..]))
  {
    var n := theta.Length;
    for l := 0 to n
      invariant forall k :: 0 <= k < l ==> theta[k] == old(theta[k]) + SStep(add[k], del[k], aca)
      invariant forall k :: l <= k < n ==> theta[k] == old(theta[k])
      invariant forall k :: 0 <= k < l ==> d0[k] == old(d0[k]) + Mul(del[k] - add[k], del[k] - add[k])
      invariant forall k :: l <= k < n ==> d0[k] == old(d0[k])
    {
      var dz := del[l] - add[l];
      var sum := add[l] + del[l];
      d0[l] := d0[l] + Mul(dz, dz);
      var da := 0.0;
      if sum < 0.0 || sum > 0.0 {
        SquareSign(sum);
        da := aca / Mul(sum, sum);
      }
      var step := (if dz < 0.0 then -1.0 else 1.0) * Mul(da, Mul(dz, dz));
      theta[l] := theta[l] + step;
    }
  }

  /** The sampler configuration of an Algorithm S step: no moves. */
  function SConfig(theta: seq<real>, effects: Effects, conditional: bool, forbidReciprocity: bool): SamplerConfig
  {
    SamplerConfig(theta, effects, false, conditional, forbidReciprocity)
  }

  /** Step k of Algorithm S ran the sampler for sampler_m proposals from the
      graph arcs0 with the theta of the first k steps, and its batch holds
      that run's add and delete sums. */
  predicate SHistory(arcs0: set<Arc>, d: Design, effects: Effects, conditional: bool, forbidReciprocity: bool,
                     samplerM: nat, oracles: seq<Oracle>, exp: real -> real, aca: real,
                     batches: seq<Batch>, traces: seq<seq<Proposal>>)
  {
    BatchesSized(batches, effects.Count()) && |traces| == |batches| &&
    forall k :: 0 <= k < |batches| ==>
      var cfg := SConfig(SThetas(effects.Count(), batches[..k], aca), effects, conditional, forbidReciprocity);
      cfg.Valid() && |traces[k]| == samplerM && Sized(traces[k], effects.Count()) &&
      ValidTrace(arcs0, traces[k], cfg, d, OracleAt(oracles, k), exp) &&
      batches[k] == Batch(AddSum(traces[k], effects.Count()), DelSum(traces[k], effects.Count()))
  }

  lemma SHistoryExtend(arcs0: set<Arc>, d: Design, effects: Effects, conditional: bool, forbidReciprocity: bool,
                       samplerM: nat, oracles: seq<Oracle>, exp: real -> real, aca: real,
                       batches: seq<Batch>, traces: seq<seq<Proposal>>, trace: seq<Proposal>)
    requires effects.Valid()
    requires SHistory(arcs0, d, effects, conditional, forbidReciprocity, samplerM, oracles, exp, aca, batches, traces)
    requires |trace| == samplerM && Sized(trace, effects.Count())
    requires ValidTrace(arcs0, trace, SConfig(SThetas(effects.Count(), batches, aca), effects, conditional,
                                              forbidReciprocity), d, OracleAt(oracles, |batches|), exp)
    ensures SHistory(arcs0, d, effects, conditional, forbidReciprocity, samplerM, oracles, exp, aca,
                     batches + [Batch(AddSum(trace, effects.Count()), DelSum(trace, effects.Count()))],
                     traces + [trace])
  {
    var b := Batch(AddSum(trace, effects.Count()), DelSum(trace, effects.Count()));
    StepRecorded(effects.Count(), batches, b, aca);
  }

  /** One Algorithm S step: a statistics-only sampler run with the current
      theta, then the S update of theta and D0. */
  method SStepOnce(g: Digraph, effects: Effects, samplerM: nat, aca: real,
                   theta: array<real>, d0: array<real>, addS: array<real>, delS: array<real>,
                   conditional: bool, forbidReciprocity: bool, o: Oracle, exp: real -> real)
    returns (status: Status, ghost trace: seq<Proposal>)
    requires g.Valid() && effects.Valid() && PicksInRange(o.picks, conditional, g.design)
    requires theta.Length == effects.Count() && d0.Length == theta.Length
    requires addS.Length == theta.Length && delS.Length == theta.Length
    requires theta != d0 && theta != addS && theta != delS && d0 != addS && d0 != delS && addS != delS
    modifies g, theta, d0, addS, delS
    ensures g.Valid() && g.arcs == old(g.arcs)
    ensures SamplerRun(old(g.arcs), trace, status, samplerM,
                       SConfig(old(theta[..]), effects, conditional, forbidReciprocity), g.design, o, exp)
    ensures status == Completed ==>
              |trace| == samplerM && Sized(trace, theta.Length) &&
              ValidTrace(old(g.arcs), trace, SConfig(old(theta[..]), effects, conditional, forbidReciprocity),
                         g.design, o, exp) &&
              var b := Batch(AddSum(trace, theta.Length), DelSum(trace, theta.Length));
              theta[..] == SUpdateTheta(old(theta[..]), b, aca) && d0[..] == SUpdateD0(old(d0[..]), b)
    ensures status != Completed ==> theta[..] == old(theta[..]) && d0[..] == old(d0[..])
  {
    var cfg := SConfig(theta[..], effects, conditional, forbidReciprocity);
    var accepted, rate;
    status, accepted, rate, trace := BasicSampler(g, cfg, samplerM, o, exp, addS, delS);
    NoMoveLeavesGraphUnchanged(old(g.arcs), trace);
    if status == Completed {
      SUpdate(theta, d0, addS, delS, aca);
    }
  }

  /** Dmean = sampler_m / D0, parameter by parameter; false at the first
      zero D0 entry. */
  method ComputeDmean(d0: array<real>, dmean: array<real>, samplerM: nat) returns (ok: bool)
    requires dmean.Length == d0.Length && dmean != d0
    requires forall l :: 0 <= l < d0.Length ==> d0[l] >= 0.0
    modifies dmean
    ensures ok <==> forall l :: 0 <= l < d0.Length ==> d0[l] > 0.0
    ensures ok ==> forall l :: 0 <= l < d0.Length ==> dmean[l] == samplerM as real / d0[l]
  {
    for l := 0 to d0.Length
      invariant forall k :: 0 <= k < l ==> d0[k] > 0.0 && dmean[k] == samplerM as real / d0[k]
    {
      if d0[l] == 0.0 {
        return false;
      }
      dmean[l] := samplerM as real / d0[l];
    }
    return true;
  }

  /** The m1 Algorithm S iterations of algorithm_S, each a sampler run
      followed by the theta and D0 updates; the loop stops at the first
      sampler run that does not complete. */
  method SBatches(g: Digraph, effects: Effects, m1: nat, samplerM: nat, aca: real,
                  theta: array<real>, d0: array<real>, addS: array<real>, delS: array<real>,
                  conditional: bool, forbidReciprocity: bool, oracles: seq<Oracle>, exp: real -> real)
    returns (status: Status, rows: seq<int>, ghost batches: seq<Batch>, ghost traces: seq<seq<Proposal>>,
             ghost stopTrace: seq<Proposal>)
    requires g.Valid() && effects.Valid()
    requires theta.Length == effects.Count() && d0.Length == theta.Length
    requires addS.Length == theta.Length && delS.Length == theta.Length
    requires theta != d0 && addS != delS
    requires theta != addS && theta != delS && d0 != addS && d0 != delS
    requires theta[..] == Zeros(theta.Length) && d0[..] == Zeros(theta.Length)
    requires OraclesInRange(oracles, conditional, g.design)
    modifies g, theta, d0, addS, delS
    ensures g.Valid() && g.arcs == old(g.arcs)
    ensures BatchesSized(batches, theta.Length) && |batches| <= m1
    ensures status == Completed <==> |batches| == m1
    ensures SHistory(old(g.arcs), g.design, effects, conditional, forbidReciprocity, samplerM, oracles, exp, aca,
                     batches, traces)
    ensures theta[..] == SThetas(theta.Length, batches, aca) && d0[..] == SD0(theta.Length, batches)
    ensures |rows| == |batches| && forall k :: 0 <= k < |rows| ==> rows[k] == k - m1
    ensures status != Completed ==>
              SamplerRun(old(g.arcs), stopTrace, status, samplerM,
                         SConfig(SThetas(theta.Length, batches, aca), effects, conditional, forbidReciprocity),
                         g.design, OracleAt(oracles, |batches|), exp)
  {
    var n := theta.Length;
    batches, traces, rows, stopTrace := [], [], [], [];
    status := Completed;
    var t := 0;
    while t < m1
      invariant 0 <= t <= m1 && |batches| == t && |rows| == t
      invariant status == Completed
      invariant g.Valid() && g.arcs == old(g.arcs)
      invariant SHistory(old(g.arcs), g.design, effects, conditional, forbidReciprocity, samplerM, oracles, exp,
                         aca, batches, traces)
      invariant theta[..] == SThetas(n, batches, aca) && d0[..] == SD0(n, batches)
      invariant forall k :: 0 <= k < t ==> rows[k] == k - m1
    {
      ghost var trace;
      status, trace := SStepOnce(g, effects, samplerM, aca, theta, d0, addS, delS, conditional,
                                 forbidReciprocity, OracleAt(oracles, t), exp);
      if status != Completed {
        stopTrace := trace;
        return;
      }
      SHistoryExtend(old(g.arcs), g.design, effects, conditional, forbidReciprocity, samplerM, oracles, exp, aca,
                     batches, traces, trace);
      var b := Batch(AddSum(trace, n), DelSum(trace, n));
      StepRecorded(n, batches, b, aca);
      batches := batches + [b];
      traces := traces + [trace];
      rows := rows + [t - m1];
      t := t + 1;
    }
  }

  /** Algorithm S: M1 statistics-only sampler runs from theta = 0, each
      followed by the S step, then Dmean = sampler_m / D0. Row k of the
      theta output is numbered k - M1. */
  method AlgorithmS(g: Digraph, effects: Effects, m1: nat, samplerM: nat, aca: real,
                    theta: array<real>, dmean: array<real>, conditional: bool, forbidReciprocity: bool,
                    oracles: seq<Oracle>, exp: real -> real)
    returns (outcome: Outcome, rows: seq<int>, ghost batches: seq<Batch>, ghost traces: seq<seq<Proposal>>,
             ghost stopTrace: seq<Proposal>)
    requires g.Valid() && effects.Valid()
    requires theta.Length == effects.Count() && dmean.Length == effects.Count() && theta != dmean
    requires OraclesInRange(oracles, conditional, g.design)
    modifies g, theta, dmean
    ensures g.Valid() && g.arcs == old(g.arcs)
    ensures BatchesSized(batches, theta.Length) && |batches| <= m1
    ensures SHistory(old(g.arcs), g.design, effects, conditional, forbidReciprocity, samplerM, oracles, exp, aca,
                     batches, traces)
    ensures theta[..] == SThetas(theta.Length, batches, aca)
    ensures |rows| == |batches| && forall k :: 0 <= k < |rows| ==> rows[k] == k - m1 && rows[k] < 0
    ensures outcome.Stopped? ==> outcome.why != Completed && |batches| < m1
    ensures outcome.Stopped? ==>
              SamplerRun(old(g.arcs), stopTrace, outcome.why, samplerM,
                         SConfig(SThetas(theta.Length, batches, aca), effects, conditional, forbidReciprocity),
                         g.design, OracleAt(oracles, |batches|), exp)
    ensures outcome == UndefinedDmean ==>
              |batches| == m1 && exists l :: 0 <= l < theta.Length && SD0(theta.Length, batches)[l] == 0.0
    ensures outcome == Finished ==>
              |batches| == m1 &&
              forall l :: 0 <= l < theta.Length ==>
                SD0(theta.Length, batches)[l] > 0.0 &&
                dmean[l] == samplerM as real / SD0(theta.Length, batches)[l]
    ensures outcome == Finished || outcome == UndefinedDmean || outcome.Stopped?
  {
    var n := theta.Length;
    var addS := new real[n];
    var delS := new real[n];
    var d0 := new real[n];
    ZeroBoth(theta, d0);
    var status;
    status, rows, batches, traces, stopTrace := SBatches(g, effects, m1, samplerM, aca, theta, d0, addS, delS,
                                                         conditional, forbidReciprocity, oracles, exp);
    if status != Completed {
      outcome := Stopped(status);
      return;
    }
    forall l | 0 <= l < n
      ensures SD0(n, batches)[l] >= 0.0
    {
      SD0NonNegative(n, batches, l);
    }
    outcome := DmeanOutcome(d0, dmean, samplerM, SD0(n, batches));
  }

  /** The end of algorithm_S: Dmean from the accumulated D0, or
      UndefinedDmean when some D0 entry is zero. */
  method DmeanOutcome(d0: array<real>, dmean: array<real>, samplerM: nat, ghost sd0: seq<real>)
    returns (outcome: Outcome)
    requires dmean.Length == d0.Length && dmean != d0 && d0[..] == sd0
    requires forall l :: 0 <= l < |sd0| ==> sd0[l] >= 0.0
    modifies dmean
    ensures outcome == Finished || outcome == UndefinedDmean
    ensures outcome == UndefinedDmean ==> exists l :: 0 <= l < |sd0| && sd0[l] == 0.0
    ensures outcome == Finished ==>
              forall l :: 0 <= l < |sd0| ==> sd0[l] > 0.0 && dmean[l] == samplerM as real / sd0[l]
  {
    var ok := ComputeDmean(d0, dmean, samplerM);
    outcome := if ok then Finished else UndefinedDmean;
  }

  /** Appending a step leaves the earlier prefixes, and so the theta each
      earlier sampler call saw, unchanged. */
  lemma StepRecorded(n: nat, batches: seq<Batch>, b: Batch, aca: real)
    requires BatchesSized(batches, n) && |b.add| == n && |b.del| == n
    ensures BatchesSized(batches + [b], n)
    ensures (batches + [b])[..|batches|] == batches
    ensures forall k :: 0 <= k <= |batches| ==> (batches + [b])[..k] == batches[..k]
  {
    assert forall k :: 0 <= k < |batches| ==> (batches + [b])[k] == batches[k];
  }

  /** The sampler configuration of an Algorithm EE step: proposals are
      committed. */
  function EEConfig(theta: seq<real>, effects: Effects, conditional: bool, forbidReciprocity: bool): SamplerConfig
  {
    SamplerConfig(theta, effects, true, conditional, forbidReciprocity)
  }

  /** The arc set after the committing sampler runs ts, in order. */
  function ArcsAfter(arcs0: set<Arc>, ts: seq<seq<Proposal>>): set<Arc>
    decreases |ts|
  {
    if ts == [] then arcs0 else Final(ArcsAfter(arcs0, ts[..|ts| - 1]), ts[|ts| - 1], true)
  }

  /** Inner iteration k of one outer iteration, whose first sampler call is
      number `base`, ran the sampler for sampler_m committed proposals from
      the graph the earlier runs left, with the theta of the first k inner
      steps from s0; its batch holds that run's add and delete sums. */
  predicate InnerEntry(arcs0: set<Arc>, d: Design, effects: Effects, conditional: bool, forbidReciprocity: bool,
                       samplerM: nat, oracles: seq<Oracle>, base: nat, exp: real -> real, aca: real,
                       s0: EEState, bs: seq<Batch>, ts: seq<seq<Proposal>>, k: nat)
    requires s0.Sized(effects.Count()) && BatchesSized(bs, effects.Count()) && |ts| == |bs| && k < |bs|
  {
    var cfg := EEConfig(InnerRun(s0, bs[..k], aca).theta, effects, conditional, forbidReciprocity);
    cfg.Valid() && |ts[k]| == samplerM && Sized(ts[k], effects.Count()) &&
    ValidTrace(ArcsAfter(arcs0, ts[..k]), ts[k], cfg, d, OracleAt(oracles, base + k), exp) &&
    bs[k] == Batch(AddSum(ts[k], effects.Count()), DelSum(ts[k], effects.Count()))
  }

  /** Every inner iteration bs[k] of one outer iteration is the batch of the
      sampler run ts[k] (see InnerEntry). */
  predicate InnerHistory(arcs0: set<Arc>, d: Design, effects: Effects, conditional: bool, forbidReciprocity: bool,
                         samplerM: nat, oracles: seq<Oracle>, base: nat, exp: real -> real, aca: real,
                         s0: EEState, bs: seq<Batch>, ts: seq<seq<Proposal>>)
  {
    s0.Sized(effects.Count()) && BatchesSized(bs, effects.Count()) && |ts| == |bs| &&
    forall k :: 0 <= k < |bs| ==>
      InnerEntry(arcs0, d, effects, conditional, forbidReciprocity, samplerM, oracles, base, exp, aca, s0, bs, ts, k)
  }

  lemma InnerHistoryExtend(arcs0: set<Arc>, d: Design, effects: Effects, conditional: bool, forbidReciprocity: bool,
                           samplerM: nat, oracles: seq<Oracle>, base: nat, exp: real -> real, aca: real,
                           s0: EEState, bs: seq<Batch>, ts: seq<seq<Proposal>>, trace: seq<Proposal>)
    requires effects.Valid()
    requires InnerHistory(arcs0, d, effects, conditional, forbidReciprocity, samplerM, oracles, base, exp, aca,
                          s0, bs, ts)
    requires |trace| == samplerM && Sized(trace, effects.Count())
    requires ValidTrace(ArcsAfter(arcs0, ts), trace,
                        EEConfig(InnerRun(s0, bs, aca).theta, effects, conditional, forbidReciprocity),
                        d, OracleAt(oracles, base + |bs|), exp)
    ensures InnerHistory(arcs0, d, effects, conditional, forbidReciprocity, samplerM, oracles, base, exp, aca,
                         s0, bs + [Batch(AddSum(trace, effects.Count()), DelSum(trace, effects.Count()))],
                         ts + [trace])
    ensures ArcsAfter(arcs0, ts + [trace]) == Final(ArcsAfter(arcs0, ts), trace, true)
  {
    var n := effects.Count();
    var b := Batch(AddSum(trace, n), DelSum(trace, n));
    var bs', ts' := bs + [b], ts + [trace];
    StepRecorded(n, bs, b, aca);
    assert ts'[..|ts|] == ts;
    forall k | 0 <= k < |bs'|
      ensures InnerEntry(arcs0, d, effects, conditional, forbidReciprocity, samplerM, oracles, base, exp, aca,
                         s0, bs', ts', k)
    {
      if k < |bs| {
        assert bs'[..k] == bs[..k] && ts'[..k] == ts[..k];
        assert InnerEntry(arcs0, d, effects, conditional, forbidReciprocity, samplerM, oracles, base, exp, aca,
                          s0, bs, ts, k);
      }
    }
  }

  /** The arc set after the outer iterations whose sampler runs are tss. */
  function ArcsAfterGroups(arcs0: set<Arc>, tss: seq<seq<seq<Proposal>>>): set<Arc>
    decreases |tss|
  {
    if tss == [] then arcs0 else ArcsAfter(ArcsAfterGroups(arcs0, tss[..|tss| - 1]), tss[|tss| - 1])
  }

  /** Outer iteration o of Algorithm EE started from EERun over the first o
      groups, on the graph the earlier outer iterations left, and its inner
      batches are those of sampler calls o * Minner onwards. */
  predicate OuterEntry(arcs0: set<Arc>, d: Design, effects: Effects, conditional: bool, forbidReciprocity: bool,
                       samplerM: nat, mInner: nat, oracles: seq<Oracle>, aca: real, compC: real, num: Numerics,
                       s0: EEState, groups: seq<seq<Batch>>, tss: seq<seq<seq<Proposal>>>, o: nat)
    requires s0.Sized(effects.Count()) && GroupsSized(groups, effects.Count()) && |tss| == |groups| && o < |groups|
  {
    EERun(s0, groups[..o], aca, compC, num).Some? &&
    InnerHistory(ArcsAfterGroups(arcs0, tss[..o]), d, effects, conditional, forbidReciprocity, samplerM,
                 oracles, o * mInner, num.exp, aca, EERun(s0, groups[..o], aca, compC, num).value,
                 groups[o], tss[o])
  }

  /** Every outer iteration groups[o] is made of the sampler runs tss[o]
      (see OuterEntry). */
  predicate EEHistory(arcs0: set<Arc>, d: Design, effects: Effects, conditional: bool, forbidReciprocity: bool,
                      samplerM: nat, mInner: nat, oracles: seq<Oracle>, aca: real, compC: real, num: Numerics,
                      s0: EEState, groups: seq<seq<Batch>>, tss: seq<seq<seq<Proposal>>>)
  {
    s0.Sized(effects.Count()) && GroupsSized(groups, effects.Count()) && |tss| == |groups| &&
    forall o :: 0 <= o < |groups| ==>
      OuterEntry(arcs0, d, effects, conditional, forbidReciprocity, samplerM, mInner, oracles, aca, compC, num,
                 s0, groups, tss, o)
  }

  lemma EEHistoryExtend(arcs0: set<Arc>, d: Design, effects: Effects, conditional: bool, forbidReciprocity: bool,
                        samplerM: nat, mInner: nat, oracles: seq<Oracle>, aca: real, compC: real, num: Numerics,
                        s0: EEState, groups: seq<seq<Batch>>, tss: seq<seq<seq<Proposal>>>,
                        bs: seq<Batch>, ts: seq<seq<Proposal>>)
    requires EEHistory(arcs0, d, effects, conditional, forbidReciprocity, samplerM, mInner, oracles, aca, compC,
                       num, s0, groups, tss)
    requires EERun(s0, groups, aca, compC, num).Some?
    requires InnerHistory(ArcsAfterGroups(arcs0, tss), d, effects, conditional, forbidReciprocity, samplerM,
                          oracles, |groups| * mInner, num.exp, aca, EERun(s0, groups, aca, compC, num).value,
                          bs, ts)
    ensures EEHistory(arcs0, d, effects, conditional, forbidReciprocity, samplerM, mInner, oracles, aca, compC,
                      num, s0, groups + [bs], tss + [ts])
    ensures ArcsAfterGroups(arcs0, tss + [ts]) == ArcsAfter(ArcsAfterGroups(arcs0, tss), ts)
  {
    var groups', tss' := groups + [bs], tss + [ts];
    assert tss'[..|tss|] == tss;
    assert GroupsSized(groups', effects.Count()) by {
      assert forall k :: 0 <= k < |groups| ==> groups'[k] == groups[k];
    }
    forall o | 0 <= o < |groups'|
      ensures OuterEntry(arcs0, d, effects, conditional, forbidReciprocity, samplerM, mInner, oracles, aca, compC,
                         num, s0, groups', tss', o)
    {
      if o < |groups| {
        assert groups'[..o] == groups[..o] && tss'[..o] == tss[..o];
        assert OuterEntry(arcs0, d, effects, conditional, forbidReciprocity, samplerM, mInner, oracles, aca, compC,
                          num, s0, groups, tss, o);
      } else {
        assert groups'[..o] == groups;
      }
    }
  }

  /** An outer iteration that starts on arcs0 in state s, with sampler call
      number `base` first, and does not finish: its completed inner
      iterations bs are the batches of the runs ts (InnerHistory); on
      NegativeSd all of them ran and the rescale failed; on Stopped the next
      sampler run stopped early on the graph and draws they left, with theta
      as the completed inner iterations left it. arcs and theta are the
      final graph and theta. */
  predicate OuterUnfinished(arcs0: set<Arc>, d: Design, effects: Effects, conditional: bool, forbidReciprocity: bool,
                            samplerM: nat, mInner: nat, oracles: seq<Oracle>, base: nat, aca: real, compC: real,
                            num: Numerics, s: EEState, bs: seq<Batch>, ts: seq<seq<Proposal>>,
                            stopTrace: seq<Proposal>, outcome: Outcome, theta: seq<real>, arcs: set<Arc>)
  {
    effects.Valid() &&
    InnerHistory(arcs0, d, effects, conditional, forbidReciprocity, samplerM, oracles, base, num.exp, aca, s, bs, ts) &&
    (outcome == NegativeSd ==>
       |bs| == mInner && arcs == ArcsAfter(arcs0, ts) && OuterStep(s, bs, aca, compC, num) == None) &&
    (outcome.Stopped? ==>
       |bs| < mInner && theta == InnerRun(s, bs, aca).theta &&
       arcs == Final(ArcsAfter(arcs0, ts), stopTrace, true) &&
       SamplerRun(ArcsAfter(arcs0, ts), stopTrace, outcome.why, samplerM,
                  EEConfig(theta, effects, conditional, forbidReciprocity), d, OracleAt(oracles, base + |bs|),
                  num.exp))
  }

  /** The per-parameter loop of one Algorithm EE inner iteration, which also
      records the new theta in column `col` of thetamatrix. */
  method EEUpdate(theta: array<real>, dzA: array<real>, d0: array<real>, add: array<real>, del: array<real>,
                  aca: real, thetamatrix: array2<real>, col: nat)
    requires dzA.Length == theta.Length && d0.Length == theta.Length
    requires add.Length == theta.Length && del.Length == theta.Length
    requires theta != dzA && theta != d0 && theta != add && theta != del
    requires dzA != d0 && dzA != add && dzA != del
    requires thetamatrix.Length0 == theta.Length && col < thetamatrix.Length1
    modifies theta, dzA, thetamatrix
    ensures EEState(theta[..], dzA[..], d0[..]) ==
              InnerStep(EEState(old(theta[..]), old(dzA[..]), d0[..]), Batch(add[..], del[..]), aca)
    ensures forall l, k :: 0 <= l < theta.Length && 0 <= k < thetamatrix.Length1 ==>
              thetamatrix[l, k] == if k == col then theta[l] else old(thetamatrix[l, k])
  {
    var n := theta.Length;
    for l := 0 to n
      invariant forall k :: 0 <= k < l ==> dzA[k] == old(dzA[k]) + (add[k] - del[k])
      invariant forall k :: l <= k < n ==> dzA[k] == old(dzA[k])
      invariant forall k :: 0 <= k < l ==> theta[k] == old(theta[k]) + EEStep(d0[k], aca, dzA[k])
      invariant forall k :: l <= k < n ==> theta[k] == old(theta[k])
      invariant forall m, k :: 0 <= m < n && 0 <= k < thetamatrix.Length1 ==>
                  thetamatrix[m, k] == if k == col && m < l then theta[m] else old(thetamatrix[m, k])
    {
      dzA[l] := dzA[l] + (add[l] - del[l]);
      var da := Mul(d0[l], aca);
      var step := (if dzA[l] < 0.0 then 1.0 else -1.0) * Mul(da, Mul(dzA[l], dzA[l]));
      theta[l] := theta[l] + step;
      thetamatrix[l, col] := theta[l];
    }
  }

  /** One inner iteration of algorithm_EE: a sampler run at the current
      theta (moves applied), then the theta and dzA update, recording theta
      in column col of thetamatrix. */
  method EEInnerStep(g: Digraph, effects: Effects, samplerM: nat, aca: real,
                     theta: array<real>, dzA: array<real>, d0: array<real>, addS: array<real>, delS: array<real>,
                     thetamatrix: array2<real>, col: nat,
                     conditional: bool, forbidReciprocity: bool, o: Oracle, exp: real -> real)
    returns (status: Status, ghost b: Batch, ghost trace: seq<Proposal>)
    requires g.Valid() && effects.Valid() && PicksInRange(o.picks, conditional, g.design)
    requires theta.Length == effects.Count() && dzA.Length == theta.Length && d0.Length == theta.Length
    requires addS.Length == theta.Length && delS.Length == theta.Length
    requires theta != dzA && theta != d0 && theta != addS && theta != delS
    requires dzA != d0 && dzA != addS && dzA != delS && d0 != addS && d0 != delS && addS != delS
    requires thetamatrix.Length0 == theta.Length && col < thetamatrix.Length1
    modifies g, theta, dzA, addS, delS, thetamatrix
    ensures g.Valid()
    ensures |b.add| == theta.Length && |b.del| == theta.Length
    ensures SamplerRun(old(g.arcs), trace, status, samplerM,
                       EEConfig(old(theta[..]), effects, conditional, forbidReciprocity), g.design, o, exp)
    ensures Sized(trace, theta.Length) && g.arcs == Final(old(g.arcs), trace, true)
    ensures b == Batch(AddSum(trace, theta.Length), DelSum(trace, theta.Length))
    ensures status != Completed ==>
              theta[..] == old(theta[..]) && dzA[..] == old(dzA[..]) &&
              forall l, k :: 0 <= l < theta.Length && 0 <= k < thetamatrix.Length1 ==>
                thetamatrix[l, k] == old(thetamatrix[l, k])
    ensures status == Completed ==>
              EEState(theta[..], dzA[..], d0[..]) ==
                InnerStep(EEState(old(theta[..]), old(dzA[..]), d0[..]), b, aca) &&
              forall l, k :: 0 <= l < theta.Length && 0 <= k < thetamatrix.Length1 ==>
                thetamatrix[l, k] == if k == col then theta[l] else old(thetamatrix[l, k])
  {
    var cfg := EEConfig(theta[..], effects, conditional, forbidReciprocity);
    var accepted, rate;
    status, accepted, rate, trace := BasicSampler(g, cfg, samplerM, o, exp, addS, delS);
    b := Batch(addS[..], delS[..]);
    if status != Completed {
      return;
    }
    EEUpdate(theta, dzA, d0, addS, delS, aca, thetamatrix, col);
  }

  /** The state of the inner loop after the inner iterations bs, made of
      the sampler runs ts, of an outer iteration that started in state s0 on
      the graph arcs0: theta and dzA are InnerRun, thetamatrix holds the
      trajectory, and the runs are recorded by InnerHistory. */
  predicate InnerLoopState(theta: array<real>, dzA: array<real>, d0: array<real>, thetamatrix: array2<real>,
                           arcs0: set<Arc>, d: Design, effects: Effects, conditional: bool, forbidReciprocity: bool,
                           samplerM: nat, oracles: seq<Oracle>, base: nat, exp: real -> real, aca: real,
                           s0: EEState, bs: seq<Batch>, ts: seq<seq<Proposal>>)
    reads theta, dzA, d0, thetamatrix
  {
    InnerHistory(arcs0, d, effects, conditional, forbidReciprocity, samplerM, oracles, base, exp, aca, s0, bs, ts) &&
    EEState(theta[..], dzA[..], d0[..]) == InnerRun(s0, bs, aca) &&
    thetamatrix.Length0 == theta.Length && |bs| <= thetamatrix.Length1 &&
    forall l, k :: 0 <= l < theta.Length && 0 <= k < |bs| ==> thetamatrix[l, k] == Trajectory(s0, bs, aca)[k][l]
  }

  /** Inner iteration |bs| of an outer iteration: EEInnerStep, with the
      state of the inner loop extended by the new batch and sampler run. */
  method EEInnerRound(g: Digraph, effects: Effects, samplerM: nat, aca: real,
                      theta: array<real>, dzA: array<real>, d0: array<real>, addS: array<real>, delS: array<real>,
                      thetamatrix: array2<real>, base: nat, tinner: nat,
                      conditional: bool, forbidReciprocity: bool, oracles: seq<Oracle>, exp: real -> real,
                      ghost arcs0: set<Arc>, ghost s0: EEState, ghost bs: seq<Batch>, ghost ts: seq<seq<Proposal>>)
    returns (status: Status, ghost b: Batch, ghost trace: seq<Proposal>)
    requires g.Valid() && effects.Valid() && OraclesInRange(oracles, conditional, g.design)
    requires theta.Length == effects.Count() && dzA.Length == theta.Length && d0.Length == theta.Length
    requires addS.Length == theta.Length && delS.Length == theta.Length
    requires theta != dzA && theta != d0 && theta != addS && theta != delS
    requires dzA != d0 && dzA != addS && dzA != delS && d0 != addS && d0 != delS && addS != delS
    requires tinner == |bs| < thetamatrix.Length1
    requires InnerLoopState(theta, dzA, d0, thetamatrix, arcs0, g.design, effects, conditional, forbidReciprocity,
                            samplerM, oracles, base, exp, aca, s0, bs, ts)
    requires g.arcs == ArcsAfter(arcs0, ts)
    modifies g, theta, dzA, addS, delS, thetamatrix
    ensures g.Valid()
    ensures status == Completed ==>
              InnerLoopState(theta, dzA, d0, thetamatrix, arcs0, g.design, effects, conditional, forbidReciprocity,
                             samplerM, oracles, base, exp, aca, s0, bs + [b], ts + [trace]) &&
              g.arcs == ArcsAfter(arcs0, ts + [trace])
    ensures status != Completed ==>
              InnerLoopState(theta, dzA, d0, thetamatrix, arcs0, g.design, effects, conditional, forbidReciprocity,
                             samplerM, oracles, base, exp, aca, s0, bs, ts) &&
              g.arcs == Final(ArcsAfter(arcs0, ts), trace, true) &&
              SamplerRun(ArcsAfter(arcs0, ts), trace, status, samplerM,
                         EEConfig(theta[..], effects, conditional, forbidReciprocity), g.design,
                         OracleAt(oracles, base + |bs|), exp)
  {
    status, b, trace := EEInnerStep(g, effects, samplerM, aca, theta, dzA, d0, addS, delS, thetamatrix, tinner,
                                    conditional, forbidReciprocity, OracleAt(oracles, base + tinner), exp);
    if status == Completed {
      InnerHistoryExtend(arcs0, g.design, effects, conditional, forbidReciprocity, samplerM, oracles, base,
                         exp, aca, s0, bs, ts, trace);
      InnerExtend(s0, bs, b, aca);
    }
  }

  /** The inner loop of one outer iteration of Algorithm EE: Minner
      committing sampler runs, each followed by the EE update, recording the
      trajectory in thetamatrix; `base` is the index t of the first one. */
  method EEInner(g: Digraph, effects: Effects, samplerM: nat, aca: real,
                 theta: array<real>, dzA: array<real>, d0: array<real>, addS: array<real>, delS: array<real>,
                 thetamatrix: array2<real>, base: nat, outputAllSteps: bool,
                 conditional: bool, forbidReciprocity: bool, oracles: seq<Oracle>, exp: real -> real)
    returns (status: Status, rows: seq<nat>, ghost bs: seq<Batch>, ghost ts: seq<seq<Proposal>>,
             ghost stopTrace: seq<Proposal>)
    requires g.Valid() && effects.Valid() && OraclesInRange(oracles, conditional, g.design)
    requires theta.Length == effects.Count() && dzA.Length == theta.Length && d0.Length == theta.Length
    requires addS.Length == theta.Length && delS.Length == theta.Length
    requires theta != dzA && theta != d0 && theta != addS && theta != delS
    requires dzA != d0 && dzA != addS && dzA != delS && d0 != addS && d0 != delS && addS != delS
    requires thetamatrix.Length0 == theta.Length
    modifies g, theta, dzA, addS, delS, thetamatrix
    ensures g.Valid()
    ensures status == Completed <==> |bs| == thetamatrix.Length1
    ensures InnerLoopState(theta, dzA, d0, thetamatrix, old(g.arcs), g.design, effects, conditional,
                           forbidReciprocity, samplerM, oracles, base, exp, aca,
                           EEState(old(theta[..]), old(dzA[..]), d0[..]), bs, ts)
    ensures rows == InnerRows(base, |bs|, outputAllSteps)
    ensures status == Completed ==> g.arcs == ArcsAfter(old(g.arcs), ts)
    ensures status != Completed ==>
              g.arcs == Final(ArcsAfter(old(g.arcs), ts), stopTrace, true) &&
              SamplerRun(ArcsAfter(old(g.arcs), ts), stopTrace, status, samplerM,
                         EEConfig(theta[..], effects, conditional, forbidReciprocity), g.design,
                         OracleAt(oracles, base + |bs|), exp)
  {
    ghost var s0 := EEState(theta[..], dzA[..], d0[..]);
    var n := theta.Length;
    status, rows, bs, ts, stopTrace := Completed, [], [], [], [];
    var tinner := 0;
    while tinner < thetamatrix.Length1
      invariant 0 <= tinner <= thetamatrix.Length1 && |bs| == tinner
      invariant g.Valid()
      invariant InnerLoopState(theta, dzA, d0, thetamatrix, old(g.arcs), g.design, effects, conditional,
                               forbidReciprocity, samplerM, oracles, base, exp, aca, s0, bs, ts)
      invariant rows == InnerRows(base, tinner, outputAllSteps)
      invariant g.arcs == ArcsAfter(old(g.arcs), ts)
      invariant status == Completed
    {
      ghost var b, trace;
      status, b, trace := EEInnerRound(g, effects, samplerM, aca, theta, dzA, d0, addS, delS, thetamatrix, base,
                                       tinner, conditional, forbidReciprocity, oracles, exp, old(g.arcs), s0, bs, ts);
      if status != Completed {
        stopTrace := trace;
        return;
      }
      bs := bs + [b];
      ts := ts + [trace];
      if outputAllSteps || tinner == 0 {
        rows := rows + [base + tinner];
      }
      tinner := tinner + 1;
    }
  }

  /** One more inner iteration extends the run by InnerStep and the
      trajectory by the new theta. */
  lemma InnerExtend(s0: EEState, bs: seq<Batch>, b: Batch, aca: real)
    requires s0.Sized(|s0.theta|) && BatchesSized(bs, |s0.theta|)
    requires |b.add| == |s0.theta| && |b.del| == |s0.theta|
    ensures BatchesSized(bs + [b], |s0.theta|)
    ensures InnerRun(s0, bs + [b], aca) == InnerStep(InnerRun(s0, bs, aca), b, aca)
    ensures Trajectory(s0, bs + [b], aca) == Trajectory(s0, bs, aca) + [InnerRun(s0, bs + [b], aca).theta]
  {
    StepRecorded(|s0.theta|, bs, b, aca);
  }

  /** The end-of-outer-iteration loop: D0 of each parameter is rescaled from
      the mean and standard deviation of its row of thetamatrix; false when
      a standard deviation is negative (the source asserts it is not). */
  method RescaleD0(d0: array<real>, thetamatrix: array2<real>, compC: real, num: Numerics,
                   ghost traj: seq<seq<real>>)
    returns (ok: bool)
    requires thetamatrix.Length0 == d0.Length && |traj| == thetamatrix.Length1
    requires forall k :: 0 <= k < |traj| ==> |traj[k]| == d0.Length
    requires forall l, k :: 0 <= l < d0.Length && 0 <= k < |traj| ==> thetamatrix[l, k] == traj[k][l]
    modifies d0
    ensures ok == RescaleAll(old(d0[..]), traj, compC, num).Some?
    ensures ok ==> d0[..] == RescaleAll(old(d0[..]), traj, compC, num).value
  {
    var n := d0.Length;
    for l := 0 to n
      invariant forall k :: 0 <= k < l ==> SdOk(traj, k, num)
      invariant forall k :: 0 <= k < l ==>
                  d0[k] == RescaledD0(old(d0[k]), num.meanAndSd(Column(traj, k)).0,
                                      num.meanAndSd(Column(traj, k)).1, compC, num.sqrt)
      invariant forall k :: l <= k < n ==> d0[k] == old(d0[k])
    {
      var row := seq(thetamatrix.Length1, k requires 0 <= k < thetamatrix.Length1 reads thetamatrix =>
                       thetamatrix[l, k]);
      assert row == Column(traj, l);
      var stats := num.meanAndSd(row);
      var mean, sd := stats.0, stats.1;
      if sd < 0.0 {
        assert !SdOk(traj, l, num);
        return false;
      }
      if Abs(mean) < 0.1 {
        mean := 0.1;
      }
      if sd > SdThreshold {
        d0[l] := d0[l] * num.sqrt(compC / (sd / Abs(mean)));
      }
    }
    return true;
  }

  /** One more complete outer iteration extends the EE run by OuterStep. */
  lemma OuterExtend(s0: EEState, groups: seq<seq<Batch>>, bs: seq<Batch>, aca: real, compC: real, num: Numerics)
    requires s0.Sized(|s0.theta|) && GroupsSized(groups, |s0.theta|) && BatchesSized(bs, |s0.theta|)
    requires EERun(s0, groups, aca, compC, num).Some?
    ensures GroupsSized(groups + [bs], |s0.theta|)
    ensures EERun(s0, groups + [bs], aca, compC, num) ==
              OuterStep(EERun(s0, groups, aca, compC, num).value, bs, aca, compC, num)
  {
    assert forall k :: 0 <= k < |groups| ==> (groups + [bs])[k] == groups[k];
    assert (groups + [bs])[..|groups|] == groups;
  }

  /** One outer iteration of algorithm_EE: the inner iterations, then the
      D0 rescaling from the theta trajectory they recorded. Finished here
      means the iteration completed. */
  method EEOuterStep(g: Digraph, effects: Effects, samplerM: nat, aca: real, compC: real,
                     theta: array<real>, dzA: array<real>, d0: array<real>, addS: array<real>, delS: array<real>,
                     thetamatrix: array2<real>, base: nat, outputAllSteps: bool,
                     conditional: bool, forbidReciprocity: bool, oracles: seq<Oracle>, num: Numerics)
    returns (outcome: Outcome, rows: seq<nat>, ghost bs: seq<Batch>, ghost ts: seq<seq<Proposal>>,
             ghost stopTrace: seq<Proposal>)
    requires g.Valid() && effects.Valid() && OraclesInRange(oracles, conditional, g.design)
    requires theta.Length == effects.Count() && dzA.Length == theta.Length && d0.Length == theta.Length
    requires addS.Length == theta.Length && delS.Length == theta.Length
    requires theta != dzA && theta != d0 && theta != addS && theta != delS
    requires dzA != d0 && dzA != addS && dzA != delS && d0 != addS && d0 != delS && addS != delS
    requires thetamatrix.Length0 == theta.Length
    modifies g, theta, dzA, d0, addS, delS, thetamatrix
    ensures g.Valid()
    ensures outcome == Finished || outcome == NegativeSd || (outcome.Stopped? && outcome.why != Completed)
    ensures outcome == Finished ==>
              |bs| == thetamatrix.Length1 && BatchesSized(bs, theta.Length) &&
              OuterStep(EEState(old(theta[..]), old(dzA[..]), old(d0[..])), bs, aca, compC, num) ==
                Some(EEState(theta[..], dzA[..], d0[..])) &&
              rows == InnerRows(base, |bs|, outputAllSteps)
    ensures InnerHistory(old(g.arcs), g.design, effects, conditional, forbidReciprocity, samplerM, oracles, base,
                         num.exp, aca, EEState(old(theta[..]), old(dzA[..]), old(d0[..])), bs, ts)
    ensures outcome == Finished ==> g.arcs == ArcsAfter(old(g.arcs), ts)
    ensures outcome != Finished ==>
              OuterUnfinished(old(g.arcs), g.design, effects, conditional, forbidReciprocity, samplerM,
                              thetamatrix.Length1, oracles, base, aca, compC, num,
                              EEState(old(theta[..]), old(dzA[..]), old(d0[..])), bs, ts, stopTrace, outcome,
                              theta[..], g.arcs)
  {
    ghost var before := EEState(theta[..], dzA[..], d0[..]);
    var status;
    status, rows, bs, ts, stopTrace := EEInner(g, effects, samplerM, aca, theta, dzA, d0, addS, delS, thetamatrix,
                                               base, outputAllSteps, conditional, forbidReciprocity, oracles, num.exp);
    if status != Completed {
      outcome := Stopped(status);
      return;
    }
    var ok := RescaleD0(d0, thetamatrix, compC, num, Trajectory(before, bs, aca));
    outcome := if ok then Finished else NegativeSd;
  }

  /** The state of Algorithm EE after the outer iterations groups, made of
      the sampler runs tss, from state s0 on the graph arcs0: theta, dzA and
      D0 are EERun, and the runs are recorded by EEHistory. */
  predicate OuterLoopState(theta: array<real>, dzA: array<real>, d0: array<real>, mInner: nat,
                           arcs0: set<Arc>, d: Design, effects: Effects, conditional: bool, forbidReciprocity: bool,
                           samplerM: nat, oracles: seq<Oracle>, aca: real, compC: real, num: Numerics,
                           s0: EEState, groups: seq<seq<Batch>>, tss: seq<seq<seq<Proposal>>>)
    reads theta, dzA, d0
  {
    EEHistory(arcs0, d, effects, conditional, forbidReciprocity, samplerM, mInner, oracles, aca, compC, num,
              s0, groups, tss) &&
    (forall k :: 0 <= k < |groups| ==> |groups[k]| == mInner) &&
    EERun(s0, groups, aca, compC, num) == Some(EEState(theta[..], dzA[..], d0[..]))
  }

  /** Outer iteration |groups| of Algorithm EE: EEOuterStep, with the state
      of the outer loop extended by its batches and sampler runs. */
  method EEOuterRound(g: Digraph, effects: Effects, samplerM: nat, aca: real, compC: real,
                      theta: array<real>, dzA: array<real>, d0: array<real>, addS: array<real>, delS: array<real>,
                      thetamatrix: array2<real>, touter: nat, outputAllSteps: bool,
                      conditional: bool, forbidReciprocity: bool, oracles: seq<Oracle>, num: Numerics,
                      ghost arcs0: set<Arc>, ghost s0: EEState, ghost groups: seq<seq<Batch>>,
                      ghost tss: seq<seq<seq<Proposal>>>)
    returns (outcome: Outcome, rows: seq<nat>, ghost bs: seq<Batch>, ghost ts: seq<seq<Proposal>>,
             ghost stopTrace: seq<Proposal>)
    requires g.Valid() && effects.Valid() && OraclesInRange(oracles, conditional, g.design)
    requires theta.Length == effects.Count() && dzA.Length == theta.Length && d0.Length == theta.Length
    requires addS.Length == theta.Length && delS.Length == theta.Length
    requires theta != dzA && theta != d0 && theta != addS && theta != delS
    requires dzA != d0 && dzA != addS && dzA != delS && d0 != addS && d0 != delS && addS != delS
    requires thetamatrix.Length0 == theta.Length && touter == |groups|
    requires OuterLoopState(theta, dzA, d0, thetamatrix.Length1, arcs0, g.design, effects, conditional,
                            forbidReciprocity, samplerM, oracles, aca, compC, num, s0, groups, tss)
    requires g.arcs == ArcsAfterGroups(arcs0, tss)
    modifies g, theta, dzA, d0, addS, delS, thetamatrix
    ensures g.Valid()
    ensures outcome == Finished || outcome == NegativeSd || (outcome.Stopped? && outcome.why != Completed)
    ensures outcome == Finished ==>
              OuterLoopState(theta, dzA, d0, thetamatrix.Length1, arcs0, g.design, effects, conditional,
                             forbidReciprocity, samplerM, oracles, aca, compC, num, s0, groups + [bs], tss + [ts]) &&
              g.arcs == ArcsAfterGroups(arcs0, tss + [ts]) &&
              rows == InnerRows(touter * thetamatrix.Length1, thetamatrix.Length1, outputAllSteps)
    ensures outcome != Finished ==>
              EERun(s0, groups, aca, compC, num).Some? &&
              OuterUnfinished(ArcsAfterGroups(arcs0, tss), g.design, effects, conditional, forbidReciprocity,
                              samplerM, thetamatrix.Length1, oracles, |groups| * thetamatrix.Length1, aca, compC,
                              num, EERun(s0, groups, aca, compC, num).value, bs, ts, stopTrace, outcome,
                              theta[..], g.arcs)
  {
    outcome, rows, bs, ts, stopTrace :=
      EEOuterStep(g, effects, samplerM, aca, compC, theta, dzA, d0, addS, delS, thetamatrix,
                  touter * thetamatrix.Length1, outputAllSteps, conditional, forbidReciprocity, oracles, num);
    if outcome == Finished {
      EEHistoryExtend(arcs0, g.design, effects, conditional, forbidReciprocity, samplerM, thetamatrix.Length1,
                      oracles, aca, compC, num, s0, groups, tss, bs, ts);
      OuterExtend(s0, groups, bs, aca, compC, num);
      assert forall k :: 0 <= k < |groups| ==> (groups + [bs])[k] == groups[k];
    }
  }

  /** How a run of Algorithm EE from state s0 on the graph arcs0 relates to
      its sampler runs: the completed outer iterations groups are made of
      the runs tss (EEHistory); a finished run leaves the graph those runs
      left; an unfinished one stopped in outer iteration |groups|, whose
      completed part is partial, as OuterUnfinished says. */
  predicate EERunRecord(arcs0: set<Arc>, d: Design, effects: Effects, conditional: bool, forbidReciprocity: bool,
                        samplerM: nat, mOuter: nat, mInner: nat, oracles: seq<Oracle>, aca: real, compC: real,
                        num: Numerics, s0: EEState, groups: seq<seq<Batch>>, tss: seq<seq<seq<Proposal>>>,
                        partial: seq<Batch>, partialTs: seq<seq<Proposal>>, stopTrace: seq<Proposal>,
                        outcome: Outcome, theta: seq<real>, arcs: set<Arc>)
  {
    EEHistory(arcs0, d, effects, conditional, forbidReciprocity, samplerM, mInner, oracles, aca, compC, num,
              s0, groups, tss) &&
    (outcome == Finished ==> arcs == ArcsAfterGroups(arcs0, tss)) &&
    (outcome != Finished ==>
       |groups| < mOuter && EERun(s0, groups, aca, compC, num).Some? &&
       OuterUnfinished(ArcsAfterGroups(arcs0, tss), d, effects, conditional, forbidReciprocity, samplerM, mInner,
                       oracles, |groups| * mInner, aca, compC, num, EERun(s0, groups, aca, compC, num).value,
                       partial, partialTs, stopTrace, outcome, theta, arcs))
  }

  /** Algorithm EE: Mouter outer iterations of Minner committing sampler
      runs, each followed by the EE update of dzA and theta, then the D0
      rescale from the inner trajectory. dzA starts at zero once and is never
      reset. Sampler call t gets the draws OracleAt(oracles, t). */
  method AlgorithmEE(g: Digraph, effects: Effects, mOuter: nat, mInner: nat, samplerM: nat, aca: real,
                     compC: real, d0: array<real>, theta: array<real>, outputAllSteps: bool,
                     conditional: bool, forbidReciprocity: bool, oracles: seq<Oracle>, num: Numerics)
    returns (outcome: Outcome, dzAOut: seq<real>, rows: seq<nat>, ghost groups: seq<seq<Batch>>,
             ghost tss: seq<seq<seq<Proposal>>>, ghost partial: seq<Batch>, ghost partialTs: seq<seq<Proposal>>,
             ghost stopTrace: seq<Proposal>)
    requires g.Valid() && effects.Valid() && OraclesInRange(oracles, conditional, g.design)
    requires theta.Length == effects.Count() && d0.Length == theta.Length && theta != d0
    modifies g, d0, theta
    ensures g.Valid()
    ensures GroupsSized(groups, theta.Length) && |groups| <= mOuter
    ensures EERunRecord(old(g.arcs), g.design, effects, conditional, forbidReciprocity, samplerM, mOuter, mInner,
                        oracles, aca, compC, num, EEState(old(theta[..]), Zeros(theta.Length), old(d0[..])),
                        groups, tss, partial, partialTs, stopTrace, outcome, theta[..], g.arcs)
    ensures outcome == Finished || outcome == NegativeSd || (outcome.Stopped? && outcome.why != Completed)
    ensures outcome == Finished ==>
              |groups| == mOuter && (forall k :: 0 <= k < mOuter ==> |groups[k]| == mInner) &&
              EERun(EEState(old(theta[..]), Zeros(theta.Length), old(d0[..])), groups, aca, compC, num) ==
                Some(EEState(theta[..], dzAOut, d0[..])) &&
              rows == OuterRows(mOuter, mInner, outputAllSteps)
  {
    var n := theta.Length;
    var addS := new real[n];
    var delS := new real[n];
    var dzA := new real[n](_ => 0.0);
    var thetamatrix := new real[n, mInner];
    assert dzA[..] == Zeros(n);
    ghost var s0 := EEState(theta[..], dzA[..], d0[..]);
    groups, tss, rows, partial, partialTs, stopTrace := [], [], [], [], [], [];
    var touter := 0;
    while touter < mOuter
      invariant 0 <= touter <= mOuter && |groups| == touter
      invariant g.Valid()
      invariant OuterLoopState(theta, dzA, d0, mInner, old(g.arcs), g.design, effects, conditional,
                               forbidReciprocity, samplerM, oracles, aca, compC, num, s0, groups, tss)
      invariant rows == OuterRows(touter, mInner, outputAllSteps)
      invariant g.arcs == ArcsAfterGroups(old(g.arcs), tss)
    {
      var stepOutcome, innerRows;
      ghost var bs, ts;
      stepOutcome, innerRows, bs, ts, stopTrace :=
        EEOuterRound(g, effects, samplerM, aca, compC, theta, dzA, d0, addS, delS, thetamatrix, touter,
                     outputAllSteps, conditional, forbidReciprocity, oracles, num, old(g.arcs), s0, groups, tss);
      if stepOutcome != Finished {
        outcome, dzAOut, partial, partialTs := stepOutcome, dzA[..], bs, ts;
        return;
      }
      rows := rows + innerRows;
      groups := groups + [bs];
      tss := tss + [ts];
      touter := touter + 1;
    }
    outcome, dzAOut := Finished, dzA[..];
  }
}
