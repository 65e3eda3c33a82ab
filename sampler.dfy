/** The basic ERGM dyad sampler: per proposal it picks an ordered pair of
    distinct nodes, scores toggling arc i->j with the change statistics,
    accepts or rejects, and commits or restores the digraph.

    Random draws are oracle inputs: `picks` stands for the successive values
    of int_urand, `uniforms` for the successive values of urand, and `exp`
    for the exponential function. */
module Sampler {
  import opened Graphs
  import opened Wrappers

  // ---------------------------------------------------------------------
  // Change statistics and the score of a proposal
  // ---------------------------------------------------------------------

  /** A structural or dyadic-covariate change statistic: the change in the
      effect's statistic when arc i->j is added to the given arc set. */
  type ArcStatistic = (set<Arc>, Node, Node) -> real

  /** A nodal-attribute change statistic, also given an attribute index. */
  type AttrStatistic = (set<Arc>, Node, Node, nat) -> real

  /** The configured effects, in parameter-vector order: structural effects,
      then nodal-attribute effects (each with its attribute index), then
      dyadic-covariate effects. */
  datatype Effects = Effects(
    structural: seq<ArcStatistic>,
    attr: seq<AttrStatistic>,
    attrIndices: seq<nat>,
    dyadic: seq<ArcStatistic>)
  {
    predicate Valid()
    {
      |attr| == |attrIndices|
    }

    /** The number of parameters n. */
    function Count(): nat
    {
      |structural| + |attr| + |dyadic|
    }
  }

  /** The change-statistic vector of arc i->j on the given arc set, laid out
      in the three segments of the parameter vector. */
  function ChangeStatVector(arcs: set<Arc>, i: Node, j: Node, e: Effects): (cs: seq<real>)
    requires e.Valid()
    ensures |cs| == e.Count()
  {
    seq(|e.structural|, k requires 0 <= k < |e.structural| => e.structural[k](arcs, i, j)) +
    seq(|e.attr|, k requires 0 <= k < |e.attr| => e.attr[k](arcs, i, j, e.attrIndices[k])) +
    seq(|e.dyadic|, k requires 0 <= k < |e.dyadic| => e.dyadic[k](arcs, i, j))
  }

  /** -1 for a delete proposal, +1 for an add proposal. */
  function Sign(isDelete: bool): real
  {
    if isDelete then -1.0 else 1.0
  }

  /** The sum over the first p parameters of theta[k] * sign * cs[k]. */
  function WeightedSum(theta: seq<real>, cs: seq<real>, sign: real, p: nat): real
    requires p <= |theta| && p <= |cs|
  {
    if p == 0 then 0.0
    else WeightedSum(theta, cs, sign, p - 1) + Term(theta[p - 1], sign, cs[p - 1])
  }

  /** One parameter's contribution theta * sign * changestat. */
  function Term(theta: real, sign: real, cs: real): real
  {
    theta * sign * cs
  }

  /** The log acceptance ratio `total` of a proposal. */
  function Score(theta: seq<real>, cs: seq<real>, isDelete: bool): real
    requires |cs| <= |theta|
  {
    WeightedSum(theta, cs, Sign(isDelete), |cs|)
  }

  /** Scoring a delete is scoring the add of the same arc, negated. */
  lemma {:induction false} DeleteScoreNegatesAddScore(theta: seq<real>, cs: seq<real>, p: nat)
    requires p <= |theta| && p <= |cs|
    ensures WeightedSum(theta, cs, -1.0, p) == -WeightedSum(theta, cs, 1.0, p)
  {
    if p > 0 {
      DeleteScoreNegatesAddScore(theta, cs, p - 1);
    }
  }

  /** The entries of the change-statistic vector, segment by segment. */
  lemma ChangeStatSegments(arcs: set<Arc>, i: Node, j: Node, e: Effects)
    requires e.Valid()
    ensures forall k :: 0 <= k < |e.structural| ==>
              ChangeStatVector(arcs, i, j, e)[k] == e.structural[k](arcs, i, j)
    ensures forall k :: 0 <= k < |e.attr| ==>
              ChangeStatVector(arcs, i, j, e)[|e.structural| + k] == e.attr[k](arcs, i, j, e.attrIndices[k])
    ensures forall k :: 0 <= k < |e.dyadic| ==>
              ChangeStatVector(arcs, i, j, e)[|e.structural| + |e.attr| + k] == e.dyadic[k](arcs, i, j)
  {
  }

  /** Fills `changestats` with the change statistics of arc i->j on `arcs`,
      structural effects first, then attribute, then dyadic effects, and
      returns the proposal's score. */
  method ComputeChangeStats(arcs: set<Arc>, i: Node, j: Node, theta: seq<real>, e: Effects,
                            isDelete: bool, changestats: array<real>)
    returns (total: real)
    requires e.Valid() && |theta| == e.Count() && changestats.Length == e.Count()
    modifies changestats
    ensures changestats[..] == ChangeStatVector(arcs, i, j, e)
    ensures total == Score(theta, changestats[..], isDelete)
  {
    ghost var cs := ChangeStatVector(arcs, i, j, e);
    ChangeStatSegments(arcs, i, j, e);
    var sign := Sign(isDelete);
    total := 0.0;
    var paramI := 0;
    // structural effects
    total, paramI := FillStructural(arcs, i, j, theta, e, sign, changestats, cs, total);
    // nodal attribute effects
    total, paramI := FillAttr(arcs, i, j, theta, e, sign, changestats, cs, total);
    // dyadic covariate effects
    total, paramI := FillDyadic(arcs, i, j, theta, e, sign, changestats, cs, total);
    assert changestats[..] == cs;
  }

  /** The structural-effect loop: fills positions 0 .. |structural|-1. */
  method FillStructural(arcs: set<Arc>, i: Node, j: Node, theta: seq<real>, e: Effects, sign: real,
                        changestats: array<real>, ghost cs: seq<real>, total0: real)
    returns (total: real, paramI: nat)
    requires e.Valid() && |theta| == |cs| == changestats.Length == e.Count()
    requires forall k :: 0 <= k < |e.structural| ==> cs[k] == e.structural[k](arcs, i, j)
    requires total0 == WeightedSum(theta, cs, sign, 0)
    modifies changestats
    ensures paramI == |e.structural|
    ensures forall k :: 0 <= k < paramI ==> changestats[k] == cs[k]
    ensures total == WeightedSum(theta, cs, sign, paramI)
  {
    total, paramI := total0, 0;
    var l := 0;
    while l < |e.structural|
      invariant 0 <= l <= |e.structural| && paramI == l
      invariant forall k :: 0 <= k < paramI ==> changestats[k] == cs[k]
      invariant total == WeightedSum(theta, cs, sign, paramI)
    {
      changestats[paramI] := e.structural[l](arcs, i, j);
      total := total + Term(theta[paramI], sign, changestats[paramI]);
      paramI := paramI + 1;
      l := l + 1;
    }
  }

  /** The nodal-attribute loop: fills the next |attr| positions. */
  method FillAttr(arcs: set<Arc>, i: Node, j: Node, theta: seq<real>, e: Effects, sign: real,
                  changestats: array<real>, ghost cs: seq<real>, total0: real)
    returns (total: real, paramI: nat)
    requires e.Valid() && |theta| == |cs| == changestats.Length == e.Count()
    requires forall k :: 0 <= k < |e.attr| ==>
               cs[|e.structural| + k] == e.attr[k](arcs, i, j, e.attrIndices[k])
    requires forall k :: 0 <= k < |e.structural| ==> changestats[k] == cs[k]
    requires total0 == WeightedSum(theta, cs, sign, |e.structural|)
    modifies changestats
    ensures paramI == |e.structural| + |e.attr|
    ensures forall k :: 0 <= k < paramI ==> changestats[k] == cs[k]
    ensures total == WeightedSum(theta, cs, sign, paramI)
  {
    total, paramI := total0, |e.structural|;
    var l := 0;
    while l < |e.attr|
      invariant 0 <= l <= |e.attr| && paramI == |e.structural| + l
      invariant forall k :: 0 <= k < paramI ==> changestats[k] == cs[k]
      invariant total == WeightedSum(theta, cs, sign, paramI)
    {
      changestats[paramI] := e.attr[l](arcs, i, j, e.attrIndices[l]);
      total := total + Term(theta[paramI], sign, changestats[paramI]);
      paramI := paramI + 1;
      l := l + 1;
    }
  }

  /** The dyadic-covariate loop: fills the last |dyadic| positions. */
  method FillDyadic(arcs: set<Arc>, i: Node, j: Node, theta: seq<real>, e: Effects, sign: real,
                    changestats: array<real>, ghost cs: seq<real>, total0: real)
    returns (total: real, paramI: nat)
    requires e.Valid() && |theta| == |cs| == changestats.Length == e.Count()
    requires forall k :: 0 <= k < |e.dyadic| ==>
               cs[|e.structural| + |e.attr| + k] == e.dyadic[k](arcs, i, j)
    requires forall k :: 0 <= k < |e.structural| + |e.attr| ==> changestats[k] == cs[k]
    requires total0 == WeightedSum(theta, cs, sign, |e.structural| + |e.attr|)
    modifies changestats
    ensures paramI == e.Count()
    ensures forall k :: 0 <= k < paramI ==> changestats[k] == cs[k]
    ensures total == WeightedSum(theta, cs, sign, paramI)
  {
    total, paramI := total0, |e.structural| + |e.attr|;
    var l := 0;
    while l < |e.dyadic|
      invariant 0 <= l <= |e.dyadic| && paramI == |e.structural| + |e.attr| + l
      invariant forall k :: 0 <= k < paramI ==> changestats[k] == cs[k]
      invariant total == WeightedSum(theta, cs, sign, paramI)
    {
      changestats[paramI] := e.dyadic[l](arcs, i, j);
      total := total + Term(theta[paramI], sign, changestats[paramI]);
      paramI := paramI + 1;
      l := l + 1;
    }
  }

  // ---------------------------------------------------------------------
  // Pair selection
  // ---------------------------------------------------------------------

  /** Absolute difference of two wave numbers. */
  function Dist(a: nat, b: nat): nat
  {
    if a < b then b - a else a - b
  }

  /** The snowball rule: i and j lie in the same or adjacent waves, and if
      they are connected (either direction) the node in the higher wave does
      not have exactly one tie to its preceding wave. */
  predicate WaveAdmissible(arcs: set<Arc>, d: Design, i: Node, j: Node)
  {
    i < |d.zone| && j < |d.zone| && i < |d.prevWaveDegree| && j < |d.prevWaveDegree| &&
    Dist(d.zone[i], d.zone[j]) <= 1 &&
    (Connected(arcs, i, j) ==>
       !(d.zone[i] > d.zone[j] && d.prevWaveDegree[i] == 1) &&
       !(d.zone[j] > d.zone[i] && d.prevWaveDegree[j] == 1))
  }

  /** What the selection loop does with a drawn pair of distinct nodes. */
  datatype Verdict = Take | Redraw | AssertFails

  /** Snowball mode: the two zone assertions, then the re-draw condition. */
  function SnowballVerdict(arcs: set<Arc>, d: Design, i: Node, j: Node): (v: Verdict)
    requires d.Valid() && i < d.numNodes && j < d.numNodes
    ensures v == AssertFails <==>
              !(d.zone[i] < d.maxZone && d.zone[j] < d.maxZone) ||
              (Dist(d.zone[i], d.zone[j]) > 1 && Connected(arcs, i, j))
    ensures v == Take <==>
              d.zone[i] < d.maxZone && d.zone[j] < d.maxZone && WaveAdmissible(arcs, d, i, j)
  {
    if !(d.zone[i] < d.maxZone && d.zone[j] < d.maxZone) then AssertFails
    else if !(Dist(d.zone[i], d.zone[j]) <= 1 || !Connected(arcs, i, j)) then AssertFails
    else if Dist(d.zone[i], d.zone[j]) > 1 ||
            (Connected(arcs, i, j) &&
             ((d.zone[i] > d.zone[j] && d.prevWaveDegree[i] == 1) ||
              (d.zone[j] > d.zone[i] && d.prevWaveDegree[j] == 1)))
    then Redraw
    else Take
  }

  /** Unconstrained mode: re-draw only an add that would reciprocate j->i. */
  function UnconstrainedVerdict(arcs: set<Arc>, forbidReciprocity: bool, i: Node, j: Node): (v: Verdict)
    ensures v != AssertFails
    ensures v == Take <==> !forbidReciprocity || (i, j) in arcs || (j, i) !in arcs
  {
    if forbidReciprocity && (i, j) !in arcs && (j, i) in arcs then Redraw else Take
  }

  /** Every draw is a valid int_urand result: an index into the inner nodes
      in snowball mode, a node otherwise. */
  predicate PicksInRange(picks: seq<nat>, snowball: bool, d: Design)
  {
    forall k :: 0 <= k < |picks| ==>
      picks[k] < (if snowball then |d.innerNodes| else d.numNodes)
  }

  /** A node the selection may produce in the given mode. */
  predicate Drawable(x: Node, snowball: bool, d: Design)
  {
    x < d.numNodes && (snowball ==> x in d.innerNodes)
  }

  /** The node named by the draw at position c. */
  function NodeAt(picks: seq<nat>, c: nat, snowball: bool, d: Design): (x: Node)
    requires d.Valid() && PicksInRange(picks, snowball, d) && c < |picks|
    ensures Drawable(x, snowball, d)
  {
    if snowball then d.innerNodes[picks[c]] else picks[c]
  }

  /** The inner re-draw loop for j: the first position at or after q whose
      node differs from i. */
  function FirstOther(picks: seq<nat>, q: nat, i: Node, snowball: bool, d: Design): (r: Option<nat>)
    requires d.Valid() && PicksInRange(picks, snowball, d)
    decreases |picks| - q
    ensures r.Some? ==> q <= r.value < |picks| && NodeAt(picks, r.value, snowball, d) != i
    ensures r.None? ==> forall k :: q <= k < |picks| ==> NodeAt(picks, k, snowball, d) == i
  {
    if q >= |picks| then None
    else if NodeAt(picks, q, snowball, d) != i then Some(q)
    else FirstOther(picks, q + 1, i, snowball, d)
  }

  /** The outcome of pair selection: a pair and the position of the next
      unused draw, a failed assertion, or a draw stream used up. */
  datatype Selection = Selected(i: Node, j: Node, next: nat) | Aborted | Starved

  /** Whether (i, j) may be proposed: distinct nodes of the graph, inner
      nodes obeying the snowball rule in snowball mode, and with
      forbidReciprocity no add of i->j while j->i is present. */
  predicate Admissible(arcs: set<Arc>, snowball: bool, forbidReciprocity: bool, d: Design, i: Node, j: Node)
  {
    i != j && i < d.numNodes && j < d.numNodes &&
    (snowball ==> i in d.innerNodes && j in d.innerNodes && WaveAdmissible(arcs, d, i, j)) &&
    (!snowball && forbidReciprocity ==> (i, j) in arcs || (j, i) !in arcs)
  }

  function PairVerdict(arcs: set<Arc>, snowball: bool, forbidReciprocity: bool, d: Design, i: Node, j: Node): Verdict
    requires d.Valid() && i < d.numNodes && j < d.numNodes
  {
    if snowball then SnowballVerdict(arcs, d, i, j)
    else UnconstrainedVerdict(arcs, forbidReciprocity, i, j)
  }

  /** The do-while selection loop from draw position p: draw i, re-draw j
      until it differs from i, check the assertions, and start again while
      the pair has to be re-drawn. */
  function Select(arcs: set<Arc>, picks: seq<nat>, p: nat, snowball: bool, forbidReciprocity: bool,
                  d: Design): (r: Selection)
    requires d.Valid() && PicksInRange(picks, snowball, d)
    decreases |picks| - p
    ensures r.Selected? ==>
              p < r.next <= |picks| &&
              Admissible(arcs, snowball, forbidReciprocity, d, r.i, r.j) &&
              (snowball ==> d.zone[r.i] < d.maxZone && d.zone[r.j] < d.maxZone)
    ensures r.Aborted? ==> snowball
  {
    if p >= |picks| then Starved
    else
      var i := NodeAt(picks, p, snowball, d);
      match FirstOther(picks, p + 1, i, snowball, d)
      case None => Starved
      case Some(q) =>
        var j := NodeAt(picks, q, snowball, d);
        match PairVerdict(arcs, snowball, forbidReciprocity, d, i, j)
        case AssertFails => Aborted
        case Take => Selected(i, j, q + 1)
        case Redraw => Select(arcs, picks, q + 1, snowball, forbidReciprocity, d)
  }

  /** When the first candidate pair from position p (i from draw p, j from
      the first later draw naming another node) passes the checks, it is the
      pair selected, and the draws after j are left unused. */
  lemma SelectTakesFirstCandidate(arcs: set<Arc>, picks: seq<nat>, p: nat, q: nat, snowball: bool,
                                  forbidReciprocity: bool, d: Design)
    requires d.Valid() && PicksInRange(picks, snowball, d) && p < |picks|
    requires FirstOther(picks, p + 1, NodeAt(picks, p, snowball, d), snowball, d) == Some(q)
    requires PairVerdict(arcs, snowball, forbidReciprocity, d, NodeAt(picks, p, snowball, d),
                         NodeAt(picks, q, snowball, d)) == Take
    ensures Select(arcs, picks, p, snowball, forbidReciprocity, d) ==
              Selected(NodeAt(picks, p, snowball, d), NodeAt(picks, q, snowball, d), q + 1)
  {
  }

  /** With at most one node to draw from (num_nodes <= 1, or at most one
      inner node in snowball mode) no j different from i is ever found: the
      selection uses up every draw. */
  lemma {:induction false} OneDrawableNodeStarves(arcs: set<Arc>, picks: seq<nat>, p: nat, snowball: bool,
                                                  forbidReciprocity: bool, d: Design)
    requires d.Valid() && PicksInRange(picks, snowball, d)
    requires if snowball then |d.innerNodes| <= 1 else d.numNodes <= 1
    ensures Select(arcs, picks, p, snowball, forbidReciprocity, d) == Starved
  {
    if p < |picks| {
      var i := NodeAt(picks, p, snowball, d);
      var r := FirstOther(picks, p + 1, i, snowball, d);
      if r.Some? {
        assert false;
      }
    }
  }

  /** When every pair of distinct drawable nodes has to be re-drawn, no pair
      is ever selected: the selection uses up every draw. */
  lemma {:induction false} NoTakeablePairStarves(arcs: set<Arc>, picks: seq<nat>, p: nat, snowball: bool,
                                                 forbidReciprocity: bool, d: Design)
    requires d.Valid() && PicksInRange(picks, snowball, d)
    requires forall i: Node, j: Node :: Drawable(i, snowball, d) && Drawable(j, snowball, d) && i != j ==>
               PairVerdict(arcs, snowball, forbidReciprocity, d, i, j) == Redraw
    ensures Select(arcs, picks, p, snowball, forbidReciprocity, d) == Starved
    decreases |picks| - p
  {
    if p < |picks| {
      var i := NodeAt(picks, p, snowball, d);
      match FirstOther(picks, p + 1, i, snowball, d)
      case None =>
      case Some(q) =>
        var j := NodeAt(picks, q, snowball, d);
        assert PairVerdict(arcs, snowball, forbidReciprocity, d, i, j) == Redraw;
        NoTakeablePairStarves(arcs, picks, q + 1, snowball, forbidReciprocity, d);
    }
  }

  /** The selection loops of the sampler, run over the draws from `start`. */
  method SelectPair(arcs: set<Arc>, picks: seq<nat>, start: nat, snowball: bool, forbidReciprocity: bool,
                    d: Design)
    returns (sel: Selection)
    requires d.Valid() && PicksInRange(picks, snowball, d)
    ensures sel == Select(arcs, picks, start, snowball, forbidReciprocity, d)
  {
    var p := start;
    while true
      invariant start <= p
      invariant Select(arcs, picks, p, snowball, forbidReciprocity, d) ==
                Select(arcs, picks, start, snowball, forbidReciprocity, d)
      decreases |picks| - p
    {
      if p >= |picks| {
        return Starved;
      }
      var i := NodeAt(picks, p, snowball, d);
      var q := p + 1;
      while q < |picks| && NodeAt(picks, q, snowball, d) == i
        invariant p + 1 <= q <= |picks|
        invariant FirstOther(picks, q, i, snowball, d) == FirstOther(picks, p + 1, i, snowball, d)
        decreases |picks| - q
      {
        q := q + 1;
      }
      if q >= |picks| {
        return Starved;
      }
      var j := NodeAt(picks, q, snowball, d);
      var v := PairVerdict(arcs, snowball, forbidReciprocity, d, i, j);
      if v == AssertFails {
        return Aborted;
      } else if v == Take {
        return Selected(i, j, q + 1);
      }
      p := q + 1;
    }
  }

  // ---------------------------------------------------------------------
  // Proposals, their effect on the graph and on the accumulators
  // ---------------------------------------------------------------------

  /** Fixed inputs of one sampler call: theta, the effects, and the flags
      performMove, useConditionalEstimation and forbidReciprocity. */
  datatype SamplerConfig = SamplerConfig(
    theta: seq<real>,
    effects: Effects,
    performMove: bool,
    conditional: bool,
    forbidReciprocity: bool)
  {
    predicate Valid()
    {
      effects.Valid() && |theta| == effects.Count()
    }
  }

  /** The random draws one sampler call consumes. */
  datatype Oracle = Oracle(picks: seq<nat>, uniforms: seq<real>)

  /** One proposal as the sampler made it: the pair, the position of the
      first draw its selection left unused, whether it was handled as a
      delete, the change statistics, the score and the decision. */
  datatype Proposal = Proposal(i: Node, j: Node, next: nat, isDelete: bool, cs: seq<real>, total: real,
                               accepted: bool)

  /** The arc set on which the change statistics of a proposal are evaluated:
      a delete proposal has i->j temporarily removed. */
  function EvalArcs(arcs: set<Arc>, p: Proposal): set<Arc>
  {
    if p.isDelete then arcs - {(p.i, p.j)} else arcs
  }

  /** The arc set after a proposal, starting from the arc set it was made on
      (which contains i->j whenever the proposal is a delete). */
  function After(arcs: set<Arc>, p: Proposal, performMove: bool): (r: set<Arc>)
    ensures !(p.accepted && performMove) ==> r == arcs
    ensures p.accepted && performMove ==> ((p.i, p.j) in r <==> !p.isDelete)
    ensures r - {(p.i, p.j)} == arcs - {(p.i, p.j)}
  {
    if p.accepted && performMove then
      (if p.isDelete then arcs - {(p.i, p.j)} else arcs + {(p.i, p.j)})
    else arcs
  }

  /** The k-th proposal, made on `arcs` with the draws from position
      `start`, is the one the sampler makes: its pair is the one the
      selection loops pick from those draws. */
  predicate StepOK(arcs: set<Arc>, p: Proposal, k: nat, start: nat, cfg: SamplerConfig, d: Design, o: Oracle,
                   exp: real -> real)
    requires cfg.Valid()
  {
    d.Valid() && PicksInRange(o.picks, cfg.conditional, d) &&
    !(cfg.conditional && cfg.forbidReciprocity) &&
    Select(arcs, o.picks, start, cfg.conditional, cfg.forbidReciprocity, d) == Selected(p.i, p.j, p.next) &&
    p.isDelete == (!cfg.conditional && (p.i, p.j) in arcs) &&
    p.cs == ChangeStatVector(EvalArcs(arcs, p), p.i, p.j, cfg.effects) &&
    p.total == Score(cfg.theta, p.cs, p.isDelete) &&
    k < |o.uniforms| && p.accepted == (o.uniforms[k] < exp(p.total))
  }

  /** The arc set after the proposals of t, in order. */
  function Final(arcs0: set<Arc>, t: seq<Proposal>, performMove: bool): set<Arc>
    decreases |t|
  {
    if t == [] then arcs0
    else After(Final(arcs0, t[..|t| - 1], performMove), t[|t| - 1], performMove)
  }

  /** The position of the first draw not used by the proposals of t. */
  function StartOf(t: seq<Proposal>): nat
  {
    if t == [] then 0 else t[|t| - 1].next
  }

  /** Every proposal of t is the one the sampler makes on the graph and at
      the draw position the earlier proposals left. */
  predicate ValidTrace(arcs0: set<Arc>, t: seq<Proposal>, cfg: SamplerConfig, d: Design, o: Oracle,
                       exp: real -> real)
    requires cfg.Valid()
    decreases |t|
  {
    t == [] ||
    (ValidTrace(arcs0, t[..|t| - 1], cfg, d, o, exp) &&
     StepOK(Final(arcs0, t[..|t| - 1], cfg.performMove), t[|t| - 1], |t| - 1, StartOf(t[..|t| - 1]),
            cfg, d, o, exp))
  }

  /** Every proposal's change-statistic vector has n entries. */
  predicate Sized(t: seq<Proposal>, n: nat)
  {
    forall k :: 0 <= k < |t| ==> |t[k].cs| == n
  }

  function Zeros(n: nat): (r: seq<real>)
    ensures |r| == n && forall k :: 0 <= k < n ==> r[k] == 0.0
  {
    seq(n, k => 0.0)
  }

  function VecAdd(a: seq<real>, b: seq<real>): (r: seq<real>)
    requires |a| == |b|
    ensures |r| == |a| && forall k :: 0 <= k < |a| ==> r[k] == a[k] + b[k]
  {
    seq(|a|, k requires 0 <= k < |a| => a[k] + b[k])
  }

  /** addChangeStats: the sum of the change statistics of accepted adds. */
  function AddSum(t: seq<Proposal>, n: nat): (r: seq<real>)
    requires Sized(t, n)
    decreases |t|
    ensures |r| == n
  {
    if t == [] then Zeros(n)
    else if t[|t| - 1].accepted && !t[|t| - 1].isDelete then VecAdd(AddSum(t[..|t| - 1], n), t[|t| - 1].cs)
    else AddSum(t[..|t| - 1], n)
  }

  /** delChangeStats: the sum of the change statistics of accepted deletes. */
  function DelSum(t: seq<Proposal>, n: nat): (r: seq<real>)
    requires Sized(t, n)
    decreases |t|
    ensures |r| == n
  {
    if t == [] then Zeros(n)
    else if t[|t| - 1].accepted && t[|t| - 1].isDelete then VecAdd(DelSum(t[..|t| - 1], n), t[|t| - 1].cs)
    else DelSum(t[..|t| - 1], n)
  }

  /** The number of accepted proposals. */
  function Accepted(t: seq<Proposal>): (r: nat)
    decreases |t|
    ensures r <= |t|
  {
    if t == [] then 0
    else Accepted(t[..|t| - 1]) + (if t[|t| - 1].accepted then 1 else 0)
  }

  /** The returned acceptance rate: accepted / sampler_m, undefined when
      sampler_m is 0 (the source then divides by zero). */
  function AcceptanceRate(accepted: nat, samplerM: nat): (r: Option<real>)
    ensures r.Some? <==> samplerM > 0
    ensures r.Some? ==> r.value * samplerM as real == accepted as real
    ensures r.Some? && accepted <= samplerM ==> 0.0 <= r.value <= 1.0
  {
    if samplerM == 0 then None else Some(accepted as real / samplerM as real)
  }

  /** The pairs of the accepted proposals: the only arcs that can change. */
  function Touched(t: seq<Proposal>): set<Arc>
    decreases |t|
  {
    if t == [] then {}
    else Touched(t[..|t| - 1]) + (if t[|t| - 1].accepted then {(t[|t| - 1].i, t[|t| - 1].j)} else {})
  }

  // ---------------------------------------------------------------------
  // Properties of a batch of proposals
  // ---------------------------------------------------------------------

  /** Without performMove the arc set after any number of proposals, accepted
      or rejected, is the arc set before them. */
  lemma {:induction false} NoMoveLeavesGraphUnchanged(arcs0: set<Arc>, t: seq<Proposal>)
    ensures Final(arcs0, t, false) == arcs0
  {
    if t != [] {
      NoMoveLeavesGraphUnchanged(arcs0, t[..|t| - 1]);
    }
  }

  /** No arc other than the pair of an accepted proposal ever changes. */
  lemma {:induction false} OnlyAcceptedPairsChange(arcs0: set<Arc>, t: seq<Proposal>, performMove: bool)
    ensures Final(arcs0, t, performMove) - Touched(t) == arcs0 - Touched(t)
  {
    if t != [] {
      var pre := t[..|t| - 1];
      OnlyAcceptedPairsChange(arcs0, pre, performMove);
      var last := t[|t| - 1];
      var before := Final(arcs0, pre, performMove);
      var after := Final(arcs0, t, performMove);
      var all := Touched(t);
      assert Touched(pre) <= all;
      assert before - all == arcs0 - all by {
        assert before - all == (before - Touched(pre)) - all;
        assert arcs0 - all == (arcs0 - Touched(pre)) - all;
      }
      if last.accepted {
        var pair := (last.i, last.j);
        assert pair in all;
        assert after - all == (after - {pair}) - all;
        assert before - all == (before - {pair}) - all;
      }
    }
  }

  /** With forbidReciprocity and no conditional estimation, committed moves
      never create a reciprocated pair when the initial graph has none. */
  lemma {:induction false} ReciprocityPreserved(arcs0: set<Arc>, t: seq<Proposal>, cfg: SamplerConfig, d: Design,
                                                o: Oracle, exp: real -> real)
    requires cfg.Valid() && !cfg.conditional && cfg.forbidReciprocity
    requires ValidTrace(arcs0, t, cfg, d, o, exp)
    requires NoReciprocated(arcs0)
    ensures NoReciprocated(Final(arcs0, t, cfg.performMove))
  {
    if t != [] {
      var pre := t[..|t| - 1];
      ReciprocityPreserved(arcs0, pre, cfg, d, o, exp);
      var before := Final(arcs0, pre, cfg.performMove);
      var p := t[|t| - 1];
      var after := Final(arcs0, t, cfg.performMove);
      assert after == After(before, p, cfg.performMove);
      if p.accepted && cfg.performMove && !p.isDelete {
        assert (p.j, p.i) !in before;
        assert after == before + {(p.i, p.j)};
        forall a | a in after
          ensures (a.1, a.0) !in after
        {
          if a != (p.i, p.j) {
            assert a in before;
          }
        }
      }
    }
  }

  /** As written, the conditional-estimation branch never sets isDelete, so
      with useConditionalEstimation every proposal is an add, no arc is ever
      removed and delChangeStats stays zero. */
  lemma {:induction false} ConditionalNeverDeletes(arcs0: set<Arc>, t: seq<Proposal>, cfg: SamplerConfig, d: Design,
                                                   o: Oracle, exp: real -> real)
    requires cfg.Valid() && cfg.conditional
    requires ValidTrace(arcs0, t, cfg, d, o, exp) && Sized(t, cfg.effects.Count())
    ensures forall k :: 0 <= k < |t| ==> !t[k].isDelete
    ensures arcs0 <= Final(arcs0, t, cfg.performMove)
    ensures DelSum(t, cfg.effects.Count()) == Zeros(cfg.effects.Count())
  {
    if t != [] {
      var pre := t[..|t| - 1];
      assert Sized(pre, cfg.effects.Count());
      ConditionalNeverDeletes(arcs0, pre, cfg, d, o, exp);
      forall k | 0 <= k < |t|
        ensures !t[k].isDelete
      {
        if k < |t| - 1 {
          assert t[k] == pre[k];
        }
      }
    }
  }

  /** With no accepted proposal both accumulators are zero. */
  lemma {:induction false} NothingAcceptedNothingAccumulated(t: seq<Proposal>, n: nat)
    requires Sized(t, n) && Accepted(t) == 0
    ensures AddSum(t, n) == Zeros(n) && DelSum(t, n) == Zeros(n)
  {
    if t != [] {
      var pre := t[..|t| - 1];
      assert Sized(pre, n);
      NothingAcceptedNothingAccumulated(pre, n);
    }
  }

  // ---------------------------------------------------------------------
  // The sampler
  // ---------------------------------------------------------------------

  /** How a sampler call ended: all proposals made, an assertion of the
      source failed (the program aborts), or the oracle ran out of draws. */
  datatype Status = Completed | AssertionFailed | DrawsExhausted

  /** How the k-th iteration of the proposal loop ends when it starts on
      `arcs` at draw position `start`: the constrained-mode assertion on
      forbidReciprocity, then the selection loops, then the uniform draw. */
  function NextStatus(arcs: set<Arc>, start: nat, k: nat, cfg: SamplerConfig, d: Design, o: Oracle): Status
    requires d.Valid() && PicksInRange(o.picks, cfg.conditional, d)
  {
    if cfg.conditional && cfg.forbidReciprocity then AssertionFailed
    else match Select(arcs, o.picks, start, cfg.conditional, cfg.forbidReciprocity, d)
         case Aborted => AssertionFailed
         case Starved => DrawsExhausted
         case Selected(_, _, _) => if k < |o.uniforms| then Completed else DrawsExhausted
  }

  /** A sampler run of at most samplerM proposals that made the proposals
      of t and ended with `status`: all samplerM of them, or an iteration
      that could not complete on the graph and draws t left. */
  predicate SamplerRun(arcs0: set<Arc>, t: seq<Proposal>, status: Status, samplerM: nat, cfg: SamplerConfig,
                       d: Design, o: Oracle, exp: real -> real)
    requires cfg.Valid()
  {
    |t| <= samplerM && (status == Completed <==> |t| == samplerM) &&
    ValidTrace(arcs0, t, cfg, d, o, exp) &&
    (status != Completed ==>
       d.Valid() && PicksInRange(o.picks, cfg.conditional, d) &&
       status == NextStatus(Final(arcs0, t, cfg.performMove), StartOf(t), |t|, cfg, d, o))
  }

  /** acc[l] += cs[l] for every parameter l. */
  method AddInto(acc: array<real>, cs: array<real>)
    requires acc.Length == cs.Length && acc != cs
    modifies acc
    ensures acc[..] == VecAdd(old(acc[..]), cs[..])
  {
    var l := 0;
    while l < acc.Length
      invariant 0 <= l <= acc.Length
      invariant forall k :: 0 <= k < l ==> acc[k] == old(acc[k]) + cs[k]
      invariant forall k :: l <= k < acc.Length ==> acc[k] == old(acc[k])
    {
      acc[l] := acc[l] + cs[l];
      l := l + 1;
    }
  }

  /** Both arrays set to zero, entry by entry. */
  method ZeroBoth(a: array<real>, b: array<real>)
    requires a.Length == b.Length
    modifies a, b
    ensures a[..] == Zeros(a.Length) && b[..] == Zeros(a.Length)
  {
    var l := 0;
    while l < a.Length
      invariant 0 <= l <= a.Length
      invariant forall k :: 0 <= k < l ==> a[k] == 0.0 && b[k] == 0.0
    {
      a[l] := 0.0;
      b[l] := 0.0;
      l := l + 1;
    }
  }

  /** Appending a proposal the sampler can make keeps the trace valid and
      extends the arc set, the accumulators and the acceptance count. */
  lemma ExtendTrace(arcs0: set<Arc>, t: seq<Proposal>, p: Proposal, cfg: SamplerConfig, d: Design, o: Oracle,
                    exp: real -> real)
    requires cfg.Valid() && Sized(t, cfg.effects.Count())
    requires ValidTrace(arcs0, t, cfg, d, o, exp)
    requires StepOK(Final(arcs0, t, cfg.performMove), p, |t|, StartOf(t), cfg, d, o, exp)
    ensures Sized(t + [p], cfg.effects.Count())
    ensures StartOf(t + [p]) == p.next
    ensures ValidTrace(arcs0, t + [p], cfg, d, o, exp)
    ensures Final(arcs0, t + [p], cfg.performMove) == After(Final(arcs0, t, cfg.performMove), p, cfg.performMove)
    ensures AddSum(t + [p], cfg.effects.Count()) ==
              if p.accepted && !p.isDelete then VecAdd(AddSum(t, cfg.effects.Count()), p.cs)
              else AddSum(t, cfg.effects.Count())
    ensures DelSum(t + [p], cfg.effects.Count()) ==
              if p.accepted && p.isDelete then VecAdd(DelSum(t, cfg.effects.Count()), p.cs)
              else DelSum(t, cfg.effects.Count())
    ensures Accepted(t + [p]) == Accepted(t) + (if p.accepted then 1 else 0)
  {
    assert (t + [p])[..|t|] == t;
  }

  /** One proposal on the chosen pair: remove i->j if it is a delete,
      compute the change statistics and the score, decide with the uniform
      draw u, then commit or restore and accumulate. */
  method Propose(g: Digraph, cfg: SamplerConfig, i: Node, j: Node, ghost next: nat, isDelete: bool, u: real,
                 exp: real -> real,
                 changestats: array<real>, addChangeStats: array<real>, delChangeStats: array<real>)
    returns (acc: bool, ghost p: Proposal)
    requires cfg.Valid() && changestats.Length == cfg.effects.Count()
    requires addChangeStats.Length == cfg.effects.Count() && delChangeStats.Length == cfg.effects.Count()
    requires addChangeStats != delChangeStats && changestats != addChangeStats && changestats != delChangeStats
    requires isDelete ==> (i, j) in g.arcs
    modifies g, changestats, addChangeStats, delChangeStats
    ensures p.i == i && p.j == j && p.next == next && p.isDelete == isDelete && p.accepted == acc
    ensures p.cs == ChangeStatVector(EvalArcs(old(g.arcs), p), i, j, cfg.effects)
    ensures p.total == Score(cfg.theta, p.cs, isDelete) && acc == (u < exp(p.total))
    ensures g.arcs == After(old(g.arcs), p, cfg.performMove)
    ensures addChangeStats[..] ==
              if acc && !isDelete then VecAdd(old(addChangeStats[..]), p.cs) else old(addChangeStats[..])
    ensures delChangeStats[..] ==
              if acc && isDelete then VecAdd(old(delChangeStats[..]), p.cs) else old(delChangeStats[..])
  {
    if isDelete {
      g.RemoveArc(i, j);
    }
    var total := ComputeChangeStats(g.arcs, i, j, cfg.theta, cfg.effects, isDelete, changestats);
    acc := u < exp(total);
    p := Proposal(i, j, next, isDelete, changestats[..], total, acc);
    if acc {
      if cfg.performMove {
        // if deleting, the arc is already removed; for an add, insert it now
        if !isDelete {
          g.InsertArc(i, j);
        }
      } else {
        // not doing the move: restore the arc of a delete
        if isDelete {
          g.InsertArc(i, j);
        }
      }
      if isDelete {
        AddInto(delChangeStats, changestats);
      } else {
        AddInto(addChangeStats, changestats);
      }
    } else {
      // rejected: restore the arc of a delete
      if isDelete {
        g.InsertArc(i, j);
      }
    }
  }

  /** One iteration of the proposal loop: the assertion of constrained
      mode, the pair selection from the draws at `cursor`, the isDelete
      decision, and the proposal with uniform k. */
  method SampleOne(g: Digraph, cfg: SamplerConfig, o: Oracle, exp: real -> real, cursor: nat, k: nat,
                   isDelete: bool, changestats: array<real>, addChangeStats: array<real>,
                   delChangeStats: array<real>)
    returns (status: Status, next: nat, isDeleteOut: bool, acc: bool, ghost p: Proposal)
    requires g.Valid() && cfg.Valid() && PicksInRange(o.picks, cfg.conditional, g.design)
    requires changestats.Length == cfg.effects.Count()
    requires addChangeStats.Length == cfg.effects.Count() && delChangeStats.Length == cfg.effects.Count()
    requires addChangeStats != delChangeStats && changestats != addChangeStats && changestats != delChangeStats
    requires cfg.conditional ==> !isDelete
    modifies g, changestats, addChangeStats, delChangeStats
    ensures g.Valid()
    ensures cfg.conditional ==> !isDeleteOut
    ensures status == AssertionFailed ==> cfg.conditional
    ensures status == NextStatus(old(g.arcs), cursor, k, cfg, g.design, o)
    ensures status != Completed ==>
              g.arcs == old(g.arcs) && addChangeStats[..] == old(addChangeStats[..]) &&
              delChangeStats[..] == old(delChangeStats[..])
    ensures status == Completed ==>
              StepOK(old(g.arcs), p, k, cursor, cfg, g.design, o, exp) && acc == p.accepted && next == p.next &&
              g.arcs == After(old(g.arcs), p, cfg.performMove) &&
              addChangeStats[..] ==
                (if p.accepted && !p.isDelete then VecAdd(old(addChangeStats[..]), p.cs) else old(addChangeStats[..])) &&
              delChangeStats[..] ==
                (if p.accepted && p.isDelete then VecAdd(old(delChangeStats[..]), p.cs) else old(delChangeStats[..]))
  {
    next, isDeleteOut, acc := cursor, isDelete, false;
    p := Proposal(0, 0, 0, false, [], 0.0, false);
    if cfg.conditional && cfg.forbidReciprocity {
      status := AssertionFailed;
      return;
    }
    var sel := SelectPair(g.arcs, o.picks, cursor, cfg.conditional, cfg.forbidReciprocity, g.design);
    if !sel.Selected? {
      status := if sel.Aborted? then AssertionFailed else DrawsExhausted;
      return;
    }
    var i, j := sel.i, sel.j;
    next := sel.next;
    // isDelete is only assigned on the unconstrained path; in constrained
    // mode it keeps the value it had.
    if !cfg.conditional {
      isDeleteOut := (i, j) in g.arcs;
    }
    if k >= |o.uniforms| {
      status := DrawsExhausted;
      return;
    }
    status := Completed;
    acc, p := Propose(g, cfg, i, j, next, isDeleteOut, o.uniforms[k], exp, changestats, addChangeStats, delChangeStats);
  }

  /** basicSampler: sampler_m proposals on g. Returns the number of accepted
      proposals and the acceptance rate; `trace` records every proposal, and
      the new arc set and both accumulators are those the trace determines. */
  method BasicSampler(g: Digraph, cfg: SamplerConfig, samplerM: nat, o: Oracle, exp: real -> real,
                      addChangeStats: array<real>, delChangeStats: array<real>)
    returns (status: Status, accepted: nat, rate: Option<real>, ghost trace: seq<Proposal>)
    requires g.Valid() && cfg.Valid()
    requires addChangeStats.Length == cfg.effects.Count() && delChangeStats.Length == cfg.effects.Count()
    requires addChangeStats != delChangeStats
    requires PicksInRange(o.picks, cfg.conditional, g.design)
    modifies g, addChangeStats, delChangeStats
    ensures g.Valid()
    ensures SamplerRun(old(g.arcs), trace, status, samplerM, cfg, g.design, o, exp)
    ensures Sized(trace, cfg.effects.Count())
    ensures g.arcs == Final(old(g.arcs), trace, cfg.performMove)
    ensures addChangeStats[..] == AddSum(trace, cfg.effects.Count())
    ensures delChangeStats[..] == DelSum(trace, cfg.effects.Count())
    ensures accepted == Accepted(trace)
    ensures rate == (if status == Completed then AcceptanceRate(accepted, samplerM) else None)
    ensures status == AssertionFailed ==> cfg.conditional
    ensures cfg.conditional && cfg.forbidReciprocity && samplerM > 0 ==>
              status == AssertionFailed && trace == []
  {
    var n := addChangeStats.Length;
    ZeroBoth(addChangeStats, delChangeStats);
    var changestats := new real[n];
    accepted, status, rate := 0, Completed, None;
    trace := [];
    var isDelete := false;
    var cursor := 0;
    var k := 0;
    while k < samplerM
      invariant 0 <= k <= samplerM && |trace| == k
      invariant g.Valid()
      invariant Sized(trace, n)
      invariant ValidTrace(old(g.arcs), trace, cfg, g.design, o, exp)
      invariant g.arcs == Final(old(g.arcs), trace, cfg.performMove)
      invariant addChangeStats[..] == AddSum(trace, n) && delChangeStats[..] == DelSum(trace, n)
      invariant accepted == Accepted(trace)
      invariant cfg.conditional ==> !isDelete
      invariant cfg.conditional && cfg.forbidReciprocity ==> k == 0
      invariant cursor == StartOf(trace)
      invariant status == Completed
    {
      var acc;
      ghost var p;
      status, cursor, isDelete, acc, p :=
        SampleOne(g, cfg, o, exp, cursor, k, isDelete, changestats, addChangeStats, delChangeStats);
      if status != Completed {
        return;
      }
      if acc {
        accepted := accepted + 1;
      }
      ExtendTrace(old(g.arcs), trace, p, cfg, g.design, o, exp);
      trace := trace + [p];
      k := k + 1;
    }
    rate := AcceptanceRate(accepted, samplerM);
  }
}
