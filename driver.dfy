/** The estimation driver: the step counts of the two algorithms, the
    parameter count, the rejection of an Arc parameter under the IFD
    sampler, the output file header, and the S-then-EE sequence. */
module Driver {
  import opened Wrappers
  import opened Graphs
  import opened Sampler
  import opened EquilibriumExpectation

  // ---------------------------------------------------------------------
  // Configuration
  // ---------------------------------------------------------------------

  /** The configuration settings the driver reads: effect names with their
      change statistics, step counts, step-size constants and flags. */
  datatype Config = Config(
    paramNames: seq<string>,
    attrParamNames: seq<string>,
    attrNames: seq<string>,
    dyadicParamNames: seq<string>,
    effects: Effects,
    samplerSteps: nat,
    sSteps: nat,
    eeSteps: nat,
    eeInnerSteps: nat,
    acaS: real,
    acaEE: real,
    compC: real,
    outputAllSteps: bool,
    useIFDsampler: bool,
    useConditionalEstimation: bool,
    forbidReciprocity: bool)
  {
    /** One name per structural, attribute and dyadic effect. */
    predicate Valid()
    {
      effects.Valid() &&
      |paramNames| == |effects.structural| &&
      |attrParamNames| == |effects.attr| && |attrNames| == |effects.attr| &&
      |dyadicParamNames| == |effects.dyadic|
    }
  }

  /** The number of parameters: structural plus attribute plus dyadic. It is
      the length of theta the sampler and both algorithms work on. */
  function NumParam(c: Config): (r: nat)
    requires c.Valid()
    ensures r == c.effects.Count()
  {
    |c.paramNames| + |c.attrParamNames| + |c.dyadicParamNames|
  }

  /** The number of Algorithm S steps, M1 = floor(M1_steps * num_nodes /
      sampler_m); None when sampler_m is 0 and the division is undefined. */
  function AlgorithmSSteps(m1Steps: nat, numNodes: nat, samplerM: nat): (r: Option<nat>)
    ensures r.None? <==> samplerM == 0
    ensures r.Some? ==> r.value * samplerM <= m1Steps * numNodes < (r.value + 1) * samplerM
  {
    if samplerM == 0 then None else Some(m1Steps * numNodes / samplerM)
  }

  // ---------------------------------------------------------------------
  // The IFD / Arc check
  // ---------------------------------------------------------------------

  /** ASCII lower-casing, as strcasecmp compares in the C locale. */
  function Lower(ch: char): char
  {
    if 'A' <= ch <= 'Z' then (ch as int - 'A' as int + 'a' as int) as char else ch
  }

  /** Equality ignoring ASCII case. */
  predicate EqualsIgnoreCase(a: string, b: string)
  {
    |a| == |b| && forall k :: 0 <= k < |a| ==> Lower(a[k]) == Lower(b[k])
  }

  /** The name of the Arc parameter. */
  const ArcParam: string := "Arc"

  /** The names equal to "Arc" ignoring case are exactly the eight spellings
      of a, r, c in either case. */
  lemma ArcSpellings(s: string)
    ensures EqualsIgnoreCase(s, ArcParam) <==>
              |s| == 3 && (s[0] == 'a' || s[0] == 'A') && (s[1] == 'r' || s[1] == 'R') &&
              (s[2] == 'c' || s[2] == 'C')
  {
    if |s| == 3 {
      assert Lower(ArcParam[0]) == 'a' && Lower(ArcParam[1]) == 'r' && Lower(ArcParam[2]) == 'c';
      if EqualsIgnoreCase(s, ArcParam) {
        assert Lower(s[0]) == 'a' && Lower(s[1]) == 'r' && Lower(s[2]) == 'c';
      }
    }
  }

  /** The structural-parameter loop of the IFD check: false as soon as a
      name equals "Arc" ignoring case while the IFD sampler is selected. */
  method CheckIfdArc(paramNames: seq<string>, useIFDsampler: bool) returns (ok: bool)
    ensures ok <==> !(useIFDsampler && exists k :: 0 <= k < |paramNames| && EqualsIgnoreCase(paramNames[k], ArcParam))
  {
    if useIFDsampler {
      for i := 0 to |paramNames|
        invariant forall k :: 0 <= k < i ==> !EqualsIgnoreCase(paramNames[k], ArcParam)
      {
        if |paramNames[i]| == |ArcParam| {
          var same := true;
          for p := 0 to |ArcParam|
            invariant same <==> forall q :: 0 <= q < p ==> Lower(paramNames[i][q]) == Lower(ArcParam[q])
          {
            if Lower(paramNames[i][p]) != Lower(ArcParam[p]) {
              same := false;
            }
          }
          if same {
            return false;
          }
        }
      }
    }
    return true;
  }

  // ---------------------------------------------------------------------
  // The output header
  // ---------------------------------------------------------------------

  /** The size of the header buffer, including its terminating NUL. */
  const HeaderMax: nat := 65536

  /** Each string preceded by a space, concatenated. */
  function Spaced(xs: seq<string>): string
    decreases |xs|
  {
    if xs == [] then "" else " " + xs[0] + Spaced(xs[1..])
  }

  /** The label of attribute effect i: parameter name, '_', attribute name. */
  function AttrLabels(c: Config): (r: seq<string>)
    requires c.Valid()
    ensures |r| == |c.attrParamNames|
  {
    seq(|c.attrParamNames|, i requires 0 <= i < |c.attrParamNames| => c.attrParamNames[i] + "_" + c.attrNames[i])
  }

  /** The columns of the theta and dzA files after "t": "Arc" first when the
      IFD sampler is selected, then every structural, attribute and dyadic
      parameter in that order. */
  function HeaderTail(c: Config): seq<string>
    requires c.Valid()
  {
    (if c.useIFDsampler then [ArcParam] else []) + c.paramNames + AttrLabels(c) + c.dyadicParamNames
  }

  function HeaderText(c: Config): string
    requires c.Valid()
  {
    "t" + Spaced(HeaderTail(c))
  }

  /** What fits in the buffer before the NUL. */
  function Clip(s: string): (r: string)
    ensures |r| <= |s| && |r| <= HeaderMax - 1 && r == s[..|r|]
    ensures |s| < HeaderMax ==> r == s
  {
    if |s| < HeaderMax then s else s[..HeaderMax - 1]
  }

  /** Clipping before an append and after it is the same as clipping once. */
  lemma ClipAppend(a: string, b: string)
    ensures Clip(Clip(a) + b) == Clip(a + b)
  {
    if |a| >= HeaderMax {
      assert (Clip(a) + b)[..HeaderMax - 1] == (a + b)[..HeaderMax - 1];
    }
  }

  lemma {:induction false} SpacedConcat(a: seq<string>, b: seq<string>)
    ensures Spaced(a + b) == Spaced(a) + Spaced(b)
    decreases |a|
  {
    if a == [] {
      assert a + b == b;
    } else {
      assert (a + b)[1..] == a[1..] + b;
      SpacedConcat(a[1..], b);
    }
  }

  /** One append of the header loop, where the NUL lands at index
      CorrectedEnd: snprintf given the space that is left in the buffer. */
  function CorrectedEnd(len: nat, piece: string): nat
    requires len < HeaderMax
  {
    len + (if |piece| < HeaderMax - len - 1 then |piece| else HeaderMax - len - 1)
  }

  function AppendBounded(header: string, piece: string): (r: string)
    requires |header| < HeaderMax
    ensures |r| == CorrectedEnd(|header|, piece)
  {
    (header + piece)[..CorrectedEnd(|header|, piece)]
  }

  /** The bounded append never writes past the buffer and extends a header
      that already fits exactly like clipping the concatenation. */
  lemma AppendBoundedStaysInBuffer(header: string, piece: string)
    requires |header| < HeaderMax
    ensures CorrectedEnd(|header|, piece) < HeaderMax
    ensures AppendBounded(header, piece) == Clip(header + piece)
  {
  }

  /** The NUL index of one append as written: snprintf is told the whole
      buffer size whatever the header already holds. */
  function AsWrittenEnd(len: nat, piece: string): nat
  {
    len + (if |piece| < HeaderMax - 1 then |piece| else HeaderMax - 1)
  }

  /** As written, a header already 65534 characters long followed by the
      piece " Arc" puts the NUL at index 65538, beyond the buffer, while the
      bounded append stays within it. */
  lemma AsWrittenOverrunsBuffer()
    ensures AsWrittenEnd(HeaderMax - 2, " Arc") >= HeaderMax
    ensures CorrectedEnd(HeaderMax - 2, " Arc") == HeaderMax - 1
  {
  }

  /** One iteration of a name loop. */
  lemma AppendNameStep(r: string, prefix: string, names: seq<string>, i: nat)
    requires i < |names| && |r| < HeaderMax && r == Clip(prefix + Spaced(names[..i]))
    ensures |AppendBounded(r, " " + names[i])| < HeaderMax
    ensures AppendBounded(r, " " + names[i]) == Clip(prefix + Spaced(names[..i + 1]))
  {
    AppendBoundedStaysInBuffer(r, " " + names[i]);
    ClipAppend(prefix + Spaced(names[..i]), " " + names[i]);
    assert names[..i + 1] == names[..i] + [names[i]];
    SpacedConcat(names[..i], [names[i]]);
    assert Spaced([names[i]]) == " " + names[i];
    assert prefix + Spaced(names[..i + 1]) == prefix + Spaced(names[..i]) + (" " + names[i]);
  }

  /** Append " " + each name to the header. */
  method AppendNames(header: string, ghost prefix: string, names: seq<string>) returns (r: string)
    requires |header| < HeaderMax && header == Clip(prefix)
    ensures |r| < HeaderMax && r == Clip(prefix + Spaced(names))
  {
    r := header;
    assert prefix + Spaced(names[..0]) == prefix;
    for i := 0 to |names|
      invariant |r| < HeaderMax && r == Clip(prefix + Spaced(names[..i]))
    {
      AppendNameStep(r, prefix, names, i);
      r := AppendBounded(r, " " + names[i]);
    }
    assert names[..|names|] == names;
  }

  /** The header text is the four groups of columns one after another. */
  lemma HeaderTextParts(c: Config)
    requires c.Valid()
    ensures HeaderText(c) ==
              "t" + Spaced(if c.useIFDsampler then [ArcParam] else []) + Spaced(c.paramNames) +
              Spaced(AttrLabels(c)) + Spaced(c.dyadicParamNames)
  {
    var ifd := if c.useIFDsampler then [ArcParam] else [];
    var x1, x2 := ifd + c.paramNames, ifd + c.paramNames + AttrLabels(c);
    SpacedConcat(ifd, c.paramNames);
    SpacedConcat(x1, AttrLabels(c));
    SpacedConcat(x2, c.dyadicParamNames);
    assert HeaderTail(c) == x2 + c.dyadicParamNames;
    assert Spaced(x2) == Spaced(ifd) + Spaced(c.paramNames) + Spaced(AttrLabels(c));
  }

  /** The attribute labels, built one by one. */
  method BuildAttrLabels(c: Config) returns (labels: seq<string>)
    requires c.Valid()
    ensures labels == AttrLabels(c)
  {
    labels := [];
    for i := 0 to |c.attrParamNames|
      invariant labels == AttrLabels(c)[..i]
    {
      labels := labels + [c.attrParamNames[i] + "_" + c.attrNames[i]];
    }
  }

  /** The header line construction: "t", then " Arc" under the IFD sampler,
      then " name" per structural effect, " param_attr" per attribute effect
      and " name" per dyadic effect, kept within the buffer. */
  method BuildHeader(c: Config) returns (header: string)
    requires c.Valid()
    ensures header == Clip(HeaderText(c))
  {
    var ifd: seq<string> := if c.useIFDsampler then [ArcParam] else [];
    header := "t";
    if c.useIFDsampler {
      header := AppendBounded(header, " " + ArcParam);
    }
    assert Spaced(ifd) == if c.useIFDsampler then " " + ArcParam else "";
    ghost var text := "t" + Spaced(ifd);
    header := AppendNames(header, text, c.paramNames);
    text := text + Spaced(c.paramNames);
    var labels := BuildAttrLabels(c);
    header := AppendNames(header, text, labels);
    text := text + Spaced(labels);
    header := AppendNames(header, text, c.dyadicParamNames);
    text := text + Spaced(c.dyadicParamNames);
    HeaderTextParts(c);
  }

  // ---------------------------------------------------------------------
  // Reading the header back
  // ---------------------------------------------------------------------

  predicate NoSpace(s: string)
  {
    forall k :: 0 <= k < |s| ==> s[k] != ' '
  }

  /** The index of the first space. */
  function FirstSpace(s: string): (i: nat)
    requires !NoSpace(s)
    ensures i < |s| && s[i] == ' ' && NoSpace(s[..i])
    decreases |s|
  {
    if s[0] == ' ' then 0
    else
      var i := 1 + FirstSpace(s[1..]);
      assert s[..i] == [s[0]] + s[1..][..i - 1];
      i
  }

  /** The strings between the spaces of s. */
  function SplitOnSpaces(s: string): (r: seq<string>)
    decreases |s|
  {
    if NoSpace(s) then [s] else [s[..FirstSpace(s)]] + SplitOnSpaces(s[FirstSpace(s) + 1..])
  }

  lemma FirstSpaceAt(s: string, i: nat)
    requires i < |s| && s[i] == ' ' && NoSpace(s[..i])
    ensures !NoSpace(s) && FirstSpace(s) == i
  {
  }

  /** Splitting a space-separated line gives back its fields. */
  lemma {:induction false} SplitSpaced(first: string, rest: seq<string>)
    requires NoSpace(first) && forall k :: 0 <= k < |rest| ==> NoSpace(rest[k])
    ensures SplitOnSpaces(first + Spaced(rest)) == [first] + rest
    decreases |rest|
  {
    if rest == [] {
      assert first + Spaced(rest) == first;
    } else {
      var s := first + Spaced(rest);
      assert s == first + " " + (rest[0] + Spaced(rest[1..]));
      FirstSpaceAt(s, |first|);
      assert s[..|first|] == first;
      assert s[|first| + 1..] == rest[0] + Spaced(rest[1..]);
      SplitSpaced(rest[0], rest[1..]);
      assert [rest[0]] + rest[1..] == rest;
    }
  }

  /** With space-free names, the header reads back as "t" and one column per
      parameter (and "Arc" first under the IFD sampler), so it has exactly
      num_param + 1 columns, or num_param + 2 with the IFD sampler. */
  lemma HeaderColumns(c: Config)
    requires c.Valid()
    requires forall k :: 0 <= k < |c.paramNames| ==> NoSpace(c.paramNames[k])
    requires forall k :: 0 <= k < |c.attrParamNames| ==> NoSpace(c.attrParamNames[k]) && NoSpace(c.attrNames[k])
    requires forall k :: 0 <= k < |c.dyadicParamNames| ==> NoSpace(c.dyadicParamNames[k])
    ensures SplitOnSpaces(HeaderText(c)) == ["t"] + HeaderTail(c)
    ensures |SplitOnSpaces(HeaderText(c))| == 1 + (if c.useIFDsampler then 1 else 0) + NumParam(c)
  {
    var tail := HeaderTail(c);
    forall k | 0 <= k < |tail|
      ensures NoSpace(tail[k])
    {
      var ifd := if c.useIFDsampler then [ArcParam] else [];
      if k < |ifd| {
      } else if k < |ifd| + |c.paramNames| {
        assert tail[k] == c.paramNames[k - |ifd|];
      } else if k < |ifd| + |c.paramNames| + |c.attrParamNames| {
        var i := k - |ifd| - |c.paramNames|;
        assert tail[k] == c.attrParamNames[i] + "_" + c.attrNames[i];
      } else {
        assert tail[k] == c.dyadicParamNames[k - |ifd| - |c.paramNames| - |c.attrParamNames|];
      }
    }
    SplitSpaced("t", tail);
  }

  // ---------------------------------------------------------------------
  // Algorithm S followed by Algorithm EE
  // ---------------------------------------------------------------------

  /** How an estimation ends: after (or inside) the two algorithms, on a zero
      sampler_m in the step count, under the IFD sampler (not part of this
      model), or refused because of an Arc parameter under the IFD sampler. */
  datatype RunResult = Ran(outcome: Outcome) | ZeroSamplerSteps | IfdSamplerNotModelled | ArcWithIfd

  /** Dmean = sampler_m / D0 per parameter. */
  function DmeanOf(samplerM: nat, d0: seq<real>): (r: seq<real>)
    requires forall l :: 0 <= l < |d0| ==> d0[l] > 0.0
    ensures |r| == |d0|
  {
    seq(|d0|, l requires 0 <= l < |d0| => samplerM as real / d0[l])
  }

  /** What an estimation run of ee_estimate leaves, from the graph arcs0:
      sampler_m 0 is reported; otherwise Algorithm S makes M1 steps recorded
      by SHistory, an early S stop by its SamplerRun, and once S succeeds
      Algorithm EE starts from the S theta, dzA zero and D0 = Dmean, recorded
      by EERunRecord; a finished run ends in EERun's theta and dzA. */
  predicate EstimationRun(arcs0: set<Arc>, d: Design, effects: Effects, samplerM: nat, m1Steps: nat, mOuter: nat,
                          mSteps: nat, acaS: real, acaEE: real, compC: real, outputAllSteps: bool,
                          conditional: bool, forbidReciprocity: bool, sOracles: seq<Oracle>, eeOracles: seq<Oracle>,
                          num: Numerics, result: RunResult, sRows: seq<int>, eeRows: seq<nat>, dzA: seq<real>,
                          sBatches: seq<Batch>, eeGroups: seq<seq<Batch>>, sTraces: seq<seq<Proposal>>,
                          eeTraces: seq<seq<seq<Proposal>>>, partial: seq<Batch>, partialTs: seq<seq<Proposal>>,
                          stopTrace: seq<Proposal>, theta: seq<real>, arcs: set<Arc>)
  {
    effects.Valid() && |theta| == effects.Count() &&
    (result == ZeroSamplerSteps <==> samplerM == 0) &&
    (result != ZeroSamplerSteps ==> result.Ran?) &&
    (samplerM > 0 ==>
      var m1 := AlgorithmSSteps(m1Steps, d.numNodes, samplerM).value;
      BatchesSized(sBatches, |theta|) && |sBatches| <= m1 && |sRows| == |sBatches| &&
      (forall k :: 0 <= k < |sRows| ==> sRows[k] == k - m1) &&
      SHistory(arcs0, d, effects, conditional, forbidReciprocity, samplerM, sOracles, num.exp,
               acaS, sBatches, sTraces) &&
      (|sBatches| < m1 ==>
         result.Ran? && result.outcome.Stopped? && arcs == arcs0 &&
         SamplerRun(arcs0, stopTrace, result.outcome.why, samplerM,
                    SConfig(SThetas(|theta|, sBatches, acaS), effects, conditional, forbidReciprocity),
                    d, OracleAt(sOracles, |sBatches|), num.exp))) &&
    (samplerM > 0 && |sBatches| == AlgorithmSSteps(m1Steps, d.numNodes, samplerM).value &&
     (forall l :: 0 <= l < |theta| ==> SD0(|theta|, sBatches)[l] > 0.0) ==>
      var n := |theta|;
      var s0 := EEState(SThetas(n, sBatches, acaS), Zeros(n), DmeanOf(samplerM, SD0(n, sBatches)));
      result.Ran? && result.outcome != UndefinedDmean &&
      EERunRecord(arcs0, d, effects, conditional, forbidReciprocity, samplerM, mOuter, mSteps,
                  eeOracles, acaEE, compC, num, s0, eeGroups, eeTraces, partial, partialTs, stopTrace,
                  result.outcome, theta, arcs)) &&
    (result == Ran(Finished) ==>
      var n := |theta|;
      samplerM > 0 && |sBatches| == AlgorithmSSteps(m1Steps, d.numNodes, samplerM).value &&
      (forall l :: 0 <= l < n ==> SD0(n, sBatches)[l] > 0.0) &&
      GroupsSized(eeGroups, n) && |eeGroups| == mOuter &&
      (forall k :: 0 <= k < mOuter ==> |eeGroups[k]| == mSteps) &&
      var run := EERun(EEState(SThetas(n, sBatches, acaS), Zeros(n), DmeanOf(samplerM, SD0(n, sBatches))),
                       eeGroups, acaEE, compC, num);
      run.Some? && run.value.theta == theta && run.value.dzA == dzA &&
      eeRows == OuterRows(mOuter, mSteps, outputAllSteps))
  }

  /** Algorithm S for M1 steps, then Algorithm EE from its theta with D0 set
      to its Dmean, Mouter outer and Msteps (unscaled) inner iterations. */
  method EeEstimate(g: Digraph, effects: Effects, samplerM: nat, m1Steps: nat, mOuter: nat, mSteps: nat,
                    acaS: real, acaEE: real, compC: real, theta: array<real>, outputAllSteps: bool,
                    conditional: bool, forbidReciprocity: bool,
                    sOracles: seq<Oracle>, eeOracles: seq<Oracle>, num: Numerics)
    returns (result: RunResult, sRows: seq<int>, eeRows: seq<nat>, dzA: seq<real>,
             ghost sBatches: seq<Batch>, ghost eeGroups: seq<seq<Batch>>, ghost sTraces: seq<seq<Proposal>>,
             ghost eeTraces: seq<seq<seq<Proposal>>>, ghost partial: seq<Batch>, ghost partialTs: seq<seq<Proposal>>,
             ghost stopTrace: seq<Proposal>)
    requires g.Valid() && effects.Valid() && theta.Length == effects.Count()
    requires OraclesInRange(sOracles, conditional, g.design) && OraclesInRange(eeOracles, conditional, g.design)
    modifies g, theta
    ensures g.Valid()
    ensures EstimationRun(old(g.arcs), g.design, effects, samplerM, m1Steps, mOuter, mSteps, acaS, acaEE, compC,
                          outputAllSteps, conditional, forbidReciprocity, sOracles, eeOracles, num, result, sRows,
                          eeRows, dzA, sBatches, eeGroups, sTraces, eeTraces, partial, partialTs, stopTrace,
                          theta[..], g.arcs)
  {
    var n := theta.Length;
    sRows, eeRows, dzA, sBatches, eeGroups, sTraces, eeTraces, partial, partialTs, stopTrace :=
      [], [], [], [], [], [], [], [], [], [];
    if samplerM == 0 {
      result := ZeroSamplerSteps;
      return;
    }
    var m1 := m1Steps * g.design.numNodes / samplerM;
    var mInner := mSteps;
    var dmean := new real[n];
    var outcome;
    outcome, sRows, sBatches, sTraces, stopTrace := AlgorithmS(g, effects, m1, samplerM, acaS, theta, dmean,
                                                               conditional, forbidReciprocity, sOracles, num.exp);
    if outcome != Finished {
      result := Ran(outcome);
      return;
    }
    assert dmean[..] == DmeanOf(samplerM, SD0(n, sBatches));
    outcome, dzA, eeRows, eeGroups, eeTraces, partial, partialTs, stopTrace :=
      AlgorithmEE(g, effects, mOuter, mInner, samplerM, acaEE, compC, dmean, theta, outputAllSteps, conditional,
                  forbidReciprocity, eeOracles, num);
    result := Ran(outcome);
  }

  /** The modelled part of do_estimation: the parameter count, the Arc check
      under the IFD sampler (-1), the header lines of the theta and dzA
      files, and the estimation itself (0). */
  method DoEstimation(c: Config, g: Digraph, sOracles: seq<Oracle>, eeOracles: seq<Oracle>, num: Numerics)
    returns (code: int, result: RunResult, thetaHeader: string, dzAHeader: string, theta: seq<real>,
             sRows: seq<int>, eeRows: seq<nat>, dzA: seq<real>,
             ghost sBatches: seq<Batch>, ghost eeGroups: seq<seq<Batch>>, ghost sTraces: seq<seq<Proposal>>,
             ghost eeTraces: seq<seq<seq<Proposal>>>, ghost partial: seq<Batch>, ghost partialTs: seq<seq<Proposal>>,
             ghost stopTrace: seq<Proposal>)
    requires c.Valid() && g.Valid()
    requires OraclesInRange(sOracles, c.useConditionalEstimation, g.design)
    requires OraclesInRange(eeOracles, c.useConditionalEstimation, g.design)
    modifies g
    ensures code == -1 || code == 0
    ensures code == -1 <==>
              c.useIFDsampler && exists k :: 0 <= k < |c.paramNames| && EqualsIgnoreCase(c.paramNames[k], ArcParam)
    ensures code == -1 <==> result == ArcWithIfd
    ensures code == 0 ==>
              thetaHeader == Clip(HeaderText(c)) + " AcceptanceRate\n" && dzAHeader == Clip(HeaderText(c)) + "\n"
    ensures code == 0 ==> (result == IfdSamplerNotModelled <==> c.useIFDsampler)
    ensures code == 0 ==> |theta| == NumParam(c)
    ensures code == -1 || c.useIFDsampler ==> g.arcs == old(g.arcs)
    ensures code == 0 && !c.useIFDsampler ==>
              EstimationRun(old(g.arcs), g.design, c.effects, c.samplerSteps, c.sSteps, c.eeSteps, c.eeInnerSteps,
                            c.acaS, c.acaEE, c.compC, c.outputAllSteps, c.useConditionalEstimation,
                            c.forbidReciprocity, sOracles, eeOracles, num, result, sRows, eeRows, dzA, sBatches,
                            eeGroups, sTraces, eeTraces, partial, partialTs, stopTrace, theta, g.arcs)
  {
    var numParam := |c.paramNames| + |c.attrParamNames| + |c.dyadicParamNames|;
    var thetaArray := new real[numParam];
    thetaHeader, dzAHeader, theta, sRows, eeRows, dzA := "", "", [], [], [], [];
    sBatches, eeGroups, sTraces, eeTraces, partial, partialTs, stopTrace := [], [], [], [], [], [], [];
    var ok := CheckIfdArc(c.paramNames, c.useIFDsampler);
    if !ok {
      code, result := -1, ArcWithIfd;
      return;
    }
    var header := BuildHeader(c);
    thetaHeader := header + " AcceptanceRate\n";
    dzAHeader := header + "\n";
    code := 0;
    if c.useIFDsampler {
      result := IfdSamplerNotModelled;
      theta := thetaArray[..];
      return;
    }
    result, sRows, eeRows, dzA, sBatches, eeGroups, sTraces, eeTraces, partial, partialTs, stopTrace :=
      EeEstimate(g, c.effects, c.samplerSteps, c.sSteps, c.eeSteps, c.eeInnerSteps, c.acaS, c.acaEE, c.compC,
                 thetaArray, c.outputAllSteps, c.useConditionalEstimation, c.forbidReciprocity,
                 sOracles, eeOracles, num);
    theta := thetaArray[..];
  }
}
