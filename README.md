# EstimNetDirected: basic sampler and Equilibrium Expectation estimation

This project is a Dafny model of the estimation core of EstimNetDirected. That
program fits exponential random graph models (ERGMs) to directed networks with
the Equilibrium Expectation (EE) algorithm. The model covers:

- **The basic MCMC sampler `basicSampler`.** At each of `sampler_m` proposals
  it picks an ordered pair of distinct nodes. In the normal case any pair is
  allowed; with `forbidReciprocity` the sampler redraws pairs that would
  create a reciprocated arc. Under snowball-conditional estimation it picks two
  inner nodes and redraws until the pair respects the wave structure. The
  proposal toggles arc i->j. Its change statistics are evaluated on the graph
  without i->j, and the theta-weighted total is negated for a delete. The
  proposal is accepted when a uniform draw is below `exp(total)`, and the move
  is then applied if `performMove` is set. Accepted change statistics build up
  separately for add and delete moves. The acceptance rate is
  `accepted / sampler_m`.
- **Algorithm S (`algorithm_S`).** It runs M1 sampler batches without moves.
  After each batch it applies the step
  `sign(dzA) * ACA / (add+del)^2 * dzA^2` to theta and adds `dzA^2` to D0, where
  `dzA = del - add`. It ends with `Dmean = sampler_m / D0`.
- **Algorithm EE (`algorithm_EE`).** It runs `Mouter` outer iterations of
  `Minner` sampler batches with moves applied. The dzA vector builds up over the
  whole run, and `theta` moves by `-sign(dzA) * D0 * ACA * dzA^2`. After each
  outer iteration, D0 is rescaled by `sqrt(compC / (sd / |mean|))`. This uses the
  mean and standard deviation of each parameter over the inner iterations: the
  mean is raised to 0.1 when below that in magnitude, and an sd of at most
  1e-10 leaves D0 alone.
- **The parts of `ee_estimate` and `do_estimation` that are logic rather than
  I/O.** These are:
  - the two step counts;
  - the parameter count;
  - the rejection of a parameter named "Arc" in any letter case when the IFD
    sampler is selected;
  - the header line of the theta and dzA output files;
  - the S-then-EE sequence.

The parts that state changes are modelled with state:

- The digraph is a `class Digraph` whose arc set the sampler updates in place.
- theta, D0, dzA and the change-statistic accumulators are `array<real>`.
- The theta trajectory of an outer iteration is an `array2<real>`.

Every loop of the source is a `while` or `for` loop. Each one is proved
against pure specification functions:

- `Final`, `AddSum`, `DelSum` and `Accepted` over a ghost trace of proposals
  for the sampler;
- `SThetas` and `SD0` over the batches for Algorithm S;
- `InnerRun`, `Trajectory`, `RescaleAll` and `EERun` for Algorithm EE.

Which proposals a sampler run makes, and why it stops early, is stated by the
predicates `SamplerRun` and `NextStatus`. Each proposal is the pair `Select`
chooses from where the previous proposal stopped drawing. A run stops early
only with the status `NextStatus` gives at that point. For Algorithm S and
Algorithm EE, `SHistory`, `InnerHistory` and `EEHistory` tie every batch to
such a run, started from the graph the earlier runs left.

The properties are then proved as lemmas about those functions.

### Randomness and numerics

- Randomness is an `Oracle`:
  - `picks` holds the integers returned by `int_urand`, interpreted as an
    inner-node index in snowball mode and as a node otherwise;
  - `uniforms` holds the values returned by `urand`.
- Algorithm S and Algorithm EE take one oracle per sampler batch.
- `exp`, `sqrt` and `mean_and_sd` are function parameters, bundled in
  `Numerics`.
- When the draws run out, the sampler stops with status `DrawsExhausted`. The
  source has no such stop. Where the model runs out of picks or uniforms, the
  source would draw again. Where no pair can ever be selected, the source
  loops forever (see "## Left out").

### Assertions and undefined arithmetic

Each C `assert` becomes an explicit outcome:

| C assertion | model outcome |
|---|---|
| `!forbidReciprocity` in snowball mode | `AssertionFailed` |
| both zones below `max_zone` | `AssertionFailed` |
| no arc between non-adjacent waves | `AssertionFailed` |
| `theta_sd >= 0` | `NegativeSd` |

The undefined results of the arithmetic are outcomes too:

| situation in the source | model outcome |
|---|---|
| `sampler_m == 0` in the computation of M1 | `ZeroSamplerSteps` |
| a zero D0 entry in `sampler_m / D0[l]` | `UndefinedDmean` |

### Where the source disagrees with itself

1. **The basicSampler call signature.** `basicSampler` takes
   `useConditionalEstimation` and `forbidReciprocity`. The calls in
   `algorithm_S` and `algorithm_EE` pass neither flag. `ee_estimate` and
   `do_estimation` do not pass them on either, although
   `src/equilibriumExpectation.h` declares `useConditionalEstimation`
   parameters for `algorithm_S`, `algorithm_EE` and `ee_estimate`. The model
   follows the evident intent: both flags come from the configuration and are
   passed down to every sampler call.
2. **`isDelete` in snowball mode.** `isDelete` is assigned only on the
   unconstrained path (src/basicSampler.c:156). In snowball-conditional mode it
   keeps its initial `FALSE`, so every proposal is an add, even for a pair that
   already has an arc. The model keeps that behaviour, and
   `Sampler.ConditionalNeverDeletes` states its consequences. One case is
   outside the model. An accepted add of a pair whose arc i->j already exists
   calls `insertArc` on an arc that is there (src/basicSampler.c:196-197).
   What that does to the digraph's lists and counts depends on the digraph
   code, which is not part of this model. The model's arc set is a set, so
   adding i->j again leaves it unchanged.

## Model

| member | source | states |
|---|---|---|
| Sampler.ChangeStatSegments | src/basicSampler.c:169-189 | entry k of the change-statistic vector is structural function k for k < n_struct, then attribute function k (with its attribute index) and then dyadic function k, in that order |
| Sampler.ComputeChangeStats | src/basicSampler.c:169-189 | the three loops leave changestats equal to the change-statistic vector of (i, j), and total equals the theta-weighted sum with the sign of the proposal |
| Sampler.DeleteScoreNegatesAddScore | src/basicSampler.c:172-189 | with the sign of a delete the weighted sum is exactly the negation of the add sum, for every prefix of the parameters |
| Sampler.SnowballVerdict | src/basicSampler.c:133-146 | a drawn inner pair fails the assertions iff a zone is not below max_zone or the pair is tied across non-adjacent waves; it is taken iff both zones are in range and the pair is within one wave of each other and a tie would not be the last tie to the preceding wave |
| Sampler.UnconstrainedVerdict | src/basicSampler.c:151-158 | the unconstrained sampler never asserts, and takes a pair iff reciprocity is allowed, i->j exists (a delete) or j->i does not exist |
| Sampler.FirstOther | src/basicSampler.c:134-158 | the redraw of j stops at the first draw that differs from i, and fails only when every remaining draw equals i |
| Sampler.Select | src/basicSampler.c:124-159 | a selected pair is admissible for the mode, consumes at least one draw, and in snowball mode has both zones below max_zone; an aborted selection happens only in snowball mode |
| Sampler.SelectTakesFirstCandidate | src/basicSampler.c:134-158 | when the first draw and the first later draw that differs from it form a pair the mode accepts, that pair is the one selected, and drawing resumes after it |
| Sampler.OneDrawableNodeStarves | src/basicSampler.c:134-154 | with at most one inner node in snowball mode, or at most one node otherwise, no pair is ever selected: the source's redraw loop for j never ends there |
| Sampler.NoTakeablePairStarves | src/basicSampler.c:134-158 | when every pair of distinct drawable nodes must be redrawn, no pair is ever selected: the source's do-while never ends there |
| Sampler.SelectPair | src/basicSampler.c:124-159 | the nested redraw loops return exactly the selection the draw sequence determines |
| Sampler.After | src/basicSampler.c:165-220 | the arc set after a proposal is unchanged unless the proposal is accepted with moves on; an accepted moved proposal leaves i->j present iff it was an add; no other arc ever changes |
| Sampler.AcceptanceRate | src/basicSampler.c:223 | the rate is defined iff sampler_m > 0, and then rate * sampler_m == accepted, so at most sampler_m accepted proposals give a rate in [0, 1] |
| Sampler.AddInto | src/basicSampler.c:207-214 | accumulating adds the change-statistic vector entry by entry |
| Sampler.Propose | src/basicSampler.c:161-220 | the change statistics are evaluated with i->j removed for a delete; the score is the signed weighted total; acceptance is u < exp(total); the new arc set is After; exactly the matching accumulator gains the vector when accepted |
| Sampler.SampleOne | src/basicSampler.c:124-220 | one proposal from the draw cursor: the status is NextStatus, so a failed assertion happens only in snowball mode (always when reciprocity is forbidden there, otherwise when the selection aborts), DrawsExhausted only when the selection starves or uniform k is missing, and completion otherwise; a completed step proposes exactly the pair Select chooses from the cursor, returns the cursor after it, is a valid trace step, and the graph and accumulators change exactly as After and the accumulator update say |
| Sampler.ExtendTrace | src/basicSampler.c:122-221 | appending a valid proposal extends the trace, gives the new graph by After, adds the vector to the add or del sum of an accepted proposal, and counts an acceptance |
| Sampler.BasicSampler | src/basicSampler.c:101-226 | the run is SamplerRun: a valid trace whose every proposal is the pair Select chooses from where the previous one stopped drawing, sampler_m proposals iff the run completes, and an early stop only with the status NextStatus gives at the stopping point; the accumulators start from zero and end as the sums over the accepted add and delete proposals of the trace; the graph ends as the trace determines; accepted counts acceptances; the rate is accepted / sampler_m; snowball mode with forbidReciprocity fails its assertion before any proposal |
| Sampler.NoMoveLeavesGraphUnchanged | src/basicSampler.c:193-220 | with performMove false every proposal is undone, so the sampler leaves the arc set as it found it |
| Sampler.OnlyAcceptedPairsChange | src/basicSampler.c:165-220 | the only arcs that can change are those of accepted proposals |
| Sampler.ReciprocityPreserved | src/basicSampler.c:151-158 | with forbidReciprocity, a graph without reciprocated arcs keeps none after any valid run of the unconstrained sampler |
| Sampler.ConditionalNeverDeletes | src/basicSampler.c:115-159 | in snowball-conditional mode no proposal is a delete, so the arc set only grows and the delete accumulator stays zero |
| Sampler.NothingAcceptedNothingAccumulated | src/basicSampler.c:119-214 | when no proposal is accepted both accumulators stay zero |
| EquilibriumExpectation.SStep | src/equilibriumExpectation.c:145-148 | the Algorithm S step is zero when add + del is zero (da stays 0) or when there is no discrepancy |
| EquilibriumExpectation.SStepFollowsDiscrepancy | src/equilibriumExpectation.c:137-149 | with a positive ACA and a nonzero add + del, theta moves up when del > add and down when del < add |
| EquilibriumExpectation.SUpdate | src/equilibriumExpectation.c:137-151 | the per-parameter loop updates theta by the step and D0 by the squared discrepancy, for every parameter |
| EquilibriumExpectation.SD0Last | src/equilibriumExpectation.c:144 | each batch adds a non-negative squared discrepancy to D0 |
| EquilibriumExpectation.SD0NonNegative | src/equilibriumExpectation.c:107-144 | D0 starts at zero and never becomes negative |
| EquilibriumExpectation.SD0Grows | src/equilibriumExpectation.c:144 | D0 never decreases as batches are added |
| EquilibriumExpectation.SD0ZeroIffNoDiscrepancy | src/equilibriumExpectation.c:144-155 | D0[l] is zero, making Dmean[l] undefined, iff no batch showed a discrepancy in parameter l |
| EquilibriumExpectation.SStepOnce | src/equilibriumExpectation.c:117-153 | one Algorithm S iteration runs the sampler without moves at the current theta, leaves the graph unchanged, and updates theta and D0 from that batch's sums; the run is a SamplerRun at the current theta, so a stop has the reason NextStatus gives; a failed sampler run changes neither theta nor D0 |
| EquilibriumExpectation.SBatches | src/equilibriumExpectation.c:117-153 | after the loop theta and D0 are the specification values for the batches run; row labels are t - M1; all M1 batches run iff every sampler run completes, and an early stop is a SamplerRun of the stopping batch at the theta of its time |
| EquilibriumExpectation.ComputeDmean | src/equilibriumExpectation.c:154-155 | Dmean[l] = sampler_m / D0[l] for every l, reported as defined iff every D0 entry is positive |
| EquilibriumExpectation.AlgorithmS | src/equilibriumExpectation.c:84-164 | the graph is unchanged; theta is zeroed and then follows SThetas over the batches, each batch the sums of a valid sampler trace at the theta of its time; row labels are negative; a stop is a SamplerRun of the stopping batch; Dmean = sampler_m / D0 when D0 is positive, otherwise UndefinedDmean |
| EquilibriumExpectation.EEStep | src/equilibriumExpectation.c:285-286 | no discrepancy gives no EE step |
| EquilibriumExpectation.EEStepOpposesDiscrepancy | src/equilibriumExpectation.c:281-287 | with D0 * ACA >= 0 the EE step never has the sign of dzA, and opposes it strictly when D0 * ACA > 0 and dzA is nonzero |
| EquilibriumExpectation.InnerStep | src/equilibriumExpectation.c:281-293 | an inner step keeps the sizes and leaves D0 unchanged |
| EquilibriumExpectation.TrajectoryAt | src/equilibriumExpectation.c:292 | column k of thetamatrix is theta after the first k + 1 inner steps |
| EquilibriumExpectation.ClampMean | src/equilibriumExpectation.c:308-309 | a mean below 0.1 in magnitude becomes 0.1, any other is kept, so the result has magnitude at least 0.1 |
| EquilibriumExpectation.RescaledD0 | src/equilibriumExpectation.c:313-317 | D0 is unchanged when sd <= 1e-10 and otherwise multiplied by sqrt(compC / (sd / abs(clamped mean))) |
| EquilibriumExpectation.RescaleAll | src/equilibriumExpectation.c:302-318 | the rescaling succeeds iff every parameter's sd over the trajectory is non-negative, and then keeps the length of D0 and gives each entry RescaledD0 of its old value with the mean and sd of that parameter's row of the trajectory |
| EquilibriumExpectation.InnerRunAccumulates | src/equilibriumExpectation.c:235-282 | over any inner loop dzA grows by the sum of add - del over its batches |
| EquilibriumExpectation.EERunAccumulates | src/equilibriumExpectation.c:235-299 | dzA is zeroed once and accumulates over the whole run: the final dzA is the sum of add - del over every batch of every outer iteration |
| EquilibriumExpectation.InnerRowCount | src/equilibriumExpectation.c:253-258 | an inner loop of k steps writes k rows when outputAllSteps is set and otherwise one row if k > 0 |
| EquilibriumExpectation.RowCount | src/equilibriumExpectation.c:252-298 | Algorithm EE writes Mouter * Minner rows when outputAllSteps is set, otherwise Mouter rows if Minner > 0 and none otherwise |
| EquilibriumExpectation.InnerRowsExactly | src/equilibriumExpectation.c:253-298 | row label x is written in an inner loop iff it is one of its step numbers and either outputAllSteps is set or it is the loop's first step |
| EquilibriumExpectation.EEUpdate | src/equilibriumExpectation.c:281-293 | the per-parameter loop performs exactly one InnerStep on theta and dzA and records the new theta in column tinner of thetamatrix, leaving other columns alone |
| EquilibriumExpectation.EEInnerStep | src/equilibriumExpectation.c:253-297 | one inner iteration runs the sampler with moves at the current theta: the run is a SamplerRun from the current graph, the graph becomes Final of its trace, and the batch is the add and delete sums of that trace; a completed run is followed by the inner step on that batch, and a failed run changes nothing of theta, dzA and thetamatrix |
| EquilibriumExpectation.EEInner | src/equilibriumExpectation.c:253-299 | every batch of the inner loop is the sums of a committed sampler run from the graph the earlier runs left, at the theta of its time (InnerHistory); after the loop theta and dzA are InnerRun over its batches, thetamatrix holds the trajectory, the graph is ArcsAfter those runs, and the rows written are InnerRows; a stop records the stopping run |
| EquilibriumExpectation.RescaleD0 | src/equilibriumExpectation.c:302-318 | the loop over parameters rescales D0 exactly as RescaleAll on the recorded trajectory, and fails iff some sd is negative |
| EquilibriumExpectation.EEOuterStep | src/equilibriumExpectation.c:252-318 | one outer iteration is OuterStep: the inner loop, whose batches keep InnerHistory, followed by the D0 rescaling; the graph ends as the inner runs leave it, and an unfinished iteration records why (OuterUnfinished) |
| EquilibriumExpectation.AlgorithmEE | src/equilibriumExpectation.c:214-332 | starting with dzA zero, every batch is the sums of a committed sampler run from the graph the earlier runs left, at the theta of its time (EEHistory); a finished run leaves the graph as those runs leave it and theta, dzA and D0 equal to EERun over Mouter groups of Minner batches, and writes the rows OuterRows; a stopped run records its partial outer iteration and the sampler run that stopped it |
| Driver.NumParam | src/equilibriumExpectation.c:551-554 | the parameter count is the number of structural plus attribute plus dyadic effects |
| Driver.AlgorithmSSteps | src/equilibriumExpectation.c:410 | M1 is the floor of M1_steps * num_nodes / sampler_m, undefined when sampler_m is 0 |
| Driver.ArcSpellings | src/equilibriumExpectation.c:584 | a name equals "Arc" ignoring case iff it is three letters a/A, r/R, c/C |
| Driver.CheckIfdArc | src/equilibriumExpectation.c:582-592 | the check fails iff the IFD sampler is selected and some structural parameter name equals "Arc" ignoring case |
| Driver.Clip | src/equilibriumExpectation.c:497-498 | what the header buffer of the corrected append holds: a prefix of the text of at most HEADER_MAX - 1 characters, and all of it when it fits; the source itself never clips (see Findings) |
| Driver.AppendBoundedStaysInBuffer | src/equilibriumExpectation.c:603-612 | an append bounded by the space left never writes past the buffer and agrees with clipping the concatenation |
| Driver.AsWrittenOverrunsBuffer | src/equilibriumExpectation.c:603 | with the whole buffer size passed to snprintf, a header of 65534 characters followed by " Arc" puts the terminator past the buffer |
| Driver.AppendNames | src/equilibriumExpectation.c:604-612 | with the corrected append (the space left as the bound), the name loop leaves the buffer holding the clipped prefix followed by each name preceded by a space; it agrees with the source only while the header fits |
| Driver.BuildAttrLabels | src/equilibriumExpectation.c:607-609 | attribute columns are labelled parameter name, '_', attribute name |
| Driver.HeaderTextParts | src/equilibriumExpectation.c:601-612 | the header is "t", then " Arc" under IFD, then the structural, attribute and dyadic labels, each preceded by a space |
| Driver.BuildHeader | src/equilibriumExpectation.c:601-613 | the header built with the corrected append is the clipped header text, which is the source's header while that fits in HEADER_MAX - 1 characters |
| Driver.SplitSpaced | src/equilibriumExpectation.c:601-612 | splitting a space-joined header on spaces gives back its names |
| Driver.HeaderColumns | src/equilibriumExpectation.c:601-615 | with space-free names the header splits into "t" followed by one column per parameter (and "Arc" under IFD), so it has 1 + IFD + num_param columns |
| Driver.EeEstimate | src/equilibriumExpectation.c:383-466 | the run satisfies EstimationRun: sampler_m 0 is reported; otherwise Algorithm S runs for M1 steps, each batch a sampler run recorded by SHistory and an early stop by its SamplerRun; on success Algorithm EE starts from the S theta, dzA zero and D0 = Dmean, its runs are recorded by EERunRecord, and the final theta and dzA are EERun over Mouter groups of M = EEinnerSteps batches |
| Driver.DoEstimation | src/equilibriumExpectation.c:548-626 | return code -1 iff the IFD sampler is selected with an Arc parameter; otherwise the theta header ends " AcceptanceRate" and the dzA header is the same header text, built with the corrected append; theta has num_param entries; the Arc refusal and the IFD case leave the graph alone; otherwise the run satisfies EstimationRun, EeEstimate's promise, with the returned theta, dzA, rows and graph |

## Left out

- IFD sampler: the IFD sampler itself (`ifdSampler`, `arcCorrection`, `dzArc`,
  `ifd_aux_param`, `ifd_K`) is not part of this model. `DoEstimation` reports
  `IfdSamplerNotModelled` instead of running it. The Arc check and the header
  do cover the IFD case.
- Files and consoles: file and console output, the `Kafile` debug file, timing,
  MPI task numbers, the output file names and memory allocation are left out.
  The output rows are modelled as their row labels, and the header as a text.
- Reading input: loading the digraph, the attributes and the snowball zones,
  and building the attribute and dyadic indices, are outside the core. The
  digraph is given with its `Design`, and `prev_wave_degree` is taken as given
  rather than recomputed.
- Change statistics: the change-statistic functions are parameters. Their
  bodies live in files that are not part of this model.
- Floating point: `double` arithmetic is modelled with mathematical reals.
  `exp`, `sqrt` and `mean_and_sd` are opaque parameters, and rounding, infinity
  and NaN are not modelled.
- Integer width: `uint_t` is modelled as an unbounded `nat`. Its definition is
  not part of this model, so `M1_steps * num_nodes` overflow and the unsigned
  `t - M1` row label printed with `%d` are not modelled. The model gives
  `t - M1` as an integer.
- Sampler.BasicSampler: the proposal draws come from a finite oracle. A run
  whose picks or uniforms are used up stops with `DrawsExhausted`, where the
  source would go on drawing.
- Sampler.Select: where no pair can ever be selected, the source never
  returns. The redraw loop for j (src/basicSampler.c:136-138 and 152-154)
  never ends with at most one inner node or at most one node. The do-while
  (src/basicSampler.c:134-146 and 151-158) never ends when every pair must be
  redrawn, for example with two inner nodes whose zones differ by 2. The model
  gives `Starved`, and so `DrawsExhausted`, instead. Sampler.OneDrawableNodeStarves
  and Sampler.NoTakeablePairStarves state when that happens.
- Sampler.BasicSampler: the digraph's flat arc list `allarcs` is not modelled;
  the digraph is a set of arcs, and the source documents that the list becomes
  stale.
- EquilibriumExpectation.AlgorithmS: when a D0 entry is zero, C computes an
  infinite or NaN Dmean and carries on. The model reports `UndefinedDmean`,
  and Driver.EeEstimate then does not run Algorithm EE.
- EquilibriumExpectation.AlgorithmEE: a row is counted only once its inner
  step completes. The source prints the label before the sampler runs, so a
  failed run leaves one more label in the file.
- EquilibriumExpectation.SBatches: the same holds for Algorithm S. The source
  prints the label `t - M1` before its sampler call
  (src/equilibriumExpectation.c:118), while the model appends it only after a
  completed batch. A stopped S run therefore has one label fewer in the model,
  and the same goes for EquilibriumExpectation.AlgorithmS.
- Driver.BuildHeader: the header is built with the corrected append of the
  Findings table, so it stays inside the buffer. It equals the source's header
  only while the text fits in HEADER_MAX - 1 characters; beyond that the
  source writes past the buffer. HEADER_MAX counts bytes and HeaderMax counts
  Dafny characters, so the two bounds differ for names that are not ASCII.
- Driver.DoEstimation: the error returns for file opening, the snowball zone
  file and the attribute and dyadic indices are left out, because those come
  from I/O and input parsing. Writing the simulated network is I/O too.

## Findings

| source | as written | input that shows it | evidently intended | confidence | as-written member | corrected member |
|---|---|---|---|---|---|---|
| src/equilibriumExpectation.c:603-612 | each `snprintf(fileheader+strlen(fileheader), HEADER_MAX, ...)` is told the whole buffer size, whatever the header already holds | parameter names that bring the header to 65534 characters, followed by one more name such as "Arc": the terminator lands at index 65538 of a 65536-byte buffer | the size argument is the space left, `HEADER_MAX - strlen(fileheader)`, so the header is truncated inside the buffer | not executed | Driver.AsWrittenEnd, Driver.AsWrittenOverrunsBuffer | Driver.AppendBounded, Driver.AppendBoundedStaysInBuffer |
