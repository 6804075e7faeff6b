# Verified models of an API server library

This project models the algorithms and protocols of the Go library `github.com/yubo/apiserver`
in Dafny and proves what they are for. Each `.dfy` file is one component. Go code that updates
fields, maps, slices or buffers in place is modelled by classes and methods that do the same, and
each method is proved against a function or relation on values; the laws are lemmas about those.

| File | Component | Main results |
|---|---|---|
| `ObjectGraph.dfy`, `DeepEqual.dfy` | semantic deep equality over cyclic values | the comparison terminates whenever every cycle of comparisons passes through a remembered one, and decides bisimilarity |
| `DeepDerivative.dfy` | deep derivation | never refuses a derivative; what it accepts is one exactly if all that it took on trust are, and always if no pair is met in both orders; equality implies derivation both ways; derivation is transitive |
| `RequestCache.dfy`, `Base64Url.dfy` | single-use token cache | every run refines a plain map that never collects garbage; single use, expiry, capacity; the uniqueness check is right exactly if 4 divides the token length |
| `Timeout.dfy` | timeout filter | over all interleavings of handler, timeout and drain: what reaches the response, and that the handler's result is received exactly once within five internal steps |
| `WeightedHistogram.dfy`, `TimingHistogram.dfy` | histograms | conservation of weight and sum; the timing histogram is the time integral of its gauge |
| `Quantile.dfy` | quantile estimator | bracketed, monotone, no division by zero; a vector's quantile is that of its sum |
| `WarningRecorder.dfy` | warning headers | headers are a function of the distinct warnings, within a budget |
| `FeatureGate.dfy` | feature gates | the result of a map does not depend on iteration order; exact condition for locks |
| `RandSlice.dfy` | shuffle | a bijection between legal random numbers and permutations |
| `MultimapFlag.dfy`, `Strings.dfy` | multimap flag | printing and parsing round-trip exactly under a stated condition |
| `RequestInfo.dfy` | URL parsing | inverse of a URL grammar, in both directions |
| `ServingCertificates.dfy` | dynamic TLS configuration | the served configuration is always the build of the last good content; precedence of names |
| `AuditFilter.dfy` | audit filter | the exact sequence of stages for every handler |
| `Options.dfy` | values that may be absent | shared by the other files |
| `LogReduction.dfy` | log reduction | forgetting cannot be observed; repetitions are at least the delay apart |

Conventions. Clock readings, random numbers, answers of other components (a sink, a parser, the
underlying response writer) and the order in which Go walks a map are parameters or arbitrary
choices. `float64` is `real`; strings are sequences of characters. A history or log held in a
ghost field records the calls so far, and the laws are stated over all histories. Lemmas carry
`{:induction false}`: every induction is written out.

Where code and comment disagree, the model follows the code. `uniqueToken` checks the whole
encoding and not the token it returns; `CheckRejectsTakenExactly` says when that is enough, and it
is for the length 8 in use. `AllAlpha` and `AllBeta` do not consult `LockToDefault`;
`LockKeptExactly` says when a locked feature keeps its default all the same. `DeepDerivative` stores
compared pairs without their order; `OneOrder` is a condition on the operands under which that is harmless,
and `AcceptsReversed` an input for which it is not.

## Model

| member | source | states |
|---|---|---|
| `ObjectGraph.VisitDeterminesPair` | pkg/conversion/deep_equal.go:125-145 | ordering the two addresses in a `visited` key forgets which operand was first and nothing else |
| `ObjectGraph.RankFallsAlongWalk` | pkg/conversion/deep_equal.go:125-146 | a rank of pairs that falls at every comparison that `visited` does not remember falls along whole walks |
| `ObjectGraph.NoSinkMakesCycle` | pkg/conversion/deep_equal.go:125-146 | if every pair in a finite set leads on within the set without being remembered, some cycle of comparisons is never remembered |
| `ObjectGraph.RankWithin` | pkg/conversion/deep_equal.go:125-146 | if every cycle of comparisons passes through a remembered one, any finite set of pairs can be ranked |
| `ObjectGraph.RankedIffCyclesTracked` | pkg/conversion/deep_equal.go:125-146 | a termination measure exists if and only if every cycle of comparisons that can be met passes through a pair of addressable arrays, maps, slices or structs |
| `ObjectGraph.OneOperandEnough` | pkg/conversion/deep_equal.go:125-146 | for that it is enough that every cycle in the left operand passes through a remembered value, whatever the right operand is |
| `ObjectGraph.MetClosed` | pkg/conversion/deep_equal.go:148-209 | the pairs that a comparison can meet hold the root pair and are closed under corresponding parts |
| `ObjectGraph.MetIsLeast` | pkg/conversion/deep_equal.go:148-209 | they lie in every relation that holds the root pair and is closed in this way |
| `DeepEquality.DeepEqual` | pkg/conversion/deep_equal.go:224-244 | whenever every cycle of comparisons is remembered the comparison terminates; false only if corresponding steps from the operands lead to a visible difference, and true only if none do, if leaf and registered equalities are reflexive and symmetric; nil equals only nil |
| `DeepEquality.Comparison.DeepValueEqual` | pkg/conversion/deep_equal.go:103-148 | a positive answer leaves a set of claims each of which its rule justifies from the claims; a negative one refutes bisimilarity |
| `DeepEquality.Comparison.DeepKindEqual` | pkg/conversion/deep_equal.go:148-231 | the switch over kinds decides the rule of the pair's kind, up to the claims made on the way |
| `DeepEquality.Comparison.DeepSliceEqual` | pkg/conversion/deep_equal.go:158-176 | slices, with the shortcuts for lengths and shared storage, are compared element by element |
| `DeepEquality.Comparison.DeepMapEqual` | pkg/conversion/deep_equal.go:191-209 | maps, with the shortcuts for sizes and shared storage, have equal keys and related entries |
| `DeepEquality.Comparison.DeepElemsEqual` | pkg/conversion/deep_equal.go:149-157 | the loop over elements relates all of them or refutes one |
| `DeepEquality.Comparison.DeepEntriesEqual` | pkg/conversion/deep_equal.go:201-208 | the loop over keys, in any order, relates equal key sets or refutes an entry |
| `DeepEquality.Comparison.Remember` | pkg/conversion/deep_equal.go:139-146 | remembering a pair shrinks what is left to visit |
| `DeepEquality.ClaimsAreBisimulation` | pkg/conversion/deep_equal.go:64-74 | assuming pairs in progress to be equal is sound: the claims, closed under identity and reversal, are a bisimulation |
| `DeepEquality.BisimilarityObeysRules` | pkg/conversion/deep_equal.go:103-231 | bisimilar pairs meet the rule of their kind, so a failed rule refutes bisimilarity |
| `DeepEquality.BisimilarReflexive` | pkg/conversion/deep_equal.go:131-134 | the identity shortcut is sound: every value is bisimilar to itself |
| `DeepEquality.BisimilarSymmetric` | pkg/conversion/deep_equal.go:126-131 | ordering the operands is sound: bisimilarity is symmetric |
| `DeepEquality.BisimilarTransitive` | pkg/conversion/deep_equal.go:224-244 | deep equality is transitive if the registered equalities are |
| `DeepEquality.EqualIffNoDifference` | pkg/conversion/deep_equal.go:148-232 | values are bisimilar if and only if no corresponding steps lead to values of different types, leaves, lengths, keys or nil pointers; a nil slice or map does not differ from an empty one |
| `DeepDerivation.DeepDerivative` | pkg/conversion/deep_equal.go:372-388 | panics exactly if only the right operand is nil; true whenever the left operand is nil or the right one simulates it; a positive answer is right if and only if every pair that it took on trust is a derivation, and always if no remembered pair is met in both orders |
| `DeepDerivation.Derivation.DeepValueDerive` | pkg/conversion/deep_equal.go:246-290 | a positive answer leaves claims that follow from claims and what was taken on trust; a negative one shows that the pair was not bound to be accepted |
| `DeepDerivation.Derivation.Enter` | pkg/conversion/deep_equal.go:267-289 | a pair is skipped exactly if it is identical or remembered, in either order; otherwise it is claimed and remembered |
| `DeepDerivation.Derivation.DeepKindDerive` | pkg/conversion/deep_equal.go:291-361 | the switch over kinds, in which empty left values are covered by anything, decides the rule |
| `DeepDerivation.Derivation.DeepSliceDerive` | pkg/conversion/deep_equal.go:301-316 | a slice is covered by one that is at least as long with related elements |
| `DeepDerivation.Derivation.DeepMapDerive` | pkg/conversion/deep_equal.go:342-357 | a map is covered by one with at least its keys and related entries |
| `DeepDerivation.Derivation.DeepElemsDerive` | pkg/conversion/deep_equal.go:292-315 | the loop over elements accepts all of them or refutes one |
| `DeepDerivation.Derivation.DeepEntriesDerive` | pkg/conversion/deep_equal.go:352-357 | the loop over keys, in any order, accepts all entries or refutes one |
| `DeepDerivation.ClaimsAreSimulated` | pkg/conversion/deep_equal.go:267-289 | claims that follow from claims and derivations are derivations |
| `DeepDerivation.MetIsNeeded` | pkg/conversion/deep_equal.go:291-357 | a derivation needs every pair that its comparison can meet to be one |
| `DeepDerivation.TrustDecides` | pkg/conversion/deep_equal.go:267-289 | an accepted root is a derivation if and only if all that was accepted without a comparison are |
| `DeepDerivation.TrustJustified` | pkg/conversion/deep_equal.go:267-289 | if no remembered pair can be met in both orders and what meets itself equals itself, all that is taken on trust are derivations |
| `DeepDerivation.UnmixedIsOneOrder` | pkg/conversion/deep_equal.go:267-289 | that holds if no two remembered values of one type are reached by both operands |
| `DeepDerivation.DisjointIsUnmixed` | pkg/conversion/deep_equal.go:267-289 | operands that share no storage meet that |
| `DeepDerivation.AcceptsReversed` | pkg/conversion/deep_equal.go:372-388 | a concrete input of `DeepDerivative`, pointers to these structs, that is accepted although it is not a derivation |
| `DeepDerivation.AcceptanceObeysRules` | pkg/conversion/deep_equal.go:246-361 | a pair that is bound to be accepted is remembered already or meets its rule once it is remembered, so a failed rule refutes that it was |
| `DeepDerivation.SimulatedIsAcceptable` | pkg/conversion/deep_equal.go:246-361 | derivations are bound to be accepted whatever has been remembered |
| `DeepDerivation.EntangledDiffer` | pkg/conversion/deep_equal.go:317-324 | of two structs that point to each other the one with the unset string is not a derivative of the other |
| `DeepDerivation.EntangledAcceptable` | pkg/conversion/deep_equal.go:268-289 | their comparison is bound to be accepted, because it meets itself in the other order |
| `DeepDerivation.SimilarityObeysRules` | pkg/conversion/deep_equal.go:246-361 | simulated pairs meet the rule of their kind |
| `DeepDerivation.EqualImpliesDerivative` | pkg/conversion/deep_equal.go:372-388 | deep equality implies derivation in both directions |
| `DeepDerivation.DerivativeTransitive` | pkg/conversion/deep_equal.go:372-388 | derivation is transitive if the registered equalities are |
| `DeepDerivation.MutualDerivativeIsEqual` | pkg/conversion/deep_equal.go:246-388 | derivation in both directions is equality |
| `DeepDerivation.DerivativeIffNothingLacking` | pkg/conversion/deep_equal.go:291-369 | a value is a derivative if and only if no corresponding steps lead to something that is set on the left and missing or different on the right |
| `DeepDerivation.EqualThenDerived` | pkg/conversion/deep_equal.go:224-388 | what `DeepEqual` accepts, `DeepDerivative` accepts in both orders |
| `DeepDerivation.DerivedThenEqual` | pkg/conversion/deep_equal.go:224-388 | conversely, if no pair is met in both orders, what `DeepDerivative` accepts in both orders `DeepEqual` accepts |
| `DeepDerivation.DerivedTransitively` | pkg/conversion/deep_equal.go:372-388 | if no pair is met in both orders, two calls of `DeepDerivative` that accept make the third accept |
| `Base64Url.EncodedLength` | pkg/streaming/request_cache.go:115-122 | the unpadded base64url encoding (section 5 of RFC 4648) of n bytes has ceil(8n/6) characters |
| `Base64Url.RoundTrip` | pkg/streaming/request_cache.go:122 | decoding an encoding gives the bytes back |
| `Base64Url.EncodesUrlSafe` | pkg/streaming/request_cache.go:122 | all characters of an encoding are letters, digits, '-' or '_' |
| `Base64Url.EncodeInjective` | pkg/streaming/request_cache.go:122 | different bytes have different encodings |
| `RequestCaching.TokenLength` | pkg/streaming/request_cache.go:115-123 | the fewest bytes that hold L digits of six bits encode to at least L characters, so the cut never fails, and to exactly L if and only if 4 divides L |
| `RequestCaching.CheckRejectsTakenExactly` | pkg/streaming/request_cache.go:122-127 | looking up the whole encoding rejects every token in use if and only if 4 divides the token length |
| `RequestCaching.FirstFreshIsFresh` | pkg/streaming/request_cache.go:113-130 | a token that is handed out has the right length and is not in use |
| `RequestCaching.FirstFreshExactly` | pkg/streaming/request_cache.go:113-130 | after draws whose encodings are all in use, the next free draw gives the token, a failure of the random source ends the search, and so do no more draws |
| `RequestCaching.LiveIsOutstanding` | pkg/streaming/request_cache.go:133-146 | over all timely histories, garbage collection leaves exactly the tokens of insertions that nothing has touched and that have not expired |
| `RequestCaching.CollectionUnobservable` | pkg/streaming/request_cache.go:73-146 | over all timely histories a lookup answers as if garbage had never been collected; what was collected has expired |
| `RequestCaching.RememberedSource` | pkg/streaming/request_cache.go:73-110 | what is remembered for a token comes from the insertion that returned it, untouched since |
| `RequestCaching.ConsumedSource` | pkg/streaming/request_cache.go:94-110 | a request is only returned for the token of its insertion, within the time to live, and by the first attempt to consume that token |
| `RequestCaching.ConsumedAtMostOnce` | pkg/streaming/request_cache.go:94-110 | two successful consumptions answer two different insertions |
| `RequestCaching.UntouchedAnswer` | pkg/streaming/request_cache.go:73-110 | conversely, an untouched insertion is returned for its token until its time to live is over, and not afterwards |
| `RequestCaching.LinkedSize` | pkg/streaming/request_cache.go:47-51 | map and list hold the same number of entries |
| `RequestCaching.LinkedRemove` | pkg/streaming/request_cache.go:101-102 | removing an entry from both keeps map and list the same |
| `RequestCaching.LinkedPush` | pkg/streaming/request_cache.go:87-89 | a new entry at the front keeps map and list the same and the list ordered by age |
| `RequestCaching.RequestCache.constructor` | pkg/streaming/request_cache.go:64-70 | a new cache is valid and has no history, for every token length that 4 divides |
| `RequestCaching.RequestCache.Insert` | pkg/streaming/request_cache.go:73-91 | refused exactly if the outstanding tokens are as many as allowed; otherwise the request is stored under the first of ten encodings that is not outstanding, unless the random source fails before; map, list, order and capacity are kept and the history is extended |
| `RequestCaching.RequestCache.Consume` | pkg/streaming/request_cache.go:94-110 | the answer is the unexpired request of the token, and the token is gone in any case |
| `RequestCaching.RequestCache.UniqueToken` | pkg/streaming/request_cache.go:113-130 | the first of ten draws whose encoding is not in use, or the first failure of the random source |
| `RequestCaching.RequestCache.Gc` | pkg/streaming/request_cache.go:133-146 | stopping at the first live entry from the back removes exactly the expired entries |
| `RequestCaching.RequestCache.NoneExpired` | pkg/streaming/request_cache.go:136-141 | a live entry at the back means that no entry has expired |
| `TimeoutProtocol.BaseTimeoutWriter.Write` | pkg/filters/timeout.go:187-200 | the flags keep summing up what reached the underlying writer; the bytes reach it exactly if there was no timeout and no successful hijack did; after a timeout nothing changes |
| `TimeoutProtocol.BaseTimeoutWriter.WriteHeader` | pkg/filters/timeout.go:215-225 | a header reaches the underlying writer exactly if there was no timeout and no write, header or successful hijack did before |
| `TimeoutProtocol.BaseTimeoutWriter.Header` | pkg/filters/timeout.go:176-185 | the underlying header is handed out exactly if there was no timeout |
| `TimeoutProtocol.BaseTimeoutWriter.CloseNotify` | pkg/filters/timeout.go:259-270 | the underlying notifier is asked exactly if there was no timeout |
| `TimeoutProtocol.BaseTimeoutWriter.Flush` | pkg/filters/timeout.go:202-213 | a flush reaches the underlying writer exactly if there was no timeout, and does not commit the response |
| `TimeoutProtocol.BaseTimeoutWriter.Hijack` | pkg/filters/timeout.go:272-284 | a hijack reaches the underlying writer exactly if there was no timeout, and commits the response exactly if it succeeds |
| `TimeoutProtocol.BaseTimeoutWriter.Timeout` | pkg/filters/timeout.go:227-257 | aborts exactly if a write, header or successful hijack of the handler has reached the underlying writer, and then leaves it alone; otherwise the 504 and the body reach it |
| `TimeoutProtocol.CommittedExactly` | pkg/filters/timeout.go:232-235 | a response is committed exactly if a write or header or a successful hijack has reached the underlying writer |
| `TimeoutProtocol.FollowRun` | pkg/filters/timeout.go:164-284 | driven through any run, the writer with its flags ends in the state that the protocol's writer, which has only the log, is in |
| `TimeoutProtocol.StepKeepsInvariant` | pkg/filters/timeout.go:83-139 | every step of handler, select, timeout and drain keeps the protocol's invariant |
| `TimeoutProtocol.RunKeepsInvariant` | pkg/filters/timeout.go:83-139 | the invariant holds in every state of every run |
| `TimeoutProtocol.SilentAfterTimeout` | pkg/filters/timeout.go:187-284 | in every run nothing reaches the underlying writer once the writer has timed out |
| `TimeoutProtocol.CallReachesExactly` | pkg/filters/timeout.go:176-284 | over all runs, exactly which handler calls reach the underlying writer and what the others are told: before a timeout all do, except a write after a hijack and a header after the beginning of a response; after it none does |
| `TimeoutProtocol.TimeoutReachesExactly` | pkg/filters/timeout.go:227-257 | over all runs, no other step reaches it, except that a timeout sends the 504 and then the message if the handler has not begun a response |
| `TimeoutProtocol.TimesOut` | pkg/filters/timeout.go:118-137 | a concrete run that ends with the 504 and the message |
| `TimeoutProtocol.RefusedAfterTimeout` | pkg/filters/timeout.go:187-284 | in every run, however long after the timeout, a handler call changes nothing, and a write or hijack gets the timeout error |
| `TimeoutProtocol.SilentAfterExit` | pkg/filters/timeout.go:111-138 | in every run nothing reaches the underlying writer once `ServeHTTP` has ended, unless the function that runs after a timeout panicked |
| `TimeoutProtocol.LateCallExactly` | pkg/filters/timeout.go:118-137 | after the end some handler call can reach the underlying writer if and only if that function panicked and the handler still runs |
| `TimeoutProtocol.LateWrite` | pkg/filters/timeout.go:118-137 | a concrete run in which a write does |
| `TimeoutProtocol.TimeoutAnswer` | pkg/filters/timeout.go:227-257 | the 504 (section 6.6.5 of RFC 7231) is written if and only if no write, header or hijack came before; otherwise the connection is aborted and nothing is written |
| `TimeoutProtocol.OneHeader` | pkg/filters/timeout.go:187-257 | in no state has more than one header been written, and a timed out response has the 504 if and only if the handler had not committed to one |
| `TimeoutProtocol.ReceivesInRun` | pkg/filters/timeout.go:96-134 | the result channel has been received from once if the worker's send is over, and never before |
| `TimeoutProtocol.SendIsNotStuck` | pkg/filters/timeout.go:111-134 | while the worker sends, some internal step is enabled and some are left to take |
| `TimeoutProtocol.StepLowersLeft` | pkg/filters/timeout.go:111-138 | every internal step, whichever is taken, lowers the number that can be left, and no other step raises it |
| `TimeoutProtocol.InternalStepsBounded` | pkg/filters/timeout.go:111-138 | every run takes at most five internal steps |
| `TimeoutProtocol.ResultIsReceived` | pkg/filters/timeout.go:96-134 | once the handler has ended its result is received exactly once by the time that five internal steps are taken or none is enabled |
| `TimeoutProtocol.FinalStates` | pkg/filters/timeout.go:111-134 | when nothing internal is left to do the result was received exactly once, by the select, which passes a panic on, or by the drain, which there is only after the context ended |
| `WeightedHistograms.CheckBuckets` | components/metrics/prometheusextension/weighted_histogram.go:68-98 | bounds are accepted if and only if they increase; only a final +Inf is dropped |
| `WeightedHistograms.Search` | components/metrics/prometheusextension/weighted_histogram.go:143-153 | the binary search finds the one bucket whose half-open range holds the value |
| `WeightedHistograms.WeightedHistogram.ObserveWithWeight` | components/metrics/prometheusextension/weighted_histogram.go:143-153 | buckets, sums, hot count and threshold keep matching the history, extended by the observation |
| `WeightedHistograms.WeightedHistogram.UpdateLocked` | components/metrics/prometheusextension/weighted_histogram.go:155-170 | the same for a known bucket |
| `WeightedHistograms.WeightedHistogram.AddToSums` | components/metrics/prometheusextension/weighted_histogram.go:157-169 | moving the hot sum into the cold one conserves their total; the hot count stays in [-15, -1] and the threshold is the cold sum's magnitude over 2^26 |
| `WeightedHistograms.WeightedHistogram.BucketsAfter` | components/metrics/prometheusextension/weighted_histogram.go:155-157 | an observation adds its weight to the one bucket that its value is in |
| `WeightedHistograms.WeightedHistogram.Export` | components/metrics/prometheusextension/weighted_histogram.go:176-195 | exports the total weight, the flat weighted sum, and for each bound the weight of all values up to it |
| `WeightedHistograms.CumulativeStep` | components/metrics/prometheusextension/weighted_histogram.go:182-188 | the weight up to a bound is the weight up to the previous one plus the bucket's |
| `WeightedHistograms.CumulativeMonotone` | components/metrics/prometheusextension/weighted_histogram.go:182-188 | cumulative counts do not decrease and end at the total weight |
| `WeightedHistograms.OneForMany` | components/metrics/prometheusextension/weighted_histogram.go:38-49 | one observation of weight n amounts to n observations of weight 1 in every bucket, in total and in sum |
| `WeightedHistograms.WeightAppend` | components/metrics/prometheusextension/weighted_histogram.go:155-157 | an observation adds its weight wherever its value counts |
| `WeightedHistograms.SumAppend` | components/metrics/prometheusextension/weighted_histogram.go:157-169 | and adds its value as often as its weight says to the sum |
| `WeightedHistograms.RepeatWeight` | components/metrics/prometheusextension/weighted_histogram.go:38-49 | n observations of weight 1 weigh n wherever their value counts |
| `WeightedHistograms.RepeatSum` | components/metrics/prometheusextension/weighted_histogram.go:38-49 | and add n times the value to the sum |
| `TimingHistograms.LatestIsMaximum` | components/metrics/prometheusextension/timing_histogram.go:161-172 | the last set time is the maximum of the creation time and all readings |
| `TimingHistograms.ObservationsAreTicks` | components/metrics/prometheusextension/timing_histogram.go:161-172 | for any clock the observations count, for each set of values, the nanoseconds the gauge spent in it, and sum to its integral |
| `TimingHistograms.TotalIsElapsed` | components/metrics/prometheusextension/timing_histogram.go:161-172 | for any clock, even one that goes back, the total weight is the last set time less the creation time |
| `TimingHistograms.NonDecreasingClockIsTrue` | components/metrics/prometheusextension/timing_histogram.go:161-172 | with a clock that does not go back the value that counts at an instant is the one set last before it |
| `TimingHistograms.SumIsTimeIntegral` | components/metrics/prometheusextension/timing_histogram.go:161-172 | with such a clock the sum is the time integral of the value |
| `TimingHistograms.GrowsByRectangles` | components/metrics/prometheusextension/timing_histogram.go:161-172 | with each update the time and the integral grow by the time since the latest reading at the value that the gauge was left with, and by nothing for a reading that goes back |
| `TimingHistograms.TimingHistogram.constructor` | components/metrics/prometheusextension/timing_histogram.go:97-123 | starts with the initial value at the time of creation and no observations |
| `TimingHistograms.TimingHistogram.Update` | components/metrics/prometheusextension/timing_histogram.go:161-172 | the value is the updated one and the last set time the later one; the histogram keeps matching the gauge's updates, extended by this one |
| `TimingHistograms.TimingHistogram.Set` | components/metrics/prometheusextension/timing_histogram.go:137-139 | an update to the new value |
| `TimingHistograms.TimingHistogram.Inc` | components/metrics/prometheusextension/timing_histogram.go:141-143 | an update by one |
| `TimingHistograms.TimingHistogram.Dec` | components/metrics/prometheusextension/timing_histogram.go:145-147 | an update by minus one |
| `TimingHistograms.TimingHistogram.Add` | components/metrics/prometheusextension/timing_histogram.go:149-151 | an update by the difference |
| `TimingHistograms.TimingHistogram.Sub` | components/metrics/prometheusextension/timing_histogram.go:153-155 | an update by the negated difference |
| `TimingHistograms.TimingHistogram.Write` | components/metrics/prometheusextension/timing_histogram.go:178-181 | exports the elapsed time, the integral, and for each bound the time spent at or below it, up to now |
| `Quantiles.SearchRank` | components/metrics/testutil/metrics.go:309-310 | the binary search finds the first bucket that reaches the rank |
| `Quantiles.EstimateBracketed` | components/metrics/testutil/metrics.go:312-325 | the estimate lies in the bucket of the rank, or is the last finite bound |
| `Quantiles.QuantileBracketed` | components/metrics/testutil/metrics.go:297-326 | for 0 < q <= 1 and samples, the quantile is a number within the first bucket that reaches q times the total, or the last finite bound |
| `Quantiles.QuantileExactly` | components/metrics/testutil/metrics.go:297-326 | for every q: infinite outside of [0, 1], no number for fewer than two buckets or an empty first one, the last finite bound for ranks beyond it, and otherwise as far into the bucket as q times the total is into its samples |
| `Quantiles.NotANumberExactly` | components/metrics/testutil/metrics.go:297-326 | a division by zero occurs if and only if the rank is zero and the first bucket is empty |
| `Quantiles.QuantileMonotone` | components/metrics/testutil/metrics.go:297-326 | a larger q never gives a smaller quantile |
| `Quantiles.ComputeQuantile` | components/metrics/testutil/metrics.go:297-326 | the search by bisection and the arithmetic compute the quantile that the laws are about |
| `Quantiles.HistogramQuantile` | components/metrics/testutil/metrics.go:330-350 | the quantile of the histogram's bounds and counts and, unless the last is +Inf, such a bucket with all samples |
| `Quantiles.CombinedIsValid` | components/metrics/testutil/metrics.go:203-229 | adding up valid histograms over the same bounds gives a valid one |
| `Quantiles.CombinedSingle` | components/metrics/testutil/metrics.go:203-217 | one histogram alone is its combination |
| `Quantiles.CombinedAdds` | components/metrics/testutil/metrics.go:184-217 | one more histogram adds its counts bucket by bucket and its samples, and keeps the bounds |
| `Quantiles.AggregatedSampleCount` | components/metrics/testutil/metrics.go:184-190 | adds up the sample counts |
| `Quantiles.AggregatedBuckets` | components/metrics/testutil/metrics.go:203-217 | accumulating buckets in place gives the buckets of the combined histogram |
| `Quantiles.VectorQuantile` | components/metrics/testutil/metrics.go:203-229 | the quantile of a vector is the quantile of the combined histogram |
| `WarningRecording.FirstCallsDistinct` | pkg/filters/warning.go:85-90 | keeping the first warning of each text leaves no text twice |
| `WarningRecording.FirstCallsExactly` | pkg/filters/warning.go:69-90 | of all calls, in order, those whose text is not empty and was not said before |
| `WarningRecording.HeadersByWarning` | pkg/filters/warning.go:93-132 | each warning that makes a header adds it and the runes of its text, which in the truncating mode is its prefix of at most 256 |
| `WarningRecording.TruncatingShrinks` | pkg/filters/warning.go:114-132 | replaying acceptable warnings truncated does not add runes |
| `WarningRecording.ReplayBudget` | pkg/filters/warning.go:108-132 | the replay exceeds what was written before by at most one truncated item |
| `WarningRecording.Recorder.AddWarning` | pkg/filters/warning.go:69-133 | a warning is recorded exactly if its text is not empty and was not said before and the budget is not spent; truncation begins exactly when a header would exceed 4096 runes; headers and rune count stay the rendering of what is recorded |
| `WarningRecording.Recorder.Record` | pkg/filters/warning.go:89-133 | adds one warning to what is rendered, switching to truncation if it does not fit |
| `WarningRecording.Recorder.Replay` | pkg/filters/warning.go:113-132 | rebuilds headers and rune count from everything recorded, truncated |
| `WarningRecording.Recorder.RecordedOnceWithinBudget` | pkg/warning/context.go:34-36 | no text is recorded twice, and if callers keep the documented contract at most 4096 + 256 runes are written |
| `FeatureGates.CombinedStep` | components/featuregate/feature_gate.go:223-246 | whatever keys came before, one more key adds its part of the closed-form result |
| `FeatureGates.CombinedAsAsked` | components/featuregate/feature_gate.go:136-154 | the closed form, feature by feature and with both bulk settings |
| `FeatureGates.CombinedIdempotent` | components/featuregate/feature_gate.go:209-251 | setting the same map again changes nothing |
| `FeatureGates.ExplicitWins` | components/featuregate/feature_gate.go:209-251 | over every sequence of maps an explicit value is reported until the next explicit one, whatever AllAlpha and AllBeta are set to before, with or after it |
| `FeatureGates.LockKeptExactly` | components/featuregate/feature_gate.go:136-154 | a locked feature keeps its default if and only if it is not an unset Alpha or Beta feature that is bulk-set otherwise |
| `FeatureGates.FirstBulkStays` | components/featuregate/feature_gate.go:136-154 | over every sequence of maps, of a feature that is never set explicitly the first bulk setting stays |
| `FeatureGates.LockKeptOverRuns` | components/featuregate/feature_gate.go:209-251 | after every sequence of accepted maps a locked feature reports its default if and only if it had a value before, was set explicitly, or was not first set in bulk to the other value |
| `FeatureGates.LockBroken` | components/featuregate/feature_gate.go:136-154 | a concrete locked feature that reports the other value after AllAlpha was set |
| `FeatureGates.TwoMapsExactly` | components/featuregate/feature_gate.go:209-251 | setting two maps one after the other amounts to setting both at once if and only if they set no otherwise unset feature in bulk differently |
| `FeatureGates.CombinedKeepsLocks` | components/featuregate/feature_gate.go:228-233 | locked features that are neither Alpha nor Beta are never set away from their default |
| `FeatureGates.FeatureGate.constructor` | components/featuregate/feature_gate.go:163-184 | starts with the two bulk features and nothing set |
| `FeatureGates.FeatureGate.SetFromMap` | components/featuregate/feature_gate.go:209-251 | for every iteration order, fails without effect if a key is unknown or locked to the other value; otherwise a feature has the map's value, else its earlier one, else that of AllAlpha or AllBeta for its maturity, else none |
| `FeatureGates.FeatureGate.SetUnsetGates` | components/featuregate/feature_gate.go:136-154 | gives the value to the features of one maturity that have none, for every iteration order |
| `FeatureGates.FeatureGate.Add` | components/featuregate/feature_gate.go:268-297 | fails without effect if closed or in conflict; known specifications never change |
| `FeatureGates.FeatureGate.Close` | components/featuregate/feature_gate.go:321-329 | no features can be added afterwards |
| `FeatureGates.FeatureGate.Enabled` | components/featuregate/feature_gate.go:309-318 | reports the set value or the default, panics exactly for unknown features, and reports the default of locked features that are neither Alpha nor Beta |
| `FeatureGates.FeatureGate.DeepCopy` | components/featuregate/feature_gate.go:359-385 | a separate gate with the same features, settings and closedness |
| `Shuffling.RandSlice` | pkg/grpcclient/balancer.go:49-64 | the swaps in place perform the shuffle that the random numbers define |
| `Shuffling.ShuffleStep` | pkg/grpcclient/balancer.go:55-63 | one swap moves the boundary of the shuffled part by one |
| `Shuffling.ShufflePermutes` | pkg/grpcclient/balancer.go:49-64 | nothing is lost or added |
| `Shuffling.ShuffleInjective` | pkg/grpcclient/balancer.go:49-64 | different random numbers give different orders of distinct elements |
| `Shuffling.ShuffleSurjective` | pkg/grpcclient/balancer.go:49-64 | every order comes up for some random numbers |
| `Shuffling.ShuffleUniform` | pkg/grpcclient/balancer.go:49-64 | every order of distinct elements comes up for exactly one vector of legal random numbers |
| `MultimapFlags.ListingUnique` | components/cli/flag/colon_separated_multimap_string_string.go:77-87 | sorted by key and in order for each key, a multimap has one listing, so the text does not depend on map order |
| `MultimapFlags.SortStableListing` | components/cli/flag/colon_separated_multimap_string_string.go:84-87 | the stable sort orders keys and keeps the values of each key in order |
| `MultimapFlags.LessExactly` | components/cli/flag/colon_separated_multimap_string_string.go:84-87 | keys are in lexicographic order |
| `MultimapFlags.ParseFormat` | components/cli/flag/colon_separated_multimap_string_string.go:56-69 | parsing the text of well-formed pairs adds exactly these pairs |
| `MultimapFlags.ParsedIsPrintable` | components/cli/flag/colon_separated_multimap_string_string.go:56-69 | whatever is parsed meets the condition of the round trip, also if parsing fails half-way |
| `MultimapFlags.ParseConcat` | components/cli/flag/colon_separated_multimap_string_string.go:56-69 | parts are parsed one after the other, up to the first malformed one |
| `MultimapFlags.ParseOne` | components/cli/flag/colon_separated_multimap_string_string.go:56-63 | an empty part adds nothing, and one without a colon is malformed |
| `MultimapFlags.ParseColon` | components/cli/flag/colon_separated_multimap_string_string.go:60-67 | any other part adds what follows its first colon to the values of what precedes it, both without surrounding blanks, tabs and line breaks |
| `MultimapFlags.FormatAppend` | components/cli/flag/colon_separated_multimap_string_string.go:88-92 | the text is the pairs, key before value, with commas between them only |
| `MultimapFlags.RoundTripExactly` | components/cli/flag/colon_separated_multimap_string_string.go:47-92 | parsing the text of a multimap gives it back, value order included, if and only if no list is empty and keys and values are trimmed and free of the separators |
| `MultimapFlags.ColonSeparatedMultimap.Set` | components/cli/flag/colon_separated_multimap_string_string.go:47-69 | the first call replaces the default, later ones add; pairs before a malformed one are kept; without target nothing changes |
| `MultimapFlags.ColonSeparatedMultimap.String` | components/cli/flag/colon_separated_multimap_string_string.go:72-92 | for every map order, the text of the multimap's listing |
| `MultimapFlags.ColonSeparatedMultimap.Entries` | components/cli/flag/colon_separated_multimap_string_string.go:77-82 | collects every value of every key, in order for each key, for every map order |
| `Strings.JoinSplit` | components/cli/flag/colon_separated_multimap_string_string.go:56 | joining what was split gives the text back |
| `Strings.SplitJoin` | pkg/request/requestinfo.go:302 | splitting what was joined gives the parts back, if they are free of the separator |
| `Strings.TrimTrims` | pkg/request/requestinfo.go:298 | trimming removes what is to be removed at both ends and leaves trimmed text alone |
| `Strings.TrimCuts` | pkg/request/requestinfo.go:298 | what trimming cuts off at the two ends is only what is to be cut |
| `Strings.TrimUndoes` | components/cli/flag/colon_separated_multimap_string_string.go:64 | whatever surrounds trimmed text and is to be cut is cut |
| `RequestInfos.NewRequestInfo` | pkg/request/requestinfo.go:142-275 | no index is out of range on any path, and the result is the interpretation of the path's segments |
| `RequestInfos.ParseVersion` | pkg/request/requestinfo.go:178-275 | fails exactly if a special verb is all that follows the version; otherwise the segments are those of a URL of the grammar and its meaning is found |
| `RequestInfos.VersionInterpreted` | pkg/request/requestinfo.go:178-275 | the segments of a grammatical URL from its version on are interpreted as its meaning |
| `RequestInfos.ParseTarget` | pkg/request/requestinfo.go:210-224 | the namespace, and the parts relative to the resource |
| `RequestInfos.ParseParts` | pkg/request/requestinfo.go:223-274 | resource, name and subresource, and the list, watch and deletecollection verbs |
| `RequestInfos.SegmentsInterpreted` | pkg/request/requestinfo.go:142-275 | the segments of a grammatical URL are interpreted as its meaning |
| `RequestInfos.SplitRendered` | pkg/request/requestinfo.go:297-303 | splitting a rendered path gives its segments back, also with slashes after it |
| `RequestInfos.ParseRendered` | pkg/request/requestinfo.go:113-275 | parsing inverts rendering: prefix, group, version, special verb, namespace, resource, name and subresource come back |
| `RequestInfos.ResourceRequestExplained` | pkg/request/requestinfo.go:142-275 | conversely, every resource request has a grammatical URL with the same segments and the same meaning |
| `RequestInfos.ResourceRequestExactly` | pkg/request/requestinfo.go:151-191 | the exact conditions under which a path is a resource request, and under which parsing fails |
| `RequestInfos.FieldsByPosition` | pkg/request/requestinfo.go:151-234 | where every field of every resource request stands in the path, by positions |
| `RequestInfos.VerbByMethod` | pkg/request/requestinfo.go:183-273 | the verb of every resource request: proxy and watch by the path, otherwise create, get, update, patch and delete by the method, with list, watch and deletecollection if there is no name |
| `RequestInfos.NonResourceExactly` | pkg/request/requestinfo.go:143-175 | every other request has its path, its method in lower case as verb, and nothing else but a prefix |
| `RequestInfos.SplitPathExactly` | pkg/request/requestinfo.go:297-303 | the segments are what is between slashes, without those at the two ends |
| `ServingCertificates.NewTLSContent` | pkg/dynamiccertificates/tlsconfig.go:120-150 | none exactly if some certificate or key is empty; otherwise the client CAs, the serving certificate with its key and all named certificates of the providers |
| `ServingCertificates.ContentEqual` | pkg/dynamiccertificates/client_ca.go:49-81 | comparing field by field and element by element decides equality |
| `ServingCertificates.SNIEqual` | pkg/dynamiccertificates/cert_key.go:44-74 | the same for one certificate with its names |
| `ServingCertificates.BuildNamedCertificates` | pkg/dynamiccertificates/named_certificates.go:33-71 | fails if and only if some pair does not parse; otherwise the map of names |
| `ServingCertificates.NamePrecedence` | pkg/dynamiccertificates/named_certificates.go:37-70 | a name maps to the first certificate that names it explicitly, else to the first one without explicit names that carries it, else not at all |
| `ServingCertificates.AllNamed` | pkg/dynamiccertificates/tlsconfig.go:216-218 | one certificate is appended for each name, in some order of the names |
| `ServingCertificates.Controller.SyncCerts` | pkg/dynamiccertificates/tlsconfig.go:154-226 | succeeds if and only if the content is complete and parses; what is recorded stays the last good content of all syncs so far, and the served configuration its build; a failed sync and one without news change neither |
| `ServingCertificates.Controller.Build` | pkg/dynamiccertificates/tlsconfig.go:166-219 | builds the configuration if and only if all of the content parses |
| `ServingCertificates.BuildableExactly` | pkg/dynamiccertificates/tlsconfig.go:166-212 | what can be built: whatever is not empty parses |
| `ServingCertificates.BuildExactly` | pkg/dynamiccertificates/tlsconfig.go:163-219 | what is built: client CAs, certificates and names of the content replace those of the base, and the certificates of all names follow |
| `ServingCertificates.NamedAsOften` | pkg/dynamiccertificates/tlsconfig.go:216-218 | a certificate follows as often as there are names for it |
| `ServingCertificates.ServesLastGood` | pkg/dynamiccertificates/tlsconfig.go:154-231 | after any run of syncs the last content that was complete and parsed is recorded, whatever failed before and after |
| `ServingCertificates.NothingGood` | pkg/dynamiccertificates/tlsconfig.go:154-231 | until a sync succeeds nothing is served |
| `AuditFilter.WithAudit` | pkg/filters/audit.go:46-112 | for every handler and sink: a rejected RequestReceived stops the request before the handler; otherwise the sink sees the request's trail without the omitted stages, the ending is the handler's own, and the response is all that the handler calls that the writer it gets offers |
| `AuditFilter.ProcessAuditEvent` | pkg/filters/audit.go:149-163 | omitted stages count as processed and are not sent |
| `AuditFilter.AuditResponseWriter.ProcessCode` | pkg/filters/audit.go:202-214 | only the first call sets the code, and emits ResponseStarted if the request is long-running |
| `AuditFilter.AuditResponseWriter.ServeHTTP` | pkg/filters/audit.go:165-258 | after all actions of a handler the event, the sink and the response are what the handler amounts to as a whole |
| `AuditFilter.AfterMeans` | pkg/filters/audit.go:202-258 | watching a handler one action at a time shows its first write, last status and forwarded calls |
| `AuditFilter.CodeExactly` | pkg/filters/audit.go:202-250 | a write reports 200, a hijack 101, a header its code as a 32-bit number, and nothing else begins a response |
| `AuditFilter.ForwardedExactly` | pkg/filters/audit.go:165-258 | the response is what the handler calls, in order: all writes and headers and, if the writer allows them, flushes, notifications and hijacks |
| `AuditFilter.Finish` | pkg/filters/audit.go:77-110 | on return or panic the deferred function emits exactly the final stages |
| `AuditFilter.TrailShape` | pkg/filters/audit.go:60-112 | a trail is RequestReceived, at most one ResponseStarted, and exactly one of ResponseComplete and Panic, which reports 500; with the exact condition for ResponseStarted |
| `AuditFilter.ReportedStatus` | pkg/filters/audit.go:91-110 | ResponseComplete reports the last status that the handler logged, with the code of the response if that began later; if it logged none, the code of the response, or success if none began |
| `AuditFilter.StatusByLastSet` | pkg/filters/audit.go:202-214 | the event holds the last status that the handler logged, with the code of the first write if that came later |
| `AuditFilter.StatusUnset` | pkg/filters/audit.go:202-214 | if the handler logs none, the event holds the code of the first write alone, or nothing |
| `AuditFilter.StatusKept` | pkg/filters/audit.go:202-214 | once a response has begun its status changes only when the handler logs another |
| `AuditFilter.KeptExactly` | pkg/filters/audit.go:149-154 | omission takes away all records of the omitted stages and no other |
| `AuditFilter.KeptAppend` | pkg/filters/audit.go:149-154 | and keeps the order of the others |
| `LogReductions.PrintsApart` | components/logs/logreduction/logreduction.go:26-29 | two prints of a message for one ID, with no other message for it and no clearing between them, are at least the delay apart |
| `LogReductions.WithheldWasPrinted` | components/logs/logreduction/logreduction.go:26-29 | a message is withheld only if it was printed for its ID less than the delay ago and nothing has interrupted it since |
| `LogReductions.StaysOnRecord` | components/logs/logreduction/logreduction.go:57-69 | while nothing interrupts a printed message it stays on record |
| `LogReductions.LogReduction.ShouldMessageBePrinted` | components/logs/logreduction/logreduction.go:57-69 | the answer is that of a filter that never forgets, and the two maps keep the same keys |
| `LogReductions.LogReduction.CleanupErrorTimeouts` | components/logs/logreduction/logreduction.go:46-53 | forgets all that had reached the delay before the call, in any order, and nothing that is not due after it |
| `LogReductions.LogReduction.ClearID` | components/logs/logreduction/logreduction.go:73-78 | clears the ID in both maps |

## Left out

- `float64` rounding and `uint64` overflow: histograms and quantiles use `real` and unbounded counts.
- `SetToCurrentTime` of the timing histogram: it takes a clock reading of its own outside the lock.
- NaN, non-nil functions and unexported fields in deep comparison: the identity shortcut differs from comparison there, and unexported fields panic.
- DeepEquality.DeepEqual: asks that every cycle of comparisons pass through one that is remembered in `visited`, because on another cycle the code does not terminate unless it finds a difference before it gets there.
- DeepDerivation.DeepDerivative: asks for the same. Which pairs it takes on trust depends on the order in which map keys are walked, so the condition that a caller can check beforehand, `OneOrder`, is sufficient; the exact condition is about the pairs that were taken on trust.
- `AddFunc` and its checks of registered functions: registered equalities are given.
- RequestCaching.RequestCache.constructor: asks that 4 divide the token length, which the length 8 in use meets; for other lengths a token in use could be issued again, as `CheckRejectsTakenExactly` shows.
- The long-running branch of the timeout filter, which only calls the handler, and the implicit commit of the underlying writer on `Flush`.
- Underlying writers that cannot flush: a flush is taken to reach the writer.
- Aliasing of the header map that a handler obtained before the timeout; stack traces in results.
- `NewWarningHeader` is not part of this model: it is any partial function of agent and text. Texts are sequences of runes, so invalid UTF-8 is not covered.
- Quantiles.HistogramQuantile: asks for a valid cumulative histogram with non-negative bounds, as the source's comment does.
- `Set` and `String` of feature gates, logging and metrics: parsing of `key=value` lists adds nothing to `SetFromMap`.
- Randomness of `rand.Intn` itself: the numbers are given, and each legal vector is covered.
- The field-selector branch and the decoding of queries in request parsing: whether a watch is asked for is a parameter. HTTP methods are ASCII when made lower case.
- PEM and X.509 parsing, certificate details, work queues, file watching, and `GetConfigForClient`'s lookup by local address.
- Audit backends, policy evaluation, timestamps, the Audit-ID header, and panics inside a sink.
- Locks: methods under a mutex are atomic. Only the timeout filter has concurrency beyond that, and it is a transition system.
- Packages that wire the server together (`pkg/proc`, `pkg/rest`, `pkg/client`, `pkg/db`, `pkg/sessions`, tracing and the like) and thin metric wrappers: they hold no algorithm of their own.
