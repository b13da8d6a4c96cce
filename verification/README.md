# Knowledge Core, verified

A Dafny model of the parts of Knowledge Core whose correctness is hard to see from the code:
how a process starts and stops, how structs travel in Thrift binary, how the circuit breaker
behaves under concurrent callers, how dynamic configuration converges, and how application
errors and configuration envelopes keep their meaning across a boundary. Everything is proved
for all inputs, all schedules and all clocks. `dafny verify dfyconfig.toml` checks the project.

## The parts

**Process lifecycle** (`Lifecycle*.dfy`). `run`, `close` and `shutdownComponents` are a
transition system. The steps of the driver thread are the registrations, the calls, and the
selects and loop turns inside `run` and `close`; the steps of the environment are a Serve that
begins or ends, a Ready or a Shutdown that returns, a context that is done and a deadline that
fires. They interleave freely. `LifecycleInvariants` and `LifecycleSafety` prove invariants of
every step; `LifecycleErrors` says what the returned error is, as a function of what happened;
`LifecycleTheorems` draws the conclusions for every trace, `LifecycleTraces` those in terms of the
steps taken; `LifecycleWitness` exhibits a run that ends well. "Live" means Serve and Shutdown: the readiness goroutines are
cancelled but never joined by the program.

**Thrift codec** (`Thrift*.dfy`, `AttachmentSchemas.dfy`). The generated structs share one
shape, so the model is driven by a schema: fields in id order, and the separate order in which
they are written. `ThriftCodec` says what bytes a value has and what the reader makes of any
bytes; `ThriftFastCodec` holds the in-place writer, the length pass and the offset-driven reader
and proves them equal to that; `ThriftMessages` treats messages of other writers;
`ThriftRoundTrip` proves the round trip, `ThriftSkipping` that skipping passes over exactly one
value of any type, `ThriftEvolution` forward compatibility at every depth, and `ThriftGrammar`
which buffers are accepted. The primitives follow the "Struct" and "List and Set"
sections of the Apache Thrift binary protocol encoding specification.

**Circuit breaker** (`CircuitBreaker.dfy`, `BreakerProbes.dfy`, `BreakerCalls.dfy`). The object
with its four fields and a ghost history, the meaning of these fields as a function of the history of operations, a
tight bound on the calls that an open breaker admits, and the client middleware with calls that
report late or never. Threshold, open period and number of probes are symbolic.

**Dynamic configuration** (`ConfigManager.dfy`, `ConfigClose.dfy`, `ConfigEnvelope.dfy`,
`ConfigDiff*.dfy`). The manager as a register that keeps the newest revision, its shutdown, the
envelope with an ideal cipher, and the
list of fields that wait for a restart, measured against the configuration a process holds after
taking over only what it may change while it runs.

**Application errors** (`Text.dfy`, `Wrappers.dfy`, `AppError*.dfy`). A definition inside any chain
of errors, its way through a business status and back, and its problem document.

## Where the code differs from what one would expect

- A half-open breaker leaves that state only when a call reports. A probe whose endpoint panics
  reports nothing, and with the default of a single probe the breaker then rejects every call
  for ever (`BreakerCalls.PanickingProbeBlocks`). `BreakerCalls.BlockedForEverExactly` gives the
  exact condition on the present state: half-open, all probes handed out, no call outstanding.
- A nil nested struct is written as a bare STOP byte, which the reader refuses; a string or list
  whose length does not fit 31 bits does not survive either. `ThriftRoundTrip.RoundTripExactly`
  gives the condition on the value in both directions.
- `Load` stores a document without comparing revisions, so loading again may go back
  (`ConfigManager.LoadingCanGoBack`; exactly when is in `ConfigManager.LoadKeepsLastGoodExactly`).
- When the deadline of the manager's first `Close` passes before its worker has ended, the client is
  never closed, although every later `Close` returns nil (`ConfigClose.DeadlineLeavesClientOpen`;
  exactly when a nil return means a closed client is in `ConfigClose.NilMeansReleasedExactly`).
- When two different documents carry the same revision, the first to arrive stays
  (`ConfigManager.CurrentIsFirstNewest`), so the outcome depends on the order exactly when two
  documents compete for the highest revision (`ConfigManager.ConvergesExactly`).
- `Definition.valid` accepts a message with spaces around it, `Define` trims it; a catalog entry
  written by hand with such a message changes on its way (`AppError.PaddedMessageChanges`, with
  the exact condition in `AppError.DefinitionSurvivesExactly`).
- `Encrypt` does not bound the length of the key id, `Decrypt` bounds the whole envelope: a very
  long key id makes an envelope that nobody can open (`ConfigEnvelope.EndlessKeyIdLocksOut`; the
  exact condition is in `ConfigEnvelope.DecryptsExactly`).
- `Binding.Validate` looks at trimmed values while the associated data use the values as they are: a
  line break in the space around a part is accepted (`ConfigEnvelope.PartAcceptedExactly`).
- The configuration diff never reports a change inside unexported fields or fields tagged "-",
  and a mutable path shields a leaf only: a mutable struct path shields nothing inside the struct
  (`ConfigDiffTheorems.ReportsExactly`, `ConfigDiffTheorems.MutableStructIsReported`).

## Model

| member | source | states |
|---|---|---|
| `LifecycleTheorems.InvariantHolds` | pkg/app/runner.go:160-356 | the inductive invariant holds in every state of every trace of registrations, `run` and `close` calls under every interleaving |
| `LifecycleTheorems.ResourceSafety` | pkg/app/runner.go:275-318 | a cleanup hook runs only when every started Serve has delivered its result and every Shutdown call has returned, and nothing is live after it |
| `LifecycleTheorems.NoCleanupAfterLateStop` | pkg/app/runner.go:275-356 | once a Shutdown call or a Serve was given up on, no hook has run and none ever runs, not even through a later `close` |
| `LifecycleTheorems.LateStaysLate` | pkg/app/runner.go:320-362 | that a component stopped late is never forgotten |
| `LifecycleTheorems.OnceOnlyTeardown` | pkg/app/runner.go:294-356 | over all calls, Shutdown is called at most once per component and each hook runs at most once, both in reverse registration order; stopping reaches every component, deadline or not |
| `LifecycleTheorems.RegistrationFrozen` | pkg/app/runner.go:112-179 | after `run` or `close` has begun, components and cleanups never change: what is shut down is what was served |
| `LifecycleTheorems.ReadinessWindow` | pkg/app/runner.go:202-273 | the process is ready only inside `run` with all Ready calls returned nil; readiness is published before any result was received; it is withdrawn before the first Shutdown call and when `run` returns |
| `LifecycleTheorems.ResultsAddUp` | pkg/app/runner.go:181-273 | results still awaited and results received add up to the number of components; a component that is still live always finds room for its result, and a Ready call that has not answered for its answer |
| `LifecycleTheorems.ReadinessSendNeverBlocks` | pkg/app/runner.go:182-199 | a Ready call that has not answered finds free capacity in the readiness channel |
| `LifecycleTheorems.MeaningOfSuccess` | pkg/app/runner.go:202-292 | `run` returns nil exactly when the run was clean; then ctx was done, every component delivered one expected result, every Shutdown returned in time with nil or an expected stop, and every hook ran and returned nil |
| `LifecycleTheorems.RunIsComplete` | pkg/app/runner.go:202-292 | whenever `run` has returned, its error is exactly the list of failures in the order in which they happened: no failed Serve, Shutdown or hook is missing, and resources are said to be left open if and only if a component was given up on; otherwise all results were received, nothing is live and all hooks ran, whatever errors there were |
| `LifecycleTheorems.TeardownIsComplete` | pkg/app/runner.go:294-356 | whenever the runtime is closed, by `run` or by `close` alone and with whatever errors, a component was given up on or nothing is live, all results were received and every hook has run |
| `LifecycleTheorems.CompletedKept` | pkg/app/runner.go:275-318 | every step keeps: a closed runtime outside of any call has given a component up or is done |
| `LifecycleTheorems.StoppingEnds` | pkg/app/runner.go:256-356 | from draining on, every runner step lowers a bound linear in components and hooks, and after the deadline some step is always possible |
| `LifecycleTheorems.ReceivedFromAll` | pkg/app/runner.go:412-448 | as many results as components means one from each |
| `LifecycleTheorems.EnoughReadyMeansAllReady` | pkg/app/runner.go:206-215 | when the ready count has reached the number of components, every Ready call returned nil |
| `LifecycleInvariants.CountedKept` | pkg/app/runner.go:181-191 | every step keeps: each exited Serve has exactly one result, queued or received |
| `LifecycleInvariants.ResultSendNeverBlocks` | pkg/app/runner.go:181-191 | a Serve that has not exited finds free capacity in the results channel |
| `LifecycleInvariants.InReverseKept` | pkg/app/runner.go:311-356 | every step keeps the order of Shutdown calls, answers and hooks |
| `LifecycleInvariants.ToldKept` | pkg/app/runner.go:320-356 | every step keeps: components not reached yet have not been called, and each answer in time comes from a returned call |
| `LifecycleInvariants.SafetyKnownKept` | pkg/app/runner.go:320-356 | every step keeps: the unsafe flag tells exactly whether some Shutdown call was given up on |
| `LifecycleSafety.HooksSafeKept` | pkg/app/runner.go:275-318 | every step keeps: hooks start only in a quiet state, and the state stays quiet |
| `LifecycleErrors.AccountedKept` | pkg/app/runner.go:202-292 | every step keeps: the joined error is the list of failures of how the wait ended, of the Shutdown calls, of the later Serve results and of the hooks, in this order |
| `LifecycleErrors.EndingKnownKept` | pkg/app/runner.go:206-264 | every step keeps: how the wait ended is recorded exactly when it has ended, and the result that ended it is the first one received |
| `LifecycleErrors.FailuresAreNamed` | pkg/app/runner.go:412-448 | the error names every Serve result and every Shutdown answer that is not nil, a cancelled context or a closed connection, every abandoned Shutdown call and every failed hook |
| `LifecycleErrors.NilExactlyWhenClean` | pkg/app/runner.go:370-372 | the error is nil exactly when the ending was a requested stop and every result, answer and hook was clean |
| `LifecycleWitness.SuccessIsPossible` | pkg/app/runner.go:160-292 | for any component and any hook there is a trace in which `run` returns nil |
| `LifecycleTraces.GivesUpOnlyAfterDeadline` | pkg/app/runner.go:412-468 | a component is given up on only after a deadline that fired while the runner was waiting for components to stop, and only while the awaited answer is outstanding or no result is there to be taken |
| `LifecycleTraces.LateMeansDeadline` | pkg/app/runner.go:266-271 | whenever a component has been given up on, such a deadline has fired before |
| `LifecycleTraces.NeverLateWithoutDeadline` | pkg/app/runner.go:266-292 | without such a deadline no component is given up on, and whoever closes the runtime has run all hooks |
| `LifecycleTraces.WaitsForAReason` | pkg/app/runner.go:206-264 | the wait for readiness and serving end only with a failed Ready call, a component's exit or a context that is done, as they were at that moment; readiness is published only if no result was there to be taken |
| `LifecycleTraces.StopIsSeen` | pkg/app/runner.go:207-264 | while `run` starts up or serves, a stop request, a component's exit and the end of the startup context always find a step that begins to drain or brings the runner nearer to its select |
| `LifecycleTraces.ReadyIsHeard` | pkg/app/runner.go:208-215 | an answer of Ready that is there can be taken: nil is counted, an error ends the startup |
| `LifecycleTraces.ReadinessIsCancelled` | pkg/app/runner.go:183-184 | once `run` no longer waits for readiness, the readiness goroutines have been told to stop |
| `LifecycleTraces.HooksRunLast` | pkg/app/runner.go:275-318 | in terms of steps: before a hook runs, the Shutdown of every component has returned, and its Serve too if `run` had started it |
| `LifecycleTraces.ReadyOnlyWhenReady` | pkg/app/runner.go:185-215 | in terms of steps: the process is ready only after every component's Serve was called and its Ready returned nil |
| `LifecycleTraces.SuccessHappened` | pkg/app/runner.go:202-292 | in terms of steps: before a nil return the context was done, and the Serve and the Shutdown of every component returned nil, a cancelled context or a closed connection |
| `LifecycleTraces.ExitsHaveHappened` | pkg/app/runner.go:188-191 | every result, queued or received, is that of a Serve that returned it |
| `LifecycleTraces.AnswersHaveHappened` | pkg/app/runner.go:192-199 | every nil answer of Ready and every answer of Shutdown is that of a call that returned it |
| `LifecycleRuntime.Runtime.RegisterComponent` | pkg/app/runner.go:112-133 | appends a component of a new non-empty name before the start, refuses all others, and keeps names distinct |
| `LifecycleRuntime.Runtime.RegisterCleanup` | pkg/app/runner.go:137-153 | the same for cleanup hooks |
| `LifecycleRuntime.Runtime.Known` | pkg/app/runner.go:126-130 | the search loop finds a name exactly when it is registered |
| `ThriftRoundTrip.RoundTrip` | kitex_gen/attachment/k-attachment.go:29-336 | decoding an encoding followed by any bytes returns the value and consumes exactly the encoding, through nested structs and lists and in any writing order |
| `ThriftRoundTrip.RoundTripExactly` | kitex_gen/attachment/k-attachment.go:538-558 | the round trip holds if and only if the value has no nil struct and no length beyond the protocol's size |
| `ThriftRoundTrip.RoundTripItems` | kitex_gen/attachment/k-attachment.go:1145-1168 | list elements come back in order, and exactly their bytes are consumed |
| `ThriftRoundTrip.NilStructIsRefused` | kitex_gen/attachment/k-attachment.go:538-557 | a nil struct is written as a bare STOP, which the reader refuses with a missing required field |
| `ThriftRoundTrip.DecodedIsTyped` | kitex_gen/attachment/k-attachment.go:29-336 | whatever the reader accepts is a value of the struct type without nil structs |
| `ThriftRoundTrip.RewritingIsFaithful` | kitex_gen/attachment/k-attachment.go:29-558 | reading any accepted message, writing it and reading it again gives the same value |
| `ThriftRoundTrip.CutMessageIsTruncated` | kitex_gen/attachment/k-attachment.go:47-55 | cutting an accepted message anywhere gives the truncation error and no other |
| `ThriftRoundTrip.CutEncodingIsTruncated` | kitex_gen/attachment/k-attachment.go:47-55 | decoding any strict prefix of an encoding fails |
| `ThriftRoundTrip.EncodingsArePrefixFree` | kitex_gen/attachment/k-attachment.go:538-558 | no encoding is a prefix of the encoding of another value of the type |
| `ThriftRoundTrip.ReorderedMessageReadsTheSame` | kitex_gen/attachment/k-attachment.go:56-270 | permuting or repeating the fields of an encoding, with their payloads as they are, and adding unknown or mistyped ones leaves the decoded value unchanged |
| `ThriftEvolution.NewerMessageReadsTheSame` | kitex_gen/attachment/k-attachment.go:56-270 | at every depth, inside nested structs and list elements, fields may be permuted, repeated and joined by unknown or mistyped ones: the reader gets the value that its known fields say and uses exactly the message |
| `ThriftEvolution.EncodingIsDocument` | kitex_gen/attachment/k-attachment.go:538-558 | every encoding is such a message and says the encoded value |
| `ThriftGrammar.AcceptsExactly` | kitex_gen/attachment/k-attachment.go:29-336 | the reader accepts a buffer if and only if it begins with a sequence of acceptable fields, among them every required one, and a STOP; it uses exactly that message |
| `ThriftGrammar.AcceptedIsMessage` | kitex_gen/attachment/k-attachment.go:47-271 | the bytes used by an accepting reader are such a message |
| `ThriftGrammar.DecodeExact` | kitex_gen/attachment/k-attachment.go:29-336 | the bytes that a reader used are all that it needs |
| `ThriftRoundTrip.EncodingIsMessage` | kitex_gen/attachment/k-attachment.go:538-558 | an encoding is a message of fields that the reader accepts |
| `ThriftMessages.MessageIsReadExactly` | kitex_gen/attachment/k-attachment.go:47-326 | a well-formed field sequence decodes if and only if every required id occurs with its type; the last occurrence of each field wins; any failure names a missing required field |
| `ThriftMessages.LastOccurrenceWins` | kitex_gen/attachment/k-attachment.go:56-270 | each slot holds the last field read into it |
| `ThriftMessages.UnwantedFieldIsIgnored` | kitex_gen/attachment/k-attachment.go:63-270 | an unknown id, or a known id of another type, changes neither value nor error wherever it stands |
| `ThriftSkipping.UnknownFieldIsIgnored` | kitex_gen/attachment/k-attachment.go:263-270 | a field of unknown id, or of another type, that holds any value of the protocol changes only the number of bytes used, wherever it stands |
| `ThriftSkipping.SkipsAny` | kitex_gen/attachment/k-attachment.go:263-270 | skipping by type code passes over exactly one value: every number, string, struct, list, set and map of the binary protocol, nested to any depth |
| `ThriftSkipping.SkipsEncoding` | kitex_gen/attachment/k-attachment.go:263-270 | skipping passes over exactly the encoding of every value that this codec writes |
| `ThriftSkipping.EncodingIsAny` | kitex_gen/attachment/k-attachment.go:582-684 | what this codec writes is the protocol's form of the value, with the protocol's type codes, headers and STOP byte |
| `ThriftPrimitives.MostSignificantFirst` | kitex_gen/attachment/k-attachment.go:589-594 | the first byte of an integer is its most significant one |
| `ThriftPrimitives.NegativeSizesAreRefused` | kitex_gen/attachment/k-attachment.go:1145-1150 | a negative length of a string or list is refused |
| `ThriftRoundTrip.BoolByte` | kitex_gen/attachment/k-attachment.go:2032-2128 | a bool is true for the byte 1 only |
| `ThriftMessages.WantedFieldsDecide` | kitex_gen/attachment/k-attachment.go:56-326 | two messages with the same wanted fields decode alike |
| `ThriftMessages.DecodeStable` | kitex_gen/attachment/k-attachment.go:29-336 | bytes behind those the reader looked at do not change its answer, and a truncated read is the only one that more bytes can change |
| `ThriftCodec.Find` | kitex_gen/attachment/k-attachment.go:56-63 | the field dispatch finds the field of an id, or none |
| `ThriftCodec.FirstMissing` | kitex_gen/attachment/k-attachment.go:273-326 | the error names the first unread required field in id order |
| `ThriftFastCodec.BLength` | kitex_gen/attachment/k-attachment.go:560-580 | the length computed is the length of the encoding |
| `ThriftFastCodec.FieldsLength` | kitex_gen/attachment/k-attachment.go:562-579 | the loop in id order adds up the length of the fields in writing order |
| `ThriftFastCodec.ItemsLength` | kitex_gen/attachment/k-attachment.go:1261-1270 | the loop over a list adds up the length of its elements |
| `ThriftFastCodec.LengthInIdOrder` | kitex_gen/attachment/k-attachment.go:538-580 | adding up in id order and writing fixed-size fields first give the same length |
| `ThriftFastCodec.FastWrite` | kitex_gen/attachment/k-attachment.go:538-558 | the writer puts exactly the encoding at the offset, returns its length and touches no other byte |
| `ThriftFastCodec.WriteStruct` | kitex_gen/attachment/k-attachment.go:538-558 | the same for a struct, a nil one included |
| `ThriftFastCodec.WriteList` | kitex_gen/attachment/k-attachment.go:1226-1238 | the same for a list, whose header is written last, into the gap in front of the elements |
| `ThriftFastCodec.WriteFields` | kitex_gen/attachment/k-attachment.go:538-556 | the loop over the writing order produces the fields one behind the other |
| `ThriftFastCodec.WriteField` | kitex_gen/attachment/k-attachment.go:582-684 | one field is written behind its header, and an unset optional field not at all |
| `ThriftFastCodec.WriteItems` | kitex_gen/attachment/k-attachment.go:1226-1238 | list elements are written behind the gap for the header |
| `ThriftFastCodec.PatchedHeader` | kitex_gen/attachment/k-attachment.go:1226-1238 | the back-patched list header and the elements do not overlap and form header plus elements |
| `ThriftFastCodec.FastRead` | kitex_gen/attachment/k-attachment.go:29-336 | the offset-driven loop computes what decoding a field sequence means, and ends |
| `ThriftFastCodec.ReadField` | kitex_gen/attachment/k-attachment.go:47-271 | each turn ends the read with its outcome, or moves the offset at least three bytes on within the buffer |
| `ThriftFastCodec.ReadItems` | kitex_gen/attachment/k-attachment.go:1145-1168 | the element loop computes what decoding a list means |
| `ThriftFastCodec.ReadValue` | kitex_gen/attachment/k-attachment.go:1119-1168 | a nested struct, list or scalar is read as decoding says |
| `AttachmentSchemas.SchemasAreValid` | kitex_gen/attachment/k-attachment.go:538-3210 | each modelled struct has distinct ids, a writing order that visits every field once, and a required field |
| `AttachmentSchemas.SchemasAreGenerated` | kitex_gen/attachment/k-attachment.go:538-3210 | each writer puts the fields of a fixed width first and otherwise goes by id, and each reader insists on all fields but the optional ones |
| `AttachmentSchemas.StructsSurviveTheWire` | kitex_gen/attachment/k-attachment.go:29-3250 | for every modelled struct, a value survives the wire exactly when it is free of nil structs and oversized lengths, and a nil struct is refused |
| `CircuitBreaker.FieldsRefineHistory` | pkg/circuit/breaker.go:72-141 | under any interleaving and any clock, the failure count is the number of failures since the last success up to the threshold, the breaker is closed exactly below the threshold, half-open exactly when a call asked after the open period, and it remembers the latest failure |
| `CircuitBreaker.AdmissionByHistory` | pkg/circuit/breaker.go:72-95 | whether a call is admitted, from the operations before it alone |
| `CircuitBreaker.Breaker.constructor` | pkg/circuit/breaker.go:60-70 | a new breaker has the default limits and an empty history |
| `CircuitBreaker.Breaker.Allow` | pkg/circuit/breaker.go:72-95 | the call is admitted exactly when the history says so, the operation joins the history, and the fields stay those that the history determines |
| `CircuitBreaker.Breaker.Success` | pkg/circuit/breaker.go:97-106 | the success joins the history; the breaker is closed with its counters cleared |
| `CircuitBreaker.Breaker.Failure` | pkg/circuit/breaker.go:108-122 | the failure joins the history, and opens a half-open breaker or one at its threshold |
| `CircuitBreaker.Breaker.OpenLocked` | pkg/circuit/breaker.go:136-141 | the breaker is open from now on |
| `CircuitBreaker.Breaker.State` | pkg/circuit/breaker.go:124-134 | over the history of the object: closed is shown exactly below the threshold of failures since the last success, open exactly during the open period after the latest failure |
| `CircuitBreaker.ShownByHistory` | pkg/circuit/breaker.go:72-134 | the same for every run, and what it means for the next call: shown closed, it is admitted; shown open, it is rejected; shown half-open, it is admitted exactly while probes are left |
| `BreakerProbes.ProbeRateBound` | pkg/circuit/breaker.go:72-141 | from any breaker that is not closed, a window of length T without a success admits at most probes × (⌊T / openDuration⌋ + 1) calls, even with late failures |
| `BreakerProbes.ProbeRateBoundIsTight` | pkg/circuit/breaker.go:72-141 | for every number of open periods a run meets that bound exactly |
| `BreakerProbes.ReachableIsConsistent` | pkg/circuit/breaker.go:72-141 | every reachable breaker meets what the bound assumes of its start |
| `BreakerProbes.BoundedRun` | pkg/circuit/breaker.go:72-141 | the bound at every point of a window, in terms of the open periods passed |
| `BreakerCalls.CallsAreRuns` | pkg/circuit/kitex.go:17-34 | any interleaving of middleware calls is a run of the breaker |
| `BreakerCalls.ClosedByOutcomes` | pkg/circuit/kitex.go:24-44 | under any interleaving of calls, the breaker is closed exactly while fewer than threshold calls came back with a transport error since the last one that came back with nil or a business status, and that is its failure count up to the threshold |
| `BreakerCalls.BusinessStatusesNeverTrip` | pkg/circuit/kitex.go:36-44 | calls that return nil or a business status never open the breaker |
| `BreakerCalls.OnlyTransportErrorsFail` | pkg/circuit/kitex.go:25-29 | the failures since the last success are the transport errors in a row |
| `BreakerCalls.HalfOpenEpisode` | pkg/circuit/kitex.go:19-32 | while half-open, between 1 and probes calls were admitted in the episode, as many as the counter says, and if every call returns all of them are outstanding |
| `BreakerCalls.ReportEndsEpisode` | pkg/circuit/breaker.go:97-122 | a half-open breaker stays so exactly as long as no call reports |
| `BreakerCalls.HalfOpenNeverSticks` | pkg/circuit/kitex.go:19-32 | if every admitted call comes back, the half-open state ends |
| `BreakerCalls.VanishedProbesBlock` | pkg/circuit/breaker.go:86-91 | with all probes used up and no report, no call is admitted any more |
| `BreakerCalls.BlockedForEverExactly` | pkg/circuit/breaker.go:78-122 | no continuation ever admits a call again if and only if the breaker is half-open now with all probes handed out and no admitted call outstanding; otherwise one can be admitted, however late |
| `BreakerCalls.FailingCallsTrip` | pkg/circuit/kitex.go:25-29 | the breaker opens at exactly the threshold of failing calls |
| `BreakerCalls.PanickingProbeBlocks` | pkg/circuit/kitex.go:24-29 | with one probe, a panicking probe blocks the breaker: no continuation ever admits a call |
| `ConfigManager.LastGoodConfig` | pkg/configcenter/manager.go:239-337 | with arbitrary refusals, unreadable payloads and conflicts, stored revisions strictly increase, the current document is the last stored, and every delivery is accounted for once |
| `ConfigManager.CurrentIsFirstNewest` | pkg/configcenter/manager.go:254-275 | when the application accepts all, the current document is the first of the highest revision among the initial and delivered ones |
| `ConfigManager.DeliveriesConverge` | pkg/configcenter/manager.go:239-337 | managers that see the same documents in any order and number end with the same, newest document |
| `ConfigManager.ConvergesExactly` | pkg/configcenter/manager.go:258-269 | the order does not matter if and only if the current document is already as new as any or no two documents compete for the highest revision |
| `ConfigManager.CurrentWasSeen` | pkg/configcenter/manager.go:254-298 | the current document is the initial one or was delivered |
| `ConfigManager.RedeliveryHeals` | pkg/configcenter/manager.go:313-337 | after any failures, polling the highest revision again brings the manager to it |
| `ConfigManager.LoadKeepsLastGoodExactly` | pkg/configcenter/manager.go:94-115 | loading keeps the order of revisions exactly when the loaded document is newer |
| `ConfigManager.LoadingCanGoBack` | pkg/configcenter/manager.go:113 | loading revision 1 over revision 2 makes revision 1 current |
| `ConfigClose.Closer.Close` | pkg/configcenter/manager.go:182-213 | the call and its error are those of the once-guarded transition: cancel, wait until the worker or the deadline, then release the client |
| `ConfigClose.FirstCloseDecides` | pkg/configcenter/manager.go:182-213 | in every run of Close calls and worker ends, the client is released if and only if the first Close joined the worker; at most once, and never under a worker that still polls |
| `ConfigClose.NilMeansReleasedExactly` | pkg/configcenter/manager.go:187-212 | a nil return means a released client exactly when no earlier call gave up on the worker; after one did, every call returns nil and changes nothing |
| `ConfigClose.DeadlineLeavesClientOpen` | pkg/configcenter/manager.go:195-200 | after a deadline that passed first, the next call returns nil with the client still open, though the worker has ended |
| `ConfigClose.IdleStaysIdle` | pkg/configcenter/manager.go:187-212 | closing a manager that was not started does nothing and returns nil |
| `ConfigManager.Manager.LoadDocument` | pkg/configcenter/manager.go:113 | the loaded document is stored unconditionally |
| `ConfigManager.Manager.Offer` | pkg/configcenter/manager.go:254-298 | the revision rule and the application's answer decide; a refused document changes nothing |
| `ConfigManager.Manager.HandleUpdate` | pkg/configcenter/manager.go:239-252 | a callback is one delivery; a foreign binding or an unreadable payload is rejected and counted |
| `ConfigManager.Manager.PollAll` | pkg/configcenter/manager.go:313-337 | the poll loop is the run of its answers, and an unreadable one retains the last-good document |
| `ConfigEnvelope.DecryptsExactly` | pkg/configcenter/envelope.go:40-109 | an envelope gives its plaintext back exactly for the same key, key id and binding and within the size limit, and nothing otherwise |
| `ConfigEnvelope.AadIsInjective` | pkg/configcenter/envelope.go:207-220 | payload data of distinct valid key ids or bindings differ, and none equals that of a wrapped key |
| `ConfigEnvelope.OrdinaryKeyIdFits` | pkg/configcenter/envelope.go:16-20 | with a key id of at most 65536 bytes every plaintext up to 1 MiB fits the 2 MiB limit |
| `ConfigEnvelope.EndlessKeyIdLocksOut` | pkg/configcenter/envelope.go:69-72 | a key id of 2 MiB of letters is accepted with any plaintext, and the envelope then opens for no key, key id and binding |
| `ConfigEnvelope.AadAsWritten` | pkg/configcenter/envelope.go:207-220 | the associated data as joined by pipes, part by part |
| `ConfigEnvelope.EncryptAcceptsExactly` | pkg/configcenter/envelope.go:143-157 | exactly which inputs are encrypted |
| `ConfigEnvelope.DecryptAcceptsExactly` | pkg/configcenter/envelope.go:69-109 | decryption of any envelope gives out exactly what was sealed under the caller's key, key id and binding, within the limits |
| `ConfigEnvelope.LimitInNumbers` | pkg/configcenter/envelope.go:70 | the limit on the envelope in bytes |
| `ConfigEnvelope.FrameIsCounted` | pkg/configcenter/envelope.go:33-38 | the fixed part of the encoded envelope has 144 characters |
| `ConfigEnvelope.JsonTextIsCounted` | pkg/configcenter/envelope.go:62-66 | a key id takes as many bytes as its escaped text |
| `ConfigEnvelope.KeyIdAcceptedExactly` | pkg/configcenter/envelope.go:150-152 | a key id needs something visible and no line break and no pipe |
| `ConfigEnvelope.PartAcceptedExactly` | pkg/configcenter/envelope.go:126-141 | a part of a binding needs something visible, no pipe, and no line break except in the space around it |
| `ConfigEnvelope.SplitJoin` | pkg/configcenter/envelope.go:211-220 | parts without a pipe can be told apart again after joining |
| `ConfigEnvelope.ValidPartHasNoPipe` | pkg/configcenter/envelope.go:126-141 | checking the trimmed value rules a pipe out of the whole value |
| `ConfigDiff.RestartRequiredFields` | pkg/configcenter/diff.go:12-21 | the result is sorted and holds each path as often as the walk meets it |
| `ConfigDiff.Walk.Collect` | pkg/configcenter/diff.go:23-62 | the walk, which follows pointers first, appends exactly the changes below the path |
| `ConfigDiff.Walk.CollectFields` | pkg/configcenter/diff.go:43-61 | the loop over the declared fields appends the changes of the visible ones in order |
| `ConfigDiff.Sort` | pkg/configcenter/diff.go:19 | sorting gives a sorted permutation |
| `ConfigDiff.SortedIsUnique` | pkg/configcenter/diff.go:19 | a sorted list is determined by its contents |
| `ConfigDiff.AtMostIsLexicographic` | pkg/configcenter/diff.go:19 | the order of the result is that of the dictionary |
| `ConfigDiffTheorems.ReportsExactly` | pkg/configcenter/diff.go:23-62 | a path is reported if and only if it names a place reached through visible fields where the values differ, and is not mutable |
| `ConfigDiffTheorems.FieldsAreNamedByTag` | pkg/configcenter/diff.go:44-59 | what changes inside an exported field is reported below the name in its tag, before any comma, or else below its own name in small letters, behind a dot if there is a path |
| `ConfigDiffTheorems.HiddenFieldsAreNotReported` | pkg/configcenter/diff.go:45-51 | nothing inside an unexported field or one tagged "-" is reported |
| `ConfigDiffTheorems.LeavesAreReported` | pkg/configcenter/diff.go:35-41 | a leaf is reported under its path exactly when its values differ and the path is not mutable |
| `ConfigDiffTheorems.StructPathShieldsOnlyItself` | pkg/configcenter/diff.go:35-41 | a mutable path changes the report of no other path, not even of those below it |
| `ConfigDiffTheorems.MutableStructIsReported` | pkg/configcenter/diff.go:35-61 | a changed field inside a struct whose path is declared mutable is reported |
| `ConfigDiffTheorems.ReportIsSymmetric` | pkg/configcenter/diff.go:23-62 | exchanging the configurations changes nothing |
| `ConfigDiffTheorems.SameReport` | pkg/configcenter/diff.go:12-21 | two results for the same pair, in either order, are the same list |
| `ConfigDiffTheorems.EmptyExactlyWhenAdoptable` | pkg/configcenter/diff.go:12-62 | nothing is reported if and only if the process reaches the candidate by taking over mutable leaves and unnamed fields alone |
| `ConfigDiffTheorems.AdoptingNeedsNoRestart` | pkg/configcenter/diff.go:12-62 | the configuration after that takeover differs from the old one in nothing that needs a restart |
| `ConfigDiffTheorems.AdoptingLeavesTheRest` | pkg/configcenter/diff.go:12-62 | compared with the candidate, the takeover leaves exactly the fields reported before |
| `ConfigDiffTheorems.ReportedOnce` | pkg/configcenter/diff.go:43-61 | with distinct field names free of dots no path is reported twice |
| `AppError.DefineIsIdempotent` | pkg/error/error.go:57-74 | what `Define` returns is valid and trimmed, and defines itself |
| `AppError.DefinitionSurvivesExactly` | pkg/error/kitex.go:14-75 | rebuilding from the wire returns the definition with its message trimmed, the definition itself exactly when its message is trimmed, and Internal for an unknown error |
| `AppErrorTheorems.DefinedErrorSurvives` | pkg/error/kitex.go:14-75 | for any chain whose outermost definition comes from `Define`, whatever wraps it and whatever caused it, the same definition returns from the wire |
| `AppError.PaddedMessageChanges` | pkg/error/error.go:228-235 | an accepted definition with a padded message does not survive |
| `AppError.ConvertingTwice` | pkg/error/kitex.go:14-42 | converting a converted status gives the same status fields |
| `AppError.SameProblemOnBothSides` | pkg/error/hertz.go:31-71 | the section 3.1 members of RFC 9457, code and key of the problem are the same on both sides exactly when the message is trimmed |
| `AppError.BuildBizStatus` | pkg/error/kitex.go:14-42 | the status built step by step carries definition, identifiers and extras, the extras winning |
| `AppError.CopyAll` | pkg/error/kitex.go:35-37 | the copying loop is independent of the map's iteration order |
| `AppError.CopySafeExtra` | pkg/error/error.go:214-226 | only retry_after reaches an application error, trimmed, and only when not blank |
| `AppErrorTheorems.RetryAfterArrives` | pkg/error/kitex.go:33-38 | a retry_after given to an application error reaches the status and the problem document trimmed, through any chain of wrapping errors with no application error in front, and no other extra does |
| `AppErrorTheorems.WrappedIsFound` | pkg/error/error.go:146-174 | the searches through a chain find the outermost definition and the outermost application error, not their causes |
| `AppErrorTheorems.ShowsOutermost` | pkg/error/error.go:165-174 | the status and the problem document show code, key, kind and message of the outermost definition if it is valid, and the internal error otherwise or if there is none |
| `AppErrorTheorems.InternalSaysNothing` | pkg/error/error.go:36-46 | what the internal error shows |
| `AppErrorTheorems.NilHidesExtras` | pkg/error/kitex.go:33-38 | a nil application error in front hides the extras of those behind it |
| `AppErrorTheorems.IdentifiersTravel` | pkg/error/kitex.go:27-32 | request and trace id are in the status exactly when there are any, and in the problem document |
| `AppErrorTheorems.StatusOfKind` | pkg/error/hertz.go:98-121 | the status and title of the problem document for each of the ten kinds |
| `AppErrorTheorems.KeysMatchPattern` | pkg/error/error.go:41 | a key is valid if and only if it is a word that begins with a small letter, followed by words each behind a dot, underscore or dash |
| `AppErrorTheorems.DefineAcceptsExactly` | pkg/error/error.go:57-74 | exactly which definitions are accepted, and what they are |
| `AppError.FoundExtrasAreSafe` | pkg/error/kitex.go:33-38 | extras found in a chain can never override the error key or kind |
| `AppError.InternalIsValid` | pkg/error/error.go:40-46 | the fallback definition is valid and trimmed |
| `Text.TrimKeepsExactly` | pkg/error/error.go:58-59 | trimming changes a string exactly when it has space at an end |
| `Text.TrimStrips` | pkg/error/error.go:58-59 | trimming takes away nothing but space, and all of it at both ends |

## Left out

- Lifecycle: `run`, `close` and `shutdownComponents` are steps of a transition system, so that their selects interleave with the goroutines; the mutable object is modelled for registration only.
- Lifecycle: `close` concurrent with an active `run` is not modelled; `execute` calls them one after the other, and its deferred close is the `close` that may follow `run`.
- Lifecycle: a recovered panic of Serve, Ready or Shutdown is an ordinary error of its call, and errors are told apart only as far as the runner does (expected stops, the context's error, others); the texts of joined errors are not modelled.
- LifecycleTheorems.TeardownIsComplete: a hook is a call that returns; the program does not recover a panic of a hook, which would leave the hooks behind it unrun and end the process.
- Lifecycle: no deadline on cleanup hooks and no joining of readiness goroutines, because the program has neither; nil components and nil stop functions are refused before anything modelled here.
- Thrift: the binary primitives belong to a library that is not part of this model; they are defined from the protocol specification, a negative size is an error, and the library's limit on the nesting of skipped values is not modelled.
- Thrift: the direct-write interface is nil, as in `FastWrite`; reading starts from a fresh struct.
- Thrift: the remaining structs of the attachment service and the other services' generated codecs repeat the modelled shapes; getters, setters and the argument and result wrappers are not modelled.
- CircuitBreaker: a nil breaker, which admits everything, the saturation of time differences at about 292 years, and the observer callback.
- ConfigManager: the client, the ticker, metric gauges other than the reload counters, and `Start`, whose first fetch is one more delivery. Document bodies are compared as values, without NaN.
- ConfigEnvelope: AES-GCM is an ideal cipher that opens for its own key and associated data only; base64 and JSON enter by their lengths; strings are valid Unicode.
- ConfigDiff: field names are lower-cased for ASCII letters only, and leaves are compared as values, so NaN and function values, which never equal themselves, are excluded; cyclic pointers are not modelled.
- ConfigDiff.Sort: an insertion sort stands for the library's sort; only its result matters.
- AppError: `WriteHertzError`, `ToHTTPProblem` and the nil error; `Is` comparisons between errors.
- Authentication, bootstrap from the environment, the health registry, tracing, logging and the command line.
