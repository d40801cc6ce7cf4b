# Leader election over a revision-checked key-value store

N election instances compete for one key of a NATS JetStream KV bucket. They create the key to become
leader, refresh it with compare-and-swap updates, read it to validate their fencing token, take it over from
a leader with a lower priority, and lose it by expiry or deletion. This project models that protocol, the
store contract it rests on, the loops and locked sections of one instance, and the retry machinery, and
proves what they guarantee over every run.

| file | what it holds |
|---|---|
| `Store.dfy` | the store: as a function on values, as a mutable object, and over whole histories |
| `Groups.dfy` | several election groups share one revision counter without disturbing each other |
| `Protocol.dfy` | the protocol as a step relation, and the invariant that every step keeps |
| `Fencing.dfy`, `Priority.dfy` | safety of whole runs: fencing, ownership, takeover, priorities |
| `Refusal.dfy` | hypothesis H-REFUSAL: for which configurations it holds by itself, and the run that breaks the fence in the others; why H-OBSERVE and H-ACQUIRE are needed |
| `Snapshot.dfy` | hypothesis H-HEARTBEAT: what remains of the fence with the three separate loads of the code |
| `Lease.dfy`, `LeaseSafety.dfy`, `LeaseTight.dfy` | the protocol with time: at most one leader, exactly if the TTL is long enough |
| `Config.dfy` | configuration checks, and what the accepted timings mean for the lease |
| `Heartbeat.dfy`, `Validation.dfy`, `StaleLeader.dfy` | the two leader loops against counter-free trace specifications; how fast a stale leader steps down |
| `Lifecycle.dfy` | terms, transitions and watch loops under every interleaving of the locked sections |
| `Election.dfy` | one instance as a class, each method proved against the modules above |
| `Backoff.dfy`, `Breaker.dfy`, `Retry.dfy`, `Errors.dfy` | backoff, circuit breaker, retry, error classification |

`dafny verify dfyconfig.toml` checks everything.

## Hypotheses

The granularity of the steps is part of the model. Each choice is named where it is used
(`Protocol.dfy`, `Lease.dfy`):

- H-STORE: store operations are atomic; the key may be removed at any moment, because StopWithContext deletes
  it without looking at its revision.
- H-ACQUIRE: a Create that succeeds and the becomeLeader after it are one step. `Refusal.LateBecomeLeaderBreaksFence`
  is a run that breaks fencing without this hypothesis.
- H-TAKEOVER: the Get of a takeover is one step, its Update with becomeLeader another.
- H-HEARTBEAT: the snapshot of a heartbeat - the look at the leader flag, the revision and the token - is one step,
  its application another, its result a third; the application may come after the timeout, a demotion or a
  re-election, or never. The code takes the snapshot in three loads (leader/heartbeat.go:30, 62, 64);
  `Snapshot.FencedIff` proves that with these no group of two or more members is fenced in every run.
- H-OBSERVE: the watch and check handlers test the leader flag and overwrite `revision` in one step. The code
  takes no lock there; `Refusal.LateObserveBreaksFence` is a run that breaks fencing without this hypothesis.
- H-REFUSAL: a leader is not refused by the entry of another instance. The code does not check this;
  `Refusal.FencedIff` proves for exactly which configurations, under the other hypotheses, it needs no check.
- H-TOKEN: tokens are never drawn twice (version-4 UUIDs, section 5.4 of RFC 9562); instance IDs are distinct.
- H-TICK, H-EXPIRY, H-CONTEXT, H-PROMPT (timed model only): ticks are served when due and waits end by their
  timeout; the entry expires no earlier than TTL after its last write and is not deleted; contexts end only
  through Stop; the diagnostic Get after a mismatch takes no time and there is no health checker.

## Results that correct the documentation

- Fencing tokens are not safe in every interleaving. An old token overwrites a newer one
  - if a heartbeat looks at the leader flag, and the instance is demoted and its periodic check stores the revision
    of the new owner before the heartbeat loads its revision: for every group of at least two members, with
    takeover on or off, and for no smaller one (`Snapshot.FencedIff`);
  - with an atomic snapshot (H-HEARTBEAT), and with H-ACQUIRE, H-TAKEOVER and H-OBSERVE: if a member may take over
    and another member has an equal or higher priority (`Refusal.RivalBreaksFence`). An acquisition started by a
    watch event does not look at the leader flag, and its refused takeover stores a foreign revision in an instance
    that still believes to lead. In the configurations without such rivals, and only in these, every run under these
    hypotheses is fenced (`Refusal.FencedIff`);
  - without H-OBSERVE or without H-ACQUIRE: `Refusal.LateObserveBreaksFence`, `Refusal.LateBecomeLeaderBreaksFence`.

  Under all hypotheses every run is fenced (`Fencing.NeverReturns`).
- "Only one will be leader at a time" (leader/election.go:14) holds for the lease alone exactly if
  TTL > 3 * max(HB, U) + U, with U = max(HB / 2, 1 s) (`LeaseTight.LeaseIff`, `LeaseTight.LeaseInNumbers`). The smallest TTL that validation
  accepts, 3 * HB, never satisfies this (`Config.SmallestTtlIsUnsafe`); TTL > 4 * HB with HB >= 1 s does.
- Validation of `TTL >= 3 * HeartbeatInterval` computes the product in 64 bits and is exact only as long as it fits
  (`Config.TtlPromise`, `Config.ValidatesTheRules`).
- The health count is a 32-bit integer carried from term to term; the demotion bound holds exactly until it
  wraps (`Heartbeat.BoundIff`).
- The design document lets token validation return "invalid" without an error; the code never does
  (`Validation.NeverSilentlyInvalid`). The field comment says that a ValidationInterval of 0 disables the
  validation loop; the code then uses five seconds, so the loop is modelled as always running.
- After Stop the watcher flag and the number of watch loops can disagree (`Lifecycle.SingleWatcherIff`), and a
  second Start can leave state CANDIDATE in a leader (`Lifecycle.PhaseTellsLeaderIff`).

## Model

| member | source | states |
|---|---|---|
| `Store.KeyValue.Create` | internal/natsmock/keyvalue.go:99-159 | writes under the next revision if the key is absent, else fails and changes nothing |
| `Store.KeyValue.Update` | internal/natsmock/keyvalue.go:161-211 | writes under the next revision exactly if the key is present with the expected revision; the two failures are told apart |
| `Store.KeyValue.Get` | internal/natsmock/keyvalue.go:213-244 | returns the entry of the key, or that it is missing |
| `Store.KeyValue.Delete` | internal/natsmock/keyvalue.go:246-274 | removes the key if present and does not touch the counter |
| `Store.StepOnCell` | internal/natsmock/keyvalue.go:131-158 | seen from one key, every operation is nothing, a write, a removal, or a mere increment of the shared counter |
| `Store.Conservation` | internal/natsmock/keyvalue.go:131-158 | in every history, successful creates minus removals of a key is 1 if it is present and 0 otherwise |
| `Store.RevisionsAreDense` | internal/natsmock/keyvalue.go:146-158 | the successful writes of a history return 1, 2, 3, ... without a gap |
| `Store.RevisionsIncrease` | internal/natsmock/keyvalue.go:201-210 | a later successful write returns a strictly larger revision |
| `Store.SupersededForever` | internal/natsmock/keyvalue.go:189-210 | no ABA: a revision that stopped being current for its key never is again, also after delete and re-create |
| `Store.CompareAndSwapOnce` | internal/natsmock/keyvalue.go:189-210 | among all updates of a key that expect one revision at most one ever succeeds |
| `Groups.NonInterference` | leader/kv_election.go:92-97 | the operations of one group get the same replies in any interleaving with other groups as alone, up to renumbered revisions |
| `Groups.SameEntry` | internal/natsmock/keyvalue.go:138-151 | the group alone ends with the same entry, up to the renumbering |
| `Groups.RankKeepsOrder` | internal/natsmock/keyvalue.go:146-151 | the renumbering keeps the order of the revisions issued for the key and merges none |
| `Protocol.InvKept` | leader/kv_election.go:299-475 | every step keeps: a leader, a heartbeat or a takeover whose revision is still current is the author, or the reader, of exactly the entry that is stored |
| `Protocol.InvAlways` | leader/heartbeat.go:62-119 | that invariant holds in every state of every run |
| `Protocol.StepsAreOperations` | leader/kv_election.go:299-475 | every step has, on a store whose key looks like the cell, the effect of one Create, Get, Update or Delete of that key or of a write of another key, and goes on as the reply says: which fields a success sets, and that a failure sets none |
| `Fencing.StoredIsNewest` | leader/kv_election.go:325-376 | the stored token is always the newest one that was ever accepted |
| `Fencing.NeverReturns` | leader/kv_election.go:299-376 | a token that was replaced or removed never comes back, whatever late heartbeats, re-elections and removals follow |
| `Fencing.BeatKeepsPayload` | leader/heartbeat.go:62-119 | a heartbeat that is applied, however late, replaces an entry with the same id, token and priority |
| `Fencing.OwnerChanges` | leader/kv_election.go:429-475 | the owner changes only by removal, by a Create on an absent key, or by a takeover with a strictly higher priority |
| `Fencing.OwnerStable` | leader/kv_election.go:368-372 | as long as no term is accepted and the key is there, its owner stays the same |
| `Fencing.NoWriteAfterLoss` | leader/heartbeat.go:100-119 | an instance whose entry was replaced or removed writes nothing until a new term of it is accepted |
| `Fencing.NoBeatAfterDemote` | leader/heartbeat.go:29-32 | an instance that was demoted sends no heartbeat until a new term of it is accepted |
| `Fencing.ReportedOnce` | leader/heartbeat.go:109-119 | a heartbeat that timed out or was reported is never reported again, even if the store applies it later |
| `Fencing.TakeoverSound` | leader/kv_election.go:429-454 | a successful takeover replaces exactly the entry that its Get read, which was there all the time and has a strictly lower priority |
| `Fencing.TakeoverTriedOnce` | leader/kv_election.go:446-454 | the Update of a takeover is tried once, whether it succeeds or not |
| `Refusal.FencedIff` | leader/kv_election.go:440-444 | under all hypotheses but H-REFUSAL, every run is fenced exactly if no member that may take over has a rival with an equal or higher priority |
| `Refusal.UnrivalledRun` | leader/kv_election.go:440-444 | without rivals H-REFUSAL holds by itself, so all results about runs apply |
| `Refusal.RivalBreaksFence` | leader/watcher.go:125-147 | for any pair of rivals, a run - with a watch loop that starts the acquisition - in which the old token of one replaces the newer one of the other |
| `Refusal.TakeoverOffIsFenced` | leader/kv_election.go:328-330 | with takeover off every run under H-ACQUIRE, H-HEARTBEAT and H-OBSERVE is fenced, whatever the priorities |
| `Refusal.LateObserveBreaksFence` | leader/watcher.go:65-121 | a check that stores what it read when the instance already leads lets an old token return |
| `Refusal.LateBecomeLeaderBreaksFence` | leader/kv_election.go:325-353 | two overlapping acquisitions of one instance whose becomeLeader calls come in the wrong order let the older token return |
| `Snapshot.FencedIff` | leader/heartbeat.go:30-64 | with the leader flag, the revision and the token loaded one after the other, every run is fenced exactly for groups of at most one member |
| `Snapshot.LateSnapshotBreaksFence` | leader/heartbeat.go:30-64 | a run, for any two members and with takeover on or off, in which such a heartbeat puts an old token over a newer one |
| `Snapshot.LoneIsFenced` | leader/heartbeat.go:30-64 | a member without company is fenced whatever happens between its loads |
| `Snapshot.AtomicSnapshotIsFine` | leader/heartbeat.go:30-69 | a snapshot may begin exactly in a leader, and the atomic snapshot of the protocol is the three loads without anything in between |
| `Priority.PriorityStep` | leader/heartbeat.go:65-69 | a step without removal keeps the key, does not lower its priority, and raises it if it is a takeover |
| `Priority.PriorityMonotone` | leader/kv_election.go:440-446 | without removal the stored priority never falls, and each takeover uses up one configured priority above it |
| `Priority.TakeoversBounded` | leader/kv_election.go:440-446 | without removal there are fewer takeovers than distinct configured priorities |
| `LeaseSafety.TInvKept` | leader/heartbeat.go:89-119 | with a TTL above the hold time every timed step keeps: a running heartbeat loop holds the lease, and is on time |
| `LeaseSafety.OneLeader` | leader/heartbeat.go:170-187 | with a TTL above the hold time every reachable state has at most one leader |
| `LeaseSafety.NoSecondLoop` | leader/kv_election.go:391-395 | a term never starts beside a heartbeat loop that still runs |
| `LeaseSafety.ForgetTime` | leader/heartbeat.go:13-31 | forgetting the clocks turns every timed run into a run of the protocol |
| `LeaseSafety.TimedLoopReacts` | leader/heartbeat.go:156-196 | the loop of the timed model reacts to update results as the heartbeat loop does |
| `LeaseSafety.TimedStepProjects` | leader/heartbeat.go:25-119 | the protocol half of each timed step |
| `LeaseSafety.LeaseRunsFromLastWrite` | leader/heartbeat.go:100-107 | every write of the key, and nothing else, renews the lease |
| `LeaseSafety.NextFireSoon` | leader/heartbeat.go:14 | the next tick is the first multiple of the interval after now, counted from the start of the ticker |
| `LeaseSafety.NoEarlyBeat` | leader/heartbeat.go:14-29 | no heartbeat is sent earlier than one interval after its term began |
| `LeaseSafety.LoopLives` | leader/heartbeat.go:25-32 | a heartbeat loop begins only with a term, and ends exactly if it finds the instance not leading or its context done, at a permanent error, or at the third failure |
| `LeaseSafety.StoppedStaysDown` | leader/kv_election.go:520-558 | from a Stop until the next Start an instance is not leader and its loop is told to end |
| `LeaseTight.TwoLeaders` | leader/heartbeat.go:89-119 | for every TTL within the hold time, a run with two leaders |
| `LeaseTight.LeaseIff` | leader/validation.go:25-30 | all runs have at most one leader exactly if the TTL exceeds the hold time, which `LeaseInNumbers` gives in numbers |
| `LeaseTight.LeaseInNumbers` | leader/heartbeat.go:89-92 | the same law in numbers: the TTL must exceed 3 * HB + HB / 2 from two seconds on, 3 * HB + 1 s between one and two seconds, and 4 s below one second |
| `Config.ValidatesTheRules` | leader/validation.go:5-63 | a refused field breaks its documented rule and is the first in the order of the checks that does; an accepted configuration breaks none except one whose multiple of the interval overflows 64 bits; without overflow acceptance is exactly obedience to the rules |
| `Config.OverflowedRules` | leader/validation.go:25-42 | with an overflow the accepted configurations are exactly those that obey the other rules and whose TTL is at least the triple less 2^64 |
| `Config.TtlPromise` | leader/validation.go:25-30 | accepted configurations have TTL >= 3 * HB exactly for the intervals whose triple fits into 64 bits |
| `Config.SmallestTtlIsUnsafe` | leader/validation.go:25-30 | with TTL = 3 * HB two members can lead at once, whatever the interval |
| `Config.FourfoldTtlIsSafe` | leader/validation.go:25-30 | with HB >= 1 s and TTL > 4 * HB they cannot |
| `Config.ShortTtlIsUnsafe` | leader/heartbeat.go:89-92 | a TTL of at most four seconds is unsafe for every interval |
| `Heartbeat.DemotesExactly` | leader/heartbeat.go:17-60 | the loop demotes at exactly the first tick with a permanent error, a third failure with no success between, or an exhausted health count |
| `Heartbeat.LeavesExactly` | leader/heartbeat.go:26-32 | it leaves without a demotion exactly if it finds its context done, before the tick or in the wait for the update, or the instance not leading |
| `Heartbeat.UnhealthyEndsAt` | leader/heartbeat.go:20-23 | the health threshold in numbers: the configured maximum as a 32-bit integer, 3 if none is configured; a term that stays unhealthy ends with exactly that tick |
| `Heartbeat.HealthAfter` | leader/heartbeat.go:38-59 | the count that a term leaves to the next one is the length of the row of unhealthy ticks that it ended with, plus what it was given if the row is the whole term |
| `Heartbeat.RefinesTraceIff` | leader/heartbeat.go:39-60 | that holds on every sequence of events exactly for carried health counts that have not wrapped and do not wrap next |
| `Heartbeat.FruitlessBound` | leader/heartbeat.go:156-184 | from any tick on, with whatever failures were counted before, a loop without a successful update ends within 3 * H ticks |
| `Heartbeat.FruitlessBoundTight` | leader/heartbeat.go:38-51 | 3 * H - 1 fruitless ticks can be survived |
| `Heartbeat.BoundIff` | leader/heartbeat.go:39-54 | the bound holds exactly for carried health counts from 0 up to, not including, the largest 32-bit integer |
| `Validation.NeverSilentlyInvalid` | leader/kv_election.go:831-998 | an invalid token always comes with an error; a token is valid exactly if the store holds it under this instance |
| `Validation.ReasonTells` | leader/kv_election.go:831-998 | which error means what |
| `Validation.OnlyNewestValidates` | leader/kv_election.go:831-998 | a token that validates is the newest ever accepted and its holder owns the key |
| `Validation.ValidatesIff` | leader/kv_election.go:831-998 | a validation that is answered in time succeeds exactly if the key holds the token under this instance |
| `Validation.AtMostOneValidates` | leader/kv_election.go:1002-1008 | two validations whose reads fall anywhere into a stretch of a run without a new acceptance belong to the same instance and term |
| `Validation.SupersededNeverValidates` | leader/kv_election.go:932-951 | a superseded token never validates again |
| `Validation.DemotesExactly` | leader/fencing.go:26-86 | the validation loop demotes at exactly the second failed validation in a row, or at an invalid token without an error |
| `Validation.LeavesExactly` | leader/fencing.go:30-36 | it leaves without a demotion exactly if its context is done or the instance does not lead |
| `Validation.SupersededIsDemoted` | leader/fencing.go:33-60 | a superseded leader is demoted by its second validation tick |
| `StaleLeader.StepsDown` | leader/heartbeat.go:156-184 | the heartbeat loop of a leader that lost its entry, with whatever failures it has counted by then, ends within 3 * H ticks after the loss |
| `StaleLeader.NothingSucceeds` | leader/heartbeat.go:100-119 | no heartbeat that an instance sends after the loss is reported back to it as applied until a new term of it is accepted |
| `StaleLeader.FirstAnswerDemotes` | leader/error.go:263-279 | with the store's own messages the first answered update after the loss demotes at once |
| `Lifecycle.TermsAreCounted` | leader/kv_election.go:357-379 | in every interleaving, promotions equal recorded durations plus one if leading; the gauge equals isLeader; state LEADER implies isLeader |
| `Lifecycle.TermIsMeasured` | leader/kv_election.go:488-497 | the duration recorded when leadership ends is the time since the last becomeLeader, and the instance led all the time in between |
| `Lifecycle.OnlyTermsAreMeasured` | leader/kv_election.go:494-497 | no other step records a duration |
| `Lifecycle.ContextIff` | leader/kv_election.go:191-201 | there is a live context exactly if some Start was not followed by a Stop, a cancellation or the end of StopWithContext; none at all exactly if every Start was followed by the end of StopWithContext |
| `Lifecycle.StopNeedsStart` | leader/kv_election.go:520-526 | after StopWithContext a Stop is refused and changes nothing, until the next Start |
| `Lifecycle.TransitionsConnect` | leader/kv_election.go:477-499 | the transitions recorded since the last Start form a connected path from CANDIDATE to the current state |
| `Lifecycle.PhaseTellsLeaderIff` | leader/kv_election.go:187-212 | state LEADER and isLeader agree all along a run exactly if no Start takes effect while leading |
| `Lifecycle.StartWhileLeadingHappens` | leader/kv_election.go:191-211 | a run in which they disagree |
| `Lifecycle.SingleWatcherIff` | leader/kv_election.go:509-517 | the watcher flag counts the watch loops all along a run exactly if no Stop comes while one is alive |
| `Lifecycle.FollowerWatches` | leader/kv_election.go:509-517 | an instance that becomes follower has a watch loop if it has a context, and starts none without one |
| `Lifecycle.TwoWatchersAfterStop` | leader/kv_election.go:546-549 | a run with two watch loops of one instance |
| `Election.AttemptIsProtocol` | leader/kv_election.go:299-355 | an uninterrupted acquisition is one or two protocol steps with the effect that the method is proved to have |
| `Election.BeatIsProtocol` | leader/heartbeat.go:62-187 | an uninterrupted heartbeat of a leader is three protocol steps with the effect on revision and leadership that the loop has on the answer of the store |
| `Election.BeatsGoOn` | leader/heartbeat.go:62-187 | through any number of heartbeats a leader whose revision is current stays leader, each one refreshes the entry and none is refused |
| `Election.RevisionIsLastWritten` | leader/heartbeat.go:187 | the revision after the first k events of the heartbeat loop is that of the last successful update, or the one that the term began with |
| `Election.LastAnswerDecides` | leader/kv_election.go:255-296 | after a retried acquisition the last attempt that did not merely fail decides: a gain sets all four fields, a refusal records who refused and leaves flag and token alone |
| `Election.KvElection.Start` | leader/kv_election.go:187-234 | fails under a live context, fails and cancels the context if the connection monitor does not start, else the instance is a candidate with a live context |
| `Election.KvElection.FirstAttempt` | leader/kv_election.go:223-231 | the attempt that Start launches wins an absent key; if it is lost the instance becomes a follower and the store is unchanged |
| `Election.KvElection.BecomeLeader` | leader/kv_election.go:357-379 | the instance leads, in state LEADER, knows itself as leader and holds the given token and revision; the lifecycle takes its Lead step |
| `Election.KvElection.BecomeFollower` | leader/kv_election.go:477-518 | leadership ends and is recorded, and a watch loop starts if none runs |
| `Election.KvElection.Stop` | leader/kv_election.go:520-558 | fails exactly without a context; else leadership ends, is recorded, and the context is cancelled |
| `Election.KvElection.StopWithContext` | leader/kv_election.go:594-747 | as Stop, with each way in which the waits for the goroutines and for the callback can end; the key is deleted only by a former leader whose goroutines ended, and only then is the callback called |
| `Election.KvElection.WatchLoopEnds` | leader/kv_election.go:512-516 | one watch loop less, flag cleared |
| `Election.KvElection.AttemptAcquire` | leader/kv_election.go:299-355 | wins exactly if the key is absent or held with a lower priority by takeover; all other keys and, on defeat, the store are unchanged |
| `Election.KvElection.AttemptPriorityTakeover` | leader/kv_election.go:429-475 | wins exactly against a strictly lower priority; a refusal records the id and the revision of the leader that refused; every other defeat changes no field, and each defeat has its own error |
| `Election.KvElection.AttemptAcquireWithRetry` | leader/kv_election.go:238-297 | at most 4 attempts and 485 ms of waiting, cut waits included; none after a success; after four failures, and only then, the instance becomes a follower |
| `Election.KvElection.HandleWatchEvent` | leader/watcher.go:125-214 | a leader steps down exactly on a foreign entry and keeps its revision; a follower records the id and the revision of the entry and tries a takeover only of a known leader |
| `Election.KvElection.CheckKeyAndReelect` | leader/watcher.go:65-121 | does nothing in a leader; starts an acquisition exactly if the key cannot be read; a follower that knew a leader knows the present one afterwards, and its revision if it is another |
| `Election.KvElection.ValidateTokenOrDemote` | leader/kv_election.go:1013-1022 | true exactly if the instance leads and its token is stored under its id; otherwise it does not lead afterwards |
| `Election.KvElection.HeartbeatLoop` | leader/heartbeat.go:13-208 | follows the reactions of module Heartbeat event by event and ends with the first that is not Continue; it holds the revision of `RevisionIsLastWritten`, and changes neither token nor known leader |
| `Election.KvElection.ValidationLoop` | leader/fencing.go:17-88 | follows the reactions of module Validation event by event |
| `Backoff.BaseGrows` | leader/retry.go:28-32 | the base is nondecreasing in the attempt and capped |
| `Backoff.BaseSteps` | leader/retry.go:28-32 | the base starts with the initial backoff and is multiplied with every attempt, up to the cap |
| `Backoff.BackoffWithin` | leader/retry.go:34-39 | the result stays within (1 - J) and (1 + J) times the base |
| `Backoff.JitterFollowsDraw` | leader/retry.go:34-39 | over the draws the wait runs through the whole interval, in proportion to the draw; a draw of 1/2 gives the base |
| `Backoff.WaitIsMultiple` | leader/retry.go:34-39 | for every jitter the wait is the base times 1 + J * (2 * draw - 1), or the base where that is negative |
| `Backoff.DefaultBases` | leader/retry.go:19-26 | the default backoff in numbers: 50 ms, doubled up to 3.2 s, then 5 s, with a tenth of jitter |
| `Backoff.DefaultBackoffs` | leader/retry.go:19-26 | the three waits of the acquisition loop are 50, 100 and 200 ms, each within a tenth |
| `Breaker.CircuitBreaker.Call` | leader/retry.go:114-138 | rejects exactly while open and cooling down; a failure counts, stamps its end and opens at the threshold; a success resets |
| `Breaker.NeverHalfOpen` | leader/retry.go:97-138 | between calls a breaker is never half open, and open only with at least threshold failures |
| `Breaker.FailuresSinceSuccess` | leader/retry.go:125-137 | its failure count is the number of failed executions since the last success |
| `Breaker.OutageBound` | leader/retry.go:118-132 | an outage of length d entered closed and without failures costs at most threshold + floor(d / cooldown) executions (a threshold below 1 counts as 1) |
| `Retry.RetryWithBackoff` | leader/retry.go:48-87 | the loop computes the specification of a retry, breaker included, of which `EndsMean` says what it does |
| `Retry.EndsMean` | leader/retry.go:48-87 | a retry goes on after every run but the last, and each end has its exact condition: success, a permanent error, the last allowed run, the context ended in the wait or before the next run, the breaker open and cooling down; else it still runs |
| `Retry.RetryContract` | leader/retry.go:67-77 | at most m runs, all but the last ended transiently, nil exactly if the last run succeeded |
| `Retry.BreakerEndsRetryIff` | leader/retry.go:57-61 | unlimited retry behind a closed breaker runs at most threshold - failures times and returns, in every environment, exactly if the cooldown outlasts the wait after the opening failure |
| `Retry.LongCooldownEndsRetry` | leader/retry.go:79-85 | a cooldown above MaxBackoff * (1 + Jitter) is always enough |
| `Errors.Partition` | leader/error.go:314-352 | permanent and transient exactly partition the errors |
| `Errors.PermanentExactly` | leader/error.go:247-292 | the permanent errors are exactly those that mention one of the seven texts or wrap one of the three sentinels, and are no cancellation, timeout or deadline |
| `Errors.CaseIsIgnored` | leader/error.go:263 | the case of the text does not matter |
| `Errors.ContainsIff` | leader/error.go:275-279 | a pattern is found exactly if it occurs somewhere in the text |
| `Errors.WrapStaysPermanent` | leader/error.go:247-292 | a permanent error that is wrapped stays permanent exactly unless the wrapper is a *TimeoutError |
| `Errors.LossIsPermanent` | leader/error.go:265-279 | both store errors that mean a lost key are permanent |

## Left out

- Reconnect, disconnect and grace-period handling (leader/connection.go).
- JSON encoding: payloads are well-formed (id, token, priority) records, except that token validation also covers
  malformed values; the recursion of a takeover on a value that does not parse is not modelled.
- NATS adapters, the embedded server, logging, Prometheus plumbing, status getters, the code inside callbacks, examples and demo.
- Error texts of the real NATS client: the store's own messages are used. The text of a refused takeover is modelled without
  the two priorities in it.
- The revision counter is an unbounded natural number; its wrap-around after 2^64 writes is not modelled, nor is
  that of the breaker's failure count.
- Backoff is over the reals; the truncation to whole nanoseconds and floating-point rounding are not modelled.
- Lower-casing of error texts covers ASCII letters only.
- Priority takeover and key deletion in the timed model: the lease argument is about expiry alone.
- The time that a callback, a health check or the logging takes.
