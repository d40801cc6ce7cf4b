/**
 Safety of the protocol over whole runs: fencing, ownership, and the two steps of a takeover.
 */
module Fencing {
  import opened Store
  import opened Protocol

  function StoredToken(s: State): Option<nat> {
    if s.cell.entry.Some? then Some(s.cell.entry.value.value.token) else None
  }

  function Owner(s: State): Option<nat> {
    if s.cell.entry.Some? then Some(s.cell.entry.value.value.id) else None
  }

  /** Step k of the run made the store accept a new term. */
  ghost predicate Accepts(r: Run, k: nat)
    requires k < |r.steps| < |r.states|
  {
    r.states[k].accepted != r.states[k + 1].accepted
  }

  /** Step k of the run is a heartbeat that the store applied. */
  ghost predicate BeatApplied(r: Run, k: nat)
    requires k < |r.steps| < |r.states|
  {
    r.steps[k].BeatApply? && r.states[k].cell.rev < r.states[k + 1].cell.rev
  }

  /** Step k of the run brings a heartbeat that instance i sent at some time to the store. */
  ghost predicate BeatOf(r: Run, k: nat, i: nat)
    requires k < |r.steps| < |r.states|
  {
    && r.steps[k].BeatApply?
    && r.steps[k].h < |r.states[k].beats|
    && r.states[k].beats[r.steps[k].h].inst == i
  }

  /** Instance i wrote the key in step k of the run. */
  ghost predicate WroteBy(r: Run, k: nat, i: nat)
    requires k < |r.steps| < |r.states|
  {
    (Accepts(r, k) || BeatApplied(r, k)) && Owner(r.states[k + 1]) == Some(i)
  }

  // ---------------------------------------------------------------------------------------------
  // Fencing
  // ---------------------------------------------------------------------------------------------

  /** What one step may do to the accepted terms: add to them, and bring the key back only by doing so. */
  ghost predicate Evolves(s: State, s': State) {
    && s.accepted <= s'.accepted
    && (s.accepted == s'.accepted && s.cell.Absent() ==> s'.cell.Absent())
  }

  /** A sequence of states that evolves so and keeps the invariant; every run gives one. */
  ghost predicate Chain(c: Config, ss: seq<State>) {
    && (forall k :: 0 <= k < |ss| ==> Inv(c, ss[k]))
    && (forall k :: 0 <= k < |ss| - 1 ==> Evolves(ss[k], ss[k + 1]))
  }

  lemma StepEvolves(c: Config, s: State, step: Step)
    requires Inv(c, s) && Possible(c, s, step)
    ensures Evolves(s, Apply(c, s, step))
  {
  }

  lemma RunIsChain(c: Config, r: Run)
    requires IsRun(c, r)
    ensures Chain(c, r.states)
  {
    forall k | 0 <= k < |r.states|
      ensures Inv(c, r.states[k])
    {
      InvAlways(c, r, k);
    }
    forall k | 0 <= k < |r.states| - 1
      ensures Evolves(r.states[k], r.states[k + 1])
    {
      assert Next(c, r.states[k], r.steps[k], r.states[k + 1]);
      StepEvolves(c, r.states[k], r.steps[k]);
    }
  }

  lemma {:induction false} AcceptedGrows(c: Config, ss: seq<State>, j: nat, k: nat)
    requires Chain(c, ss) && j <= k < |ss|
    ensures ss[j].accepted <= ss[k].accepted
  {
    if j < k {
      AcceptedGrows(c, ss, j, k - 1);
      assert Evolves(ss[k - 1], ss[k - 1 + 1]);
    }
  }

  /** As long as no term is accepted, a key that is gone stays gone. */
  lemma {:induction false} AbsentUntilAccepted(c: Config, ss: seq<State>, j: nat, k: nat)
    requires Chain(c, ss) && j <= k < |ss|
    requires ss[j].cell.Absent() && ss[j].accepted == ss[k].accepted
    ensures ss[k].cell.Absent()
  {
    if j < k {
      AcceptedGrows(c, ss, j, k - 1);
      AcceptedGrows(c, ss, k - 1, k);
      AbsentUntilAccepted(c, ss, j, k - 1);
      assert Evolves(ss[k - 1], ss[k - 1 + 1]);
    }
  }

  /** Whatever token is in the store is the newest one that the store ever accepted. */
  lemma StoredIsNewest(c: Config, r: Run, k: nat)
    requires IsRun(c, r) && k < |r.states|
    ensures r.states[k].cell.entry.Some? ==>
              && r.states[k].accepted != []
              && StoredToken(r.states[k]) == Some(r.states[k].accepted[|r.states[k].accepted| - 1])
  {
    InvAlways(c, r, k);
  }

  lemma ChainNeverReturns(c: Config, ss: seq<State>, i: nat, j: nat, k: nat, token: nat)
    requires Chain(c, ss) && i <= j <= k < |ss|
    requires StoredToken(ss[i]) == Some(token) && StoredToken(ss[j]) != Some(token)
    ensures StoredToken(ss[k]) != Some(token)
  {
    if StoredToken(ss[k]) == Some(token) {
      assert Inv(c, ss[i]) && Inv(c, ss[j]) && Inv(c, ss[k]);
      AcceptedGrows(c, ss, i, j);
      AcceptedGrows(c, ss, j, k);
      var (first, last) := (ss[i].accepted, ss[k].accepted);
      assert last[|first| - 1] == last[|last| - 1];
      AbsentUntilAccepted(c, ss, j, k);
      assert false;
    }
  }

  /** No token that left the store comes back. */
  ghost predicate Fenced(ss: seq<State>) {
    forall i, j, k ::
      0 <= i <= j <= k < |ss| && StoredToken(ss[i]).Some? && StoredToken(ss[j]) != StoredToken(ss[i]) ==>
        StoredToken(ss[k]) != StoredToken(ss[i])
  }

  lemma ChainIsFenced(c: Config, ss: seq<State>)
    requires Chain(c, ss)
    ensures Fenced(ss)
  {
    forall i, j, k |
      0 <= i <= j <= k < |ss| && StoredToken(ss[i]).Some? && StoredToken(ss[j]) != StoredToken(ss[i])
      ensures StoredToken(ss[k]) != StoredToken(ss[i])
    {
      ChainNeverReturns(c, ss, i, j, k, StoredToken(ss[i]).value);
    }
  }

  /**
   Fencing: a token that was in the store and was then replaced or removed never comes back, whatever
   late heartbeats, re-elections, takeovers and removals the run contains.
   */
  lemma NeverReturns(c: Config, r: Run, i: nat, j: nat, k: nat, token: nat)
    requires IsRun(c, r) && i <= j <= k < |r.states|
    requires StoredToken(r.states[i]) == Some(token)
    requires StoredToken(r.states[j]) != Some(token)
    ensures StoredToken(r.states[k]) != Some(token)
  {
    RunIsChain(c, r);
    ChainNeverReturns(c, r.states, i, j, k, token);
  }

  // ---------------------------------------------------------------------------------------------
  // Ownership
  // ---------------------------------------------------------------------------------------------

  /** Heartbeats never steal: one that is applied, however late, replaces an equal payload. */
  lemma BeatKeepsPayload(c: Config, r: Run, k: nat)
    requires IsRun(c, r) && k < |r.steps| && BeatApplied(r, k)
    ensures r.states[k].cell.entry.Some? && r.states[k + 1].cell.entry.Some?
    ensures r.states[k + 1].cell.entry.value.value == r.states[k].cell.entry.value.value
  {
    InvAlways(c, r, k);
    assert Next(c, r.states[k], r.steps[k], r.states[k + 1]);
    assert BeatOk(c, r.states[k], r.states[k].beats[r.steps[k].h]);
  }

  /** The only ways in which the owner of the key changes. */
  lemma OwnerChanges(c: Config, r: Run, k: nat)
    requires IsRun(c, r) && k < |r.steps| && Owner(r.states[k]) != Owner(r.states[k + 1])
    ensures match (Owner(r.states[k]), Owner(r.states[k + 1]))
            case (_, None) => r.steps[k].Remove?
            case (None, Some(b)) => r.steps[k].Acquire? && r.steps[k].i == b && Accepts(r, k)
            case (Some(a), Some(b)) =>
              && r.steps[k].TakeoverWrite? && Accepts(r, k)
              && r.states[k].takeovers[r.steps[k].t].inst == b
              && a < |c| && b < |c| && c[a].priority < c[b].priority
  {
    InvAlways(c, r, k);
    assert Next(c, r.states[k], r.steps[k], r.states[k + 1]);
    if r.steps[k].TakeoverWrite? {
      assert TakeoverOk(c, r.states[k], r.states[k].takeovers[r.steps[k].t]);
    }
  }

  lemma AcceptedBetween(c: Config, r: Run, j: nat, m: nat, k: nat)
    requires IsRun(c, r) && j <= m <= k < |r.states| && r.states[j].accepted == r.states[k].accepted
    ensures r.states[m].accepted == r.states[j].accepted
  {
    RunIsChain(c, r);
    AcceptedGrows(c, r.states, j, m);
    AcceptedGrows(c, r.states, m, k);
  }

  lemma OwnerKept(c: Config, r: Run, k: nat)
    requires IsRun(c, r) && k < |r.steps| && !Accepts(r, k) && Owner(r.states[k + 1]).Some?
    ensures Owner(r.states[k]) == Owner(r.states[k + 1])
  {
    if Owner(r.states[k]) != Owner(r.states[k + 1]) {
      OwnerChanges(c, r, k);
    }
  }

  /** While no term is accepted and the key is there at the end, its owner does not change. */
  lemma {:induction false} OwnerStable(c: Config, r: Run, j: nat, k: nat)
    requires IsRun(c, r) && j <= k < |r.states|
    requires r.states[j].accepted == r.states[k].accepted && Owner(r.states[k]).Some?
    ensures Owner(r.states[j]) == Owner(r.states[k])
  {
    if j < k {
      AcceptedBetween(c, r, j, k - 1, k);
      OwnerKept(c, r, k - 1);
      OwnerStable(c, r, j, k - 1);
    }
  }

  /**
   An instance whose entry was replaced or removed writes nothing - no heartbeat of it is applied,
   whenever it was sent - until the store accepts a new term of it.
   */
  lemma {:induction false} NoWriteAfterLoss(c: Config, r: Run, i: nat, j: nat, k: nat)
    requires IsRun(c, r) && j <= k < |r.states|
    requires Owner(r.states[j]) != Some(i)
    requires forall m :: j <= m < k ==> !(Accepts(r, m) && Owner(r.states[m + 1]) == Some(i))
    ensures Owner(r.states[k]) != Some(i)
    ensures forall m :: j <= m < k ==> !WroteBy(r, m, i)
    ensures forall m :: j <= m < k && BeatOf(r, m, i) ==> !BeatApplied(r, m)
  {
    if j < k {
      NoWriteAfterLoss(c, r, i, j, k - 1);
      var m := k - 1;
      assert Next(c, r.states[m], r.steps[m], r.states[m + 1]);
      if Owner(r.states[m]) != Owner(r.states[m + 1]) {
        OwnerChanges(c, r, m);
      }
      if BeatApplied(r, m) {
        BeatKeepsPayload(c, r, m);
      }
    }
  }

  lemma NotLeadingStep(c: Config, s: State, step: Step, i: nat)
    requires Inv(c, s) && Enabled(c, s, step) && i < |c| && !s.insts[i].isLeader
    requires Apply(c, s, step).accepted == s.accepted || Owner(Apply(c, s, step)) != Some(i)
    ensures i < |Apply(c, s, step).insts| && !Apply(c, s, step).insts[i].isLeader
  {
  }

  /** An instance that was demoted sends no heartbeat until the store accepts a new term of it. */
  lemma {:induction false} NoBeatAfterDemote(c: Config, r: Run, i: nat, j: nat, k: nat)
    requires IsRun(c, r) && j < k < |r.states| && r.steps[j] == Demote(i)
    requires forall m :: j < m < k ==> !(Accepts(r, m) && Owner(r.states[m + 1]) == Some(i))
    ensures i < |r.states[k].insts| && !r.states[k].insts[i].isLeader
    ensures forall m :: j < m < k ==> r.steps[m] != BeatSend(i)
  {
    var m := k - 1;
    assert Next(c, r.states[m], r.steps[m], r.states[m + 1]);
    if j < m {
      NoBeatAfterDemote(c, r, i, j, m);
      InvAlways(c, r, m);
      assert !Accepts(r, m) || Owner(r.states[m + 1]) != Some(i);
      NotLeadingStep(c, r.states[m], r.steps[m], i);
    }
  }

  /** Heartbeat h is not waited for: it was given up, or its result was reported. */
  ghost predicate Forgotten(s: State, h: nat) {
    h < |s.beats| && !s.beats[h].awaited
  }

  lemma ForgottenStep(c: Config, s: State, step: Step, h: nat)
    requires Enabled(c, s, step) && Forgotten(s, h)
    ensures Forgotten(Apply(c, s, step), h)
  {
  }

  /** A heartbeat that was given up or reported is never reported again, even if the store applies it later. */
  lemma {:induction false} ReportedOnce(c: Config, r: Run, h: nat, j: nat, k: nat)
    requires IsRun(c, r) && j < k < |r.states| && (r.steps[j] == BeatTimeout(h) || r.steps[j] == BeatResult(h))
    ensures Forgotten(r.states[k], h)
    ensures forall m :: j < m < k ==> r.steps[m] != BeatResult(h)
  {
    var m := k - 1;
    assert Next(c, r.states[m], r.steps[m], r.states[m + 1]);
    if j < m {
      ReportedOnce(c, r, h, j, m);
      ForgottenStep(c, r.states[m], r.steps[m], h);
    }
  }

  // ---------------------------------------------------------------------------------------------
  // Takeover
  // ---------------------------------------------------------------------------------------------

  /** The revision is not the current one of the key and can no longer become it. */
  ghost predicate Gone(s: State, rev: nat) {
    rev <= s.cell.rev && !s.cell.Matches(rev)
  }

  lemma {:induction false} GoneForever(c: Config, r: Run, rev: nat, j: nat, k: nat)
    requires IsRun(c, r) && j <= k < |r.states| && Gone(r.states[j], rev)
    ensures Gone(r.states[k], rev)
  {
    if j < k {
      GoneForever(c, r, rev, j, k - 1);
      assert Next(c, r.states[k - 1], r.steps[k - 1], r.states[k - 1 + 1]);
    }
  }

  lemma {:induction false} CounterGrows(c: Config, r: Run, j: nat, k: nat)
    requires IsRun(c, r) && j <= k < |r.states|
    ensures r.states[j].cell.rev <= r.states[k].cell.rev
  {
    if j < k {
      CounterGrows(c, r, j, k - 1);
      assert Next(c, r.states[k - 1], r.steps[k - 1], r.states[k - 1 + 1]);
    }
  }

  /** Every takeover in a state goes back to the Get that started it. */
  lemma {:induction false} TakeoverOrigin(c: Config, r: Run, k: nat, t: nat) returns (g: nat)
    requires IsRun(c, r) && k < |r.states| && t < |r.states[k].takeovers|
    ensures g < k
    ensures var o := r.states[k].takeovers[t];
            r.steps[g] == TakeoverRead(o.inst, o.token) && r.states[g].cell.entry == Some(o.read)
  {
    assert k > 0;
    var s := r.states[k - 1];
    assert Next(c, s, r.steps[k - 1], r.states[k - 1 + 1]);
    if t < |s.takeovers| {
      g := TakeoverOrigin(c, r, k - 1, t);
    } else {
      g := k - 1;
    }
  }

  ghost predicate Spent(s: State, t: nat) {
    t < |s.takeovers| && !s.takeovers[t].pending
  }

  lemma SpentStep(c: Config, s: State, step: Step, t: nat)
    requires Enabled(c, s, step) && Spent(s, t)
    ensures Spent(Apply(c, s, step), t)
  {
  }

  /** The Update of a takeover is tried once, whether it succeeds or not. */
  lemma {:induction false} TakeoverTriedOnce(c: Config, r: Run, t: nat, j: nat, k: nat)
    requires IsRun(c, r) && j < k < |r.states| && r.steps[j] == TakeoverWrite(t)
    ensures Spent(r.states[k], t)
    ensures forall m :: j < m < k ==> r.steps[m] != TakeoverWrite(t)
  {
    var m := k - 1;
    assert Next(c, r.states[m], r.steps[m], r.states[m + 1]);
    if j < m {
      TakeoverTriedOnce(c, r, t, j, m);
      SpentStep(c, r.states[m], r.steps[m], t);
    }
  }

  /** Between two moments at which the key has the same revision, its entry never changed. */
  lemma SameRevisionSameEntry(c: Config, r: Run, g: nat, m: nat, k: nat, rev: nat)
    requires IsRun(c, r) && g <= m <= k < |r.states|
    requires r.states[g].cell.Matches(rev) && r.states[k].cell.Matches(rev)
    ensures r.states[m].cell.Matches(rev)
    ensures r.states[m].cell.entry == r.states[g].cell.entry
    decreases m - g
  {
    InvAlways(c, r, g);
    CounterGrows(c, r, g, m);
    if !r.states[m].cell.Matches(rev) {
      GoneForever(c, r, rev, m, k);
    }
    if g < m {
      SameRevisionSameEntry(c, r, g, m - 1, k, rev);
      InvAlways(c, r, m - 1);
      assert Next(c, r.states[m - 1], r.steps[m - 1], r.states[m - 1 + 1]);
    }
  }

  /**
   A takeover that succeeds replaces exactly the entry that its Get read: whatever happened in between,
   that entry was in the store all the time, and its priority is strictly lower.
   */
  lemma TakeoverSound(c: Config, r: Run, k: nat) returns (g: nat)
    requires IsRun(c, r) && k < |r.steps| && r.steps[k].TakeoverWrite? && Accepts(r, k)
    ensures g < k && r.steps[g].TakeoverRead? && r.steps[g].i < |c|
    ensures r.states[k + 1].cell.entry.Some?
    ensures r.states[k + 1].cell.entry.value.value == PayloadOf(c, r.steps[g].i, r.steps[g].token)
    ensures r.states[g].cell.entry.Some?
    ensures r.states[g].cell.entry.value.value.priority < c[r.steps[g].i].priority
    ensures forall m :: g <= m <= k ==> r.states[m].cell.entry == r.states[g].cell.entry
  {
    var t := r.steps[k].t;
    assert Next(c, r.states[k], r.steps[k], r.states[k + 1]);
    InvAlways(c, r, k);
    assert TakeoverOk(c, r.states[k], r.states[k].takeovers[t]);
    g := TakeoverOrigin(c, r, k, t);
    assert Next(c, r.states[g], r.steps[g], r.states[g + 1]);
    forall m | g <= m <= k
      ensures r.states[m].cell.entry == r.states[g].cell.entry
    {
      SameRevisionSameEntry(c, r, g, m, k, r.states[g].cell.entry.value.rev);
    }
  }
}
