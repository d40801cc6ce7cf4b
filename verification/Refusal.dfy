/**
 Hypothesis H-REFUSAL of module Protocol, examined under all its other hypotheses.  An acquisition that a
 watch event started (watcher.go:126-146) runs without looking at the leader flag.  If its takeover is
 refused, it stores the revision of the entry that refused it (kv_election.go:440-442) - also in an
 instance that still believes to be leader.  The next heartbeat of that instance then carries a revision
 that matches the entry of another instance, and overwrites it.

 "Every run" in this module means every run under H-STORE, H-ACQUIRE, H-TAKEOVER, H-HEARTBEAT, H-OBSERVE and
 H-TOKEN.  The last lemmas, and module Snapshot, show what happens without some of these.
 */
module Refusal {
  import opened Store
  import opened Protocol
  import opened Fencing

  ghost predicate CodeNext(c: Config, s: State, step: Step, s': State) {
    Possible(c, s, step) && s' == Apply(c, s, step)
  }

  /** A run without hypothesis H-REFUSAL. */
  ghost predicate IsCodeRun(c: Config, r: Run) {
    && |r.states| == |r.steps| + 1
    && r.states[0] == Init(c)
    && forall k :: 0 <= k < |r.steps| ==> CodeNext(c, r.states[k], r.steps[k], r.states[k + 1])
  }

  /** Member i may take over, and member j can refuse it. */
  ghost predicate Rivals(c: Config, i: nat, j: nat) {
    i < |c| && j < |c| && i != j && c[i].takeover && c[i].priority > 0 && c[i].priority <= c[j].priority
  }

  /** No member that may take over can be refused by another member. */
  ghost predicate Unrivalled(c: Config) {
    forall i, j :: !Rivals(c, i, j)
  }

  ghost predicate AlwaysFenced(c: Config) {
    forall r: Run :: IsCodeRun(c, r) ==> Fenced(r.states)
  }

  lemma UnrivalledStep(c: Config, s: State, step: Step)
    requires Unrivalled(c) && Inv(c, s) && Possible(c, s, step)
    ensures Enabled(c, s, step) && Inv(c, Apply(c, s, step))
  {
    if step.TakeoverRead? {
      assert EntryOk(c, s);
      assert !Rivals(c, step.i, s.cell.entry.value.value.id);
    }
    InvKept(c, s, step);
  }

  lemma {:induction false} UnrivalledInv(c: Config, r: Run, n: nat)
    requires Unrivalled(c) && IsCodeRun(c, r) && n < |r.states|
    ensures Inv(c, r.states[n])
  {
    if n == 0 {
      InitInv(c);
    } else {
      UnrivalledInv(c, r, n - 1);
      assert CodeNext(c, r.states[n - 1], r.steps[n - 1], r.states[n - 1 + 1]);
      UnrivalledStep(c, r.states[n - 1], r.steps[n - 1]);
    }
  }

  /** Without rivals no leader is ever refused, so H-REFUSAL holds by itself. */
  lemma UnrivalledRun(c: Config, r: Run)
    requires Unrivalled(c) && IsCodeRun(c, r)
    ensures IsRun(c, r)
  {
    forall k | 0 <= k < |r.steps|
      ensures Next(c, r.states[k], r.steps[k], r.states[k + 1])
    {
      assert CodeNext(c, r.states[k], r.steps[k], r.states[k + 1]);
      UnrivalledInv(c, r, k);
      UnrivalledStep(c, r.states[k], r.steps[k]);
    }
  }

  ghost function Last(r: Run): State
    requires r.states != []
  {
    r.states[|r.states| - 1]
  }

  lemma Extend(c: Config, r: Run, step: Step) returns (r': Run)
    requires IsCodeRun(c, r) && Possible(c, Last(r), step)
    ensures IsCodeRun(c, r') && r'.states == r.states + [Apply(c, Last(r), step)]
  {
    r' := Run(r.states + [Apply(c, Last(r), step)], r.steps + [step]);
    forall k | 0 <= k < |r'.steps|
      ensures CodeNext(c, r'.states[k], r'.steps[k], r'.states[k + 1])
    {
      if k < |r.steps| {
        assert CodeNext(c, r.states[k], r.steps[k], r.states[k + 1]);
      }
    }
  }

  /** Instance i believes to lead under token 1, but instance j owns the key under token 2 and revision 2. */
  ghost predicate Stale(c: Config, s: State, i: nat, j: nat) {
    && i < |c| && j < |c| && |s.insts| == |c|
    && s.insts[i].isLeader && s.insts[i].token == 1
    && s.cell == Cell(Some(Entry(PayloadOf(c, j, 2), 2)), 2)
    && s.beats == [] && s.drawn == {NO_TOKEN, 1, 2}
  }

  /**
   A way to a stale leader that the code can take: the first attempt of i fails, so that i becomes a
   follower and its watch loop starts; i acquires the key later; the key is removed and j acquires it.
   */
  lemma BecomeStale(c: Config, i: nat, j: nat) returns (r: Run)
    requires i < |c| && j < |c| && i != j
    ensures IsCodeRun(c, r) && |r.states| == 5 && Stale(c, r.states[4], i, j)
    ensures StoredToken(r.states[2]) == Some(1)
  {
    r := Run([Init(c)], []);
    r := Extend(c, r, Demote(i));
    r := Extend(c, r, Acquire(i, 1));
    r := Extend(c, r, Remove);
    r := Extend(c, r, Acquire(j, 2));
  }

  /**
   With a rival the fence breaks: i leads, its entry is removed, j acquires the key, i - still leader -
   tries to acquire because its watch loop saw the removal, and is refused, and the next heartbeat of i
   puts its old token back over that of j.
   */
  lemma RivalBreaksFence(c: Config, i: nat, j: nat) returns (r: Run)
    requires Rivals(c, i, j)
    ensures IsCodeRun(c, r) && |r.states| == 8 && !Fenced(r.states)
    ensures StoredToken(r.states[2]) == Some(1)
    ensures StoredToken(r.states[4]) == Some(2) && Owner(r.states[4]) == Some(j)
    ensures StoredToken(r.states[7]) == Some(1) && Owner(r.states[7]) == Some(i)
  {
    r := BecomeStale(c, i, j);
    r := Extend(c, r, TakeoverRead(i, 3));
    r := Extend(c, r, BeatSend(i));
    r := Extend(c, r, BeatApply(0));
    var (first, middle, last) := (r.states[2], r.states[4], r.states[7]);
    assert StoredToken(first) == Some(1) && StoredToken(middle) == Some(2) && StoredToken(last) == Some(1);
  }

  /** Every run is fenced exactly for the configurations without rivals. */
  lemma FencedIff(c: Config)
    ensures AlwaysFenced(c) <==> Unrivalled(c)
  {
    if Unrivalled(c) {
      forall r: Run | IsCodeRun(c, r)
        ensures Fenced(r.states)
      {
        UnrivalledRun(c, r);
        RunIsChain(c, r);
        ChainIsFenced(c, r.states);
      }
    } else {
      var i: nat, j: nat :| Rivals(c, i, j);
      var r := RivalBreaksFence(c, i, j);
    }
  }

  /** With takeover off for everybody there are no rivals, whatever the priorities. */
  lemma TakeoverOffIsFenced(c: Config)
    requires forall i :: 0 <= i < |c| ==> !c[i].takeover
    ensures AlwaysFenced(c)
  {
    FencedIff(c);
  }

  /**
   Hypothesis H-OBSERVE is needed: a check that found the instance not leading, and stores the revision that
   it read when the instance leads already, lets the next heartbeat put an old token back.  The run leads
   to a stale leader 0, whose check loop runs, beside the owner 1; the three steps after it are the race.
   */
  lemma LateObserveBreaksFence(c: Config) returns (r: Run)
    requires |c| >= 2
    ensures IsCodeRun(c, r) && |r.states| == 5 && Stale(c, r.states[4], 0, 1)
    ensures StoredToken(r.states[2]) == Some(1) && StoredToken(r.states[4]) == Some(2)
    ensures WellTyped(c, r.states[4], Observe(0, 1, 2))
    ensures var s := Apply(c, r.states[4], Observe(0, 1, 2));
            && Possible(c, s, BeatSend(0))
            && Possible(c, Apply(c, s, BeatSend(0)), BeatApply(0))
            && StoredToken(Apply(c, Apply(c, s, BeatSend(0)), BeatApply(0))) == Some(1)
  {
    r := BecomeStale(c, 0, 1);
  }

  /**
   Hypothesis H-ACQUIRE is needed as well.  Two acquisitions of instance 0 succeed one after the other, and
   the becomeLeader of the first one comes last, while a heartbeat of the second term is under way: the
   result of that heartbeat gives the first term the current revision, and its token returns.
   */
  lemma LateBecomeLeaderBreaksFence(c: Config) returns (r: Run)
    requires |c| >= 1
    ensures IsCodeRun(c, r) && |r.states| == 6 && r.states[1].insts != [] && r.states[5].insts != []
    ensures StoredToken(r.states[1]) == Some(1) && StoredToken(r.states[5]) == Some(2)
    ensures var first := r.states[1].insts[0];
            var late := r.states[5].insts[0].Lead(0, first.token, first.revision);
            var s := r.states[5].(insts := r.states[5].insts[0 := late]);
            && Possible(c, s, BeatResult(0))
            && Possible(c, Apply(c, s, BeatResult(0)), BeatSend(0))
            && var s' := Apply(c, Apply(c, s, BeatResult(0)), BeatSend(0));
               && Possible(c, s', BeatApply(1))
               && StoredToken(Apply(c, s', BeatApply(1))) == Some(1)
  {
    r := Run([Init(c)], []);
    r := Extend(c, r, Acquire(0, 1));
    r := Extend(c, r, Remove);
    r := Extend(c, r, Acquire(0, 2));
    r := Extend(c, r, BeatSend(0));
    r := Extend(c, r, BeatApply(0));
  }
}
