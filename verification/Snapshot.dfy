/**
 Hypothesis H-HEARTBEAT of module Protocol, examined.  The code takes the snapshot of a heartbeat in three
 loads: the leader flag (heartbeat.go:30), then - after a health check of up to 100 ms - the revision
 (heartbeat.go:62), then the token (heartbeat.go:64).  This module splits the snapshot accordingly, drops
 H-REFUSAL as well, keeps the other hypotheses, and proves for which groups the fence then still holds.
 */
module Snapshot {
  import opened Store
  import opened Protocol
  import opened Fencing

  /** A snapshot that is being taken. */
  datatype Snap = Checked(inst: nat) | Loaded(inst: nat, rev: nat) | Sent

  datatype Fine = Fine(s: State, snaps: seq<Snap>)

  datatype FineStep = Coarse(step: Step) | CheckLeader(i: nat) | LoadRevision(n: nat) | LoadToken(n: nat)

  predicate FinePossible(c: Config, f: Fine, step: FineStep) {
    && |f.s.insts| == |c|
    && (match step
        case Coarse(st) =>
          && !st.BeatSend? && Possible(c, f.s, st)
          && (st.Observe? ==> st.rev <= f.s.cell.rev) // the handlers store revisions that the store has issued
        case CheckLeader(i) => i < |c| && f.s.insts[i].isLeader
        case LoadRevision(n) => n < |f.snaps| && f.snaps[n].Checked? && f.snaps[n].inst < |c|
        case LoadToken(n) => n < |f.snaps| && f.snaps[n].Loaded? && f.snaps[n].inst < |c|)
  }

  function FineApply(c: Config, f: Fine, step: FineStep): Fine
    requires FinePossible(c, f, step)
  {
    match step
    case Coarse(st) => f.(s := Apply(c, f.s, st))
    case CheckLeader(i) => f.(snaps := f.snaps + [Checked(i)])
    case LoadRevision(n) =>
      var i := f.snaps[n].inst;
      f.(snaps := f.snaps[n := Loaded(i, f.s.insts[i].revision)])
    case LoadToken(n) =>
      var Loaded(i, rev) := f.snaps[n];
      var beat := Heartbeat(i, rev, f.s.insts[i].token, InFlight, true);
      Fine(f.s.(beats := f.s.beats + [beat]), f.snaps[n := Sent])
  }

  ghost predicate FineNext(c: Config, f: Fine, step: FineStep, f': Fine) {
    FinePossible(c, f, step) && f' == FineApply(c, f, step)
  }

  ghost predicate IsFineRun(c: Config, fs: seq<Fine>, steps: seq<FineStep>) {
    && |fs| == |steps| + 1
    && fs[0] == Fine(Init(c), [])
    && forall k :: 0 <= k < |steps| ==> FineNext(c, fs[k], steps[k], fs[k + 1])
  }

  ghost function States(fs: seq<Fine>): seq<State> {
    seq(|fs|, k requires 0 <= k < |fs| => fs[k].s)
  }

  ghost predicate AlwaysFenced(c: Config) {
    forall fs: seq<Fine>, steps: seq<FineStep> :: IsFineRun(c, fs, steps) ==> Fenced(States(fs))
  }

  /** A snapshot may begin exactly when an atomic one is possible, and that one is three of these steps in a row. */
  lemma AtomicSnapshotIsFine(c: Config, f: Fine, i: nat)
    ensures FinePossible(c, f, CheckLeader(i)) <==> Possible(c, f.s, BeatSend(i))
    ensures Possible(c, f.s, BeatSend(i)) ==>
            var n := |f.snaps|;
            var f1 := FineApply(c, f, CheckLeader(i));
            && FinePossible(c, f1, LoadRevision(n))
            && var f2 := FineApply(c, f1, LoadRevision(n));
               FinePossible(c, f2, LoadToken(n)) && FineApply(c, f2, LoadToken(n)).s == Apply(c, f.s, BeatSend(i))
  {
  }

  // ---------------------------------------------------------------------------------------------
  // One member
  // ---------------------------------------------------------------------------------------------

  ghost predicate SnapOk(c: Config, s: State, snap: Snap) {
    match snap
    case Checked(i) => i < |c|
    case Loaded(i, rev) => i < |c| && rev <= s.cell.rev
    case Sent => true
  }

  ghost predicate FineInv(c: Config, f: Fine) {
    && Inv(c, f.s)
    && (forall i :: 0 <= i < |c| ==> f.s.insts[i].revision <= f.s.cell.rev)
    && (forall n :: 0 <= n < |f.snaps| ==> SnapOk(c, f.s, f.snaps[n]))
  }

  /** A revision that a lone member reads is its own, so any mix of loads is consistent. */
  lemma LoneStep(c: Config, f: Fine, step: FineStep)
    requires |c| <= 1 && FineInv(c, f) && FinePossible(c, f, step)
    ensures FineInv(c, FineApply(c, f, step)) && Evolves(f.s, FineApply(c, f, step).s)
  {
    match step
    case Coarse(st) =>
      InvKept(c, f.s, st);
      StepEvolves(c, f.s, st);
      if st.BeatResult? {
        assert BeatOk(c, f.s, f.s.beats[st.h]);
      }
    case LoadToken(n) =>
      assert SnapOk(c, f.s, f.snaps[n]);
    case _ =>
  }

  lemma {:induction false} LoneInv(c: Config, fs: seq<Fine>, steps: seq<FineStep>, k: nat)
    requires |c| <= 1 && IsFineRun(c, fs, steps) && k < |fs|
    ensures FineInv(c, fs[k])
  {
    if k == 0 {
      InitInv(c);
    } else {
      LoneInv(c, fs, steps, k - 1);
      assert FineNext(c, fs[k - 1], steps[k - 1], fs[k - 1 + 1]);
      LoneStep(c, fs[k - 1], steps[k - 1]);
    }
  }

  lemma LoneIsFenced(c: Config, fs: seq<Fine>, steps: seq<FineStep>)
    requires |c| <= 1 && IsFineRun(c, fs, steps)
    ensures Fenced(States(fs))
  {
    var ss := States(fs);
    forall k | 0 <= k < |ss|
      ensures Inv(c, ss[k])
    {
      LoneInv(c, fs, steps, k);
    }
    forall k | 0 <= k < |ss| - 1
      ensures Evolves(ss[k], ss[k + 1])
    {
      LoneInv(c, fs, steps, k);
      assert FineNext(c, fs[k], steps[k], fs[k + 1]);
      LoneStep(c, fs[k], steps[k]);
    }
    ChainIsFenced(c, ss);
  }

  // ---------------------------------------------------------------------------------------------
  // Two members
  // ---------------------------------------------------------------------------------------------

  lemma Extend(c: Config, fs: seq<Fine>, steps: seq<FineStep>, step: FineStep)
    returns (fs': seq<Fine>, steps': seq<FineStep>)
    requires IsFineRun(c, fs, steps) && FinePossible(c, fs[|fs| - 1], step)
    ensures IsFineRun(c, fs', steps') && fs' == fs + [FineApply(c, fs[|fs| - 1], step)]
  {
    fs', steps' := fs + [FineApply(c, fs[|fs| - 1], step)], steps + [step];
    forall k | 0 <= k < |steps'|
      ensures FineNext(c, fs'[k], steps'[k], fs'[k + 1])
    {
      if k < |steps| {
        assert FineNext(c, fs[k], steps[k], fs[k + 1]);
      }
    }
  }

  /** Member 0 has looked at its leader flag; then it lost the key to member 1. */
  ghost predicate MidSnapshot(c: Config, f: Fine) {
    && |f.s.insts| == |c| >= 2
    && f.s.insts[0].token == 1
    && f.s.cell == Cell(Some(Entry(PayloadOf(c, 1, 2), 2)), 2)
    && f.s.beats == []
    && f.snaps == [Checked(0)]
  }

  lemma LoseMidSnapshot(c: Config) returns (fs: seq<Fine>, steps: seq<FineStep>)
    requires |c| >= 2
    ensures IsFineRun(c, fs, steps) && |fs| == 6 && MidSnapshot(c, fs[5]) && StoredToken(fs[2].s) == Some(1)
  {
    fs, steps := [Fine(Init(c), [])], [];
    fs, steps := Extend(c, fs, steps, Coarse(Demote(0)));
    fs, steps := Extend(c, fs, steps, Coarse(Acquire(0, 1)));
    fs, steps := Extend(c, fs, steps, CheckLeader(0));
    fs, steps := Extend(c, fs, steps, Coarse(Remove));
    fs, steps := Extend(c, fs, steps, Coarse(Acquire(1, 2)));
  }

  /**
   A snapshot that is not atomic breaks the fence, with takeover on or off: between the look at the leader
   flag and the load of the revision, member 0 loses the key to member 1, is demoted, and its periodic check
   stores the revision of member 1.  The heartbeat combines that revision with the old token.
   */
  lemma LateSnapshotBreaksFence(c: Config) returns (fs: seq<Fine>, steps: seq<FineStep>)
    requires |c| >= 2
    ensures IsFineRun(c, fs, steps) && |fs| == 11 && !Fenced(States(fs))
    ensures StoredToken(fs[2].s) == Some(1)
    ensures StoredToken(fs[5].s) == Some(2) && Owner(fs[5].s) == Some(1)
    ensures StoredToken(fs[10].s) == Some(1) && Owner(fs[10].s) == Some(0)
  {
    fs, steps := LoseMidSnapshot(c);
    fs, steps := Extend(c, fs, steps, Coarse(Demote(0)));
    fs, steps := Extend(c, fs, steps, Coarse(Observe(0, 1, 2)));
    fs, steps := Extend(c, fs, steps, LoadRevision(0));
    fs, steps := Extend(c, fs, steps, LoadToken(0));
    fs, steps := Extend(c, fs, steps, Coarse(BeatApply(0)));
    var ss := States(fs);
    assert StoredToken(ss[2]) == Some(1) && StoredToken(ss[5]) == Some(2) && StoredToken(ss[10]) == Some(1);
  }

  /** With the three loads of the code, every run is fenced exactly for groups of at most one member. */
  lemma FencedIff(c: Config)
    ensures AlwaysFenced(c) <==> |c| <= 1
  {
    if |c| <= 1 {
      forall fs: seq<Fine>, steps: seq<FineStep> | IsFineRun(c, fs, steps)
        ensures Fenced(States(fs))
      {
        LoneIsFenced(c, fs, steps);
      }
    } else {
      var fs, steps := LateSnapshotBreaksFence(c);
    }
  }
}
