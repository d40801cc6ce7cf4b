/**
 Priorities over a stretch of a run in which the key is not removed: the stored priority never falls,
 every takeover raises it, and therefore only finitely many takeovers fit into the stretch.
 */
module Priority {
  import opened Store
  import opened Protocol
  import Fencing

  ghost predicate NoRemoval(r: Run, a: nat, b: nat)
    requires b <= |r.steps|
  {
    forall k :: a <= k < b ==> !r.steps[k].Remove?
  }

  ghost predicate TookOver(r: Run, k: nat)
    requires k < |r.steps| < |r.states|
  {
    r.steps[k].TakeoverWrite? && Fencing.Accepts(r, k)
  }

  /** The number of successful takeovers among the steps a, ..., b - 1. */
  ghost function Takeovers(r: Run, a: nat, b: nat): nat
    requires a <= b <= |r.steps| < |r.states|
  {
    if a == b then 0 else Takeovers(r, a, b - 1) + if TookOver(r, b - 1) then 1 else 0
  }

  ghost function Priorities(c: Config): set<int> {
    set i | 0 <= i < |c| :: c[i].priority
  }

  ghost function Above(c: Config, p: int): set<int> {
    set q | q in Priorities(c) && p < q
  }

  function Stored(s: State): int
    requires s.cell.entry.Some?
  {
    s.cell.entry.value.value.priority
  }

  /** One step without removal: the key stays, its priority does not fall, and a takeover raises it. */
  lemma PriorityStep(c: Config, r: Run, k: nat)
    requires IsRun(c, r) && k < |r.steps| && !r.steps[k].Remove?
    ensures r.states[k].cell.entry.Some? ==>
              && r.states[k + 1].cell.entry.Some?
              && Stored(r.states[k]) <= Stored(r.states[k + 1])
              && (TookOver(r, k) ==> Stored(r.states[k]) < Stored(r.states[k + 1]))
    ensures r.states[k].cell.entry.None? ==> !TookOver(r, k)
    ensures r.states[k + 1].cell.entry.Some? ==> Stored(r.states[k + 1]) in Priorities(c)
  {
    InvAlways(c, r, k);
    InvAlways(c, r, k + 1);
    assert Next(c, r.states[k], r.steps[k], r.states[k + 1]);
    if r.steps[k].TakeoverWrite? {
      assert TakeoverOk(c, r.states[k], r.states[k].takeovers[r.steps[k].t]);
    }
    if Fencing.BeatApplied(r, k) {
      Fencing.BeatKeepsPayload(c, r, k);
    }
  }

  lemma AboveShrinks(c: Config, p: int, q: int)
    requires p <= q
    ensures |Above(c, q)| <= |Above(c, p)|
    ensures p < q && q in Priorities(c) ==> |Above(c, q)| < |Above(c, p)|
  {
    var rest := Above(c, p) - Above(c, q);
    assert Above(c, p) == Above(c, q) + rest;
    if p < q && q in Priorities(c) {
      assert q in rest;
    }
  }

  /** The stored priority never falls, and each takeover uses up a priority above the first one. */
  lemma {:induction false} PriorityMonotone(c: Config, r: Run, a: nat, b: nat)
    requires IsRun(c, r) && a <= b <= |r.steps| && NoRemoval(r, a, b)
    requires r.states[a].cell.entry.Some?
    ensures r.states[b].cell.entry.Some? && Stored(r.states[a]) <= Stored(r.states[b])
    ensures Takeovers(r, a, b) + |Above(c, Stored(r.states[b]))| <= |Above(c, Stored(r.states[a]))|
  {
    if a < b {
      PriorityMonotone(c, r, a, b - 1);
      PriorityStep(c, r, b - 1);
      AboveShrinks(c, Stored(r.states[b - 1]), Stored(r.states[b - 1 + 1]));
    }
  }

  lemma {:induction false} NoTakeoverOfAbsent(c: Config, r: Run, a: nat, b: nat)
    requires IsRun(c, r) && a <= b <= |r.steps| && NoRemoval(r, a, b) && r.states[a].cell.entry.None?
    ensures Takeovers(r, a, b) < |Priorities(c)| || Takeovers(r, a, b) == 0
    ensures r.states[b].cell.entry.Some? ==>
              && Stored(r.states[b]) in Priorities(c)
              && Takeovers(r, a, b) + |Above(c, Stored(r.states[b]))| < |Priorities(c)|
    ensures r.states[b].cell.entry.None? ==> Takeovers(r, a, b) == 0
  {
    if a < b {
      NoTakeoverOfAbsent(c, r, a, b - 1);
      PriorityStep(c, r, b - 1);
      if r.states[b].cell.entry.Some? {
        var q := Stored(r.states[b]);
        if r.states[b - 1].cell.entry.Some? {
          AboveShrinks(c, Stored(r.states[b - 1]), q);
        } else {
          BelowAll(c, q);
        }
      }
    }
  }

  lemma BelowAll(c: Config, p: int)
    requires p in Priorities(c)
    ensures |Above(c, p)| < |Priorities(c)|
  {
    assert Priorities(c) == Above(c, p) + (Priorities(c) - Above(c, p));
    assert p in Priorities(c) - Above(c, p);
  }

  /** In any stretch without removal there are fewer takeovers than distinct configured priorities. */
  lemma TakeoversBounded(c: Config, r: Run, a: nat, b: nat)
    requires IsRun(c, r) && a <= b <= |r.steps| && NoRemoval(r, a, b) && c != []
    ensures Takeovers(r, a, b) < |Priorities(c)|
  {
    if r.states[a].cell.entry.Some? {
      InvAlways(c, r, a);
      PriorityMonotone(c, r, a, b);
      BelowAll(c, Stored(r.states[a]));
    } else {
      NoTakeoverOfAbsent(c, r, a, b);
      assert c[0].priority in Priorities(c);
    }
  }
}
