/**
 The locked sections of one instance - Start, failed or not, becomeLeader, becomeFollower, Stop - and the end of its
 watch loop, in any order.  Metrics are on.  Module Election implements these sections.
 */
module Lifecycle {
  import opened Store

  datatype Phase = Init | Candidate | Leader | Follower | Stopped

  datatype Context = NoContext | LiveContext | EndedContext

  /**
   `transitions`, `durations` and `gauge` are what the metrics recorded, `watchers` is the number of live
   watch-loop goroutines.  History variables: `promotions` counts the changes of isLeader from false to
   true, and `mark` is the number of transitions recorded before the last Start.
   */
  datatype Life = Life(phase: Phase, isLeader: bool, leaderStart: Option<int>, ctx: Context,
                       transitions: seq<(Phase, Phase)>, durations: seq<int>, gauge: bool,
                       watcherRunning: bool, watchers: nat, promotions: nat, mark: nat)

  datatype Event =
    | Start
    | FailStart
    | Lead(now: int)
    | Follow(now: int)
    | Stop(now: int)
    | ForgetContext
    | CancelContext
    | WatchLoopEnds

  function Fresh(): Life {
    Life(Init, false, None, NoContext, [], [], false, false, 0, 0, 0)
  }

  /** The observed durations after leadership ends now: one more, if a start time is set. */
  function Observed(l: Life, now: int): seq<int> {
    if l.leaderStart.Some? then l.durations + [now - l.leaderStart.value] else l.durations
  }

  function Ended(l: Life, now: int): Life {
    if l.isLeader then l.(durations := Observed(l, now), leaderStart := None) else l
  }

  function Enter(l: Life, isLeader: bool, phase: Phase): Life {
    l.(isLeader := isLeader, phase := phase, transitions := l.transitions + [(l.phase, phase)], gauge := isLeader)
  }

  function Apply(l: Life, e: Event): Life {
    match e
    case Start =>
      if l.ctx.LiveContext? then l // ErrAlreadyStarted
      else l.(ctx := LiveContext, phase := Candidate, mark := |l.transitions|)
    case FailStart => // the connection monitor does not start
      if l.ctx.LiveContext? then l else l.(ctx := EndedContext)
    case Lead(now) =>
      Enter(l, true, Leader).(leaderStart := Some(now), promotions := l.promotions + if l.isLeader then 0 else 1)
    case Follow(now) =>
      var l1 := Enter(Ended(l, now), false, Follower);
      if l.ctx.NoContext? || l.watcherRunning then l1
      else l1.(watcherRunning := true, watchers := l.watchers + 1)
    case Stop(now) =>
      if l.ctx.NoContext? then l // ErrAlreadyStopped
      else Enter(Ended(l, now), false, Stopped).(ctx := EndedContext, watcherRunning := false)
    case ForgetContext => l.(ctx := NoContext)
    case CancelContext => if l.ctx.LiveContext? then l.(ctx := EndedContext) else l
    case WatchLoopEnds =>
      if l.watchers == 0 then l else l.(watchers := l.watchers - 1, watcherRunning := false)
  }

  ghost function At(es: seq<Event>, n: nat): Life
    requires n <= |es|
  {
    if n == 0 then Fresh() else Apply(At(es, n - 1), es[n - 1])
  }

  // ---------------------------------------------------------------------------------------------
  // Terms
  // ---------------------------------------------------------------------------------------------

  ghost predicate TermsCounted(l: Life) {
    && l.promotions == |l.durations| + (if l.isLeader then 1 else 0)
    && l.isLeader == l.leaderStart.Some?
    && l.gauge == l.isLeader
    && (l.phase == Leader ==> l.isLeader)
  }

  lemma TermsStep(l: Life, e: Event)
    requires TermsCounted(l)
    ensures TermsCounted(Apply(l, e))
  {
  }

  /** Under every interleaving, each term that began was recorded once, except the one that still lasts. */
  lemma {:induction false} TermsAreCounted(es: seq<Event>, n: nat)
    requires n <= |es|
    ensures TermsCounted(At(es, n))
  {
    if n > 0 {
      TermsAreCounted(es, n - 1);
      TermsStep(At(es, n - 1), es[n - 1]);
      assert At(es, n) == Apply(At(es, n - 1), es[n - 1]);
    }
  }

  lemma LeadingStep(l: Life, e: Event)
    requires Apply(l, e).isLeader && !e.Lead?
    ensures l.isLeader && Apply(l, e).leaderStart == l.leaderStart
  {
  }

  lemma EndingStep(l: Life, e: Event)
    requires l.isLeader && l.leaderStart.Some? && !Apply(l, e).isLeader
    ensures (e.Follow? || e.Stop?) && Apply(l, e).durations == l.durations + [e.now - l.leaderStart.value]
  {
  }

  lemma {:induction false} TermBegan(es: seq<Event>, n: nat) returns (j: nat)
    requires n <= |es| && At(es, n).isLeader
    ensures j < n && es[j].Lead? && At(es, n).leaderStart == Some(es[j].now)
    ensures forall m :: j < m < n ==> !es[m].Lead?
    ensures forall m :: j < m <= n ==> At(es, m).isLeader
  {
    if es[n - 1].Lead? {
      j := n - 1;
    } else {
      LeadingStep(At(es, n - 1), es[n - 1]);
      j := TermBegan(es, n - 1);
    }
  }

  /**
   The duration recorded when leadership ends, in step n, is the time since the last becomeLeader, in step j, and
   the instance led all the time in between.
   */
  lemma TermIsMeasured(es: seq<Event>, n: nat) returns (j: nat)
    requires n < |es| && At(es, n).isLeader && !At(es, n + 1).isLeader
    ensures j < n && es[j].Lead? && (es[n].Follow? || es[n].Stop?)
    ensures forall m :: j < m < n ==> !es[m].Lead?
    ensures forall m :: j < m <= n ==> At(es, m).isLeader
    ensures At(es, n + 1).durations == At(es, n).durations + [es[n].now - es[j].now]
  {
    j := TermBegan(es, n);
    EndingStep(At(es, n), es[n]);
  }

  /** Nothing is recorded by any other step. */
  lemma OnlyTermsAreMeasured(es: seq<Event>, n: nat)
    requires n < |es| && !(At(es, n).isLeader && !At(es, n + 1).isLeader)
    ensures At(es, n + 1).durations == At(es, n).durations
  {
  }

  // ---------------------------------------------------------------------------------------------
  // Contexts
  // ---------------------------------------------------------------------------------------------

  ghost predicate EndsContext(e: Event) {
    e.Stop? || e.CancelContext? || e.ForgetContext?
  }

  ghost predicate MakesContext(e: Event) {
    e.Start? || e.FailStart?
  }

  /** Step j is a Start, and nothing ended its context until n. */
  ghost predicate StartedAt(es: seq<Event>, j: nat, n: nat)
    requires n <= |es|
  {
    j < n && es[j].Start? && forall m :: j < m < n ==> !EndsContext(es[m])
  }

  /** Step j made a context, and it was not forgotten until n. */
  ghost predicate ContextFrom(es: seq<Event>, j: nat, n: nat)
    requires n <= |es|
  {
    j < n && MakesContext(es[j]) && forall m :: j < m < n ==> !es[m].ForgetContext?
  }

  lemma ContextStep(l: Life, e: Event)
    ensures var ctx := Apply(l, e).ctx;
            && (ctx.LiveContext? <==> e.Start? || (l.ctx.LiveContext? && !EndsContext(e)))
            && (ctx.NoContext? <==> e.ForgetContext? || (l.ctx.NoContext? && !MakesContext(e)))
  {
  }

  /**
   There is a live context exactly if some Start was not followed by a Stop, a cancellation or the end of
   StopWithContext, and none at all exactly if every Start was followed by the end of StopWithContext.
   */
  lemma {:induction false} ContextIff(es: seq<Event>, n: nat)
    requires n <= |es|
    ensures At(es, n).ctx.LiveContext? <==> exists j: nat :: StartedAt(es, j, n)
    ensures At(es, n).ctx.NoContext? <==> !exists j: nat :: ContextFrom(es, j, n)
  {
    if n > 0 {
      ContextIff(es, n - 1);
      forall j: nat
        ensures StartedAt(es, j, n) <==>
                  (StartedAt(es, j, n - 1) && !EndsContext(es[n - 1])) || (j == n - 1 && es[j].Start?)
        ensures ContextFrom(es, j, n) <==>
                  (ContextFrom(es, j, n - 1) && !es[n - 1].ForgetContext?) || (j == n - 1 && MakesContext(es[j]))
      {
      }
      assert StartedAt(es, n - 1, n) <==> es[n - 1].Start?;
      assert ContextFrom(es, n - 1, n) <==> MakesContext(es[n - 1]);
      ContextStep(At(es, n - 1), es[n - 1]);
    }
  }

  /** After StopWithContext and before the next Start, whatever else happens, a Stop is refused and changes nothing. */
  lemma StopNeedsStart(es: seq<Event>, k: nat, n: nat)
    requires k < n < |es| && es[k].ForgetContext? && es[n].Stop?
    requires forall m :: k < m < n ==> !MakesContext(es[m])
    ensures At(es, n + 1) == At(es, n)
  {
    ContextIff(es, n);
    assert forall j: nat :: !ContextFrom(es, j, n);
  }

  // ---------------------------------------------------------------------------------------------
  // Transitions
  // ---------------------------------------------------------------------------------------------

  /** The pairs are linked, the first one starts at `from` and the last one ends at `to`. */
  ghost predicate Path(ts: seq<(Phase, Phase)>, from: Phase, to: Phase)
  {
    if ts == [] then from == to
    else ts[|ts| - 1].1 == to && Path(ts[..|ts| - 1], from, ts[|ts| - 1].0)
  }

  ghost predicate Started(es: seq<Event>, n: nat)
    requires n <= |es|
  {
    exists k :: 0 <= k < n && es[k] == Start
  }

  ghost predicate Connected(l: Life, from: Phase) {
    l.mark <= |l.transitions| && Path(l.transitions[l.mark..], from, l.phase)
  }

  lemma EnterConnects(l: Life, from: Phase, isLeader: bool, phase: Phase)
    requires Connected(l, from)
    ensures Connected(Enter(l, isLeader, phase), from)
  {
    var ts := Enter(l, isLeader, phase).transitions[l.mark..];
    assert ts[..|ts| - 1] == l.transitions[l.mark..];
  }

  lemma ConnectedStep(l: Life, e: Event, from: Phase)
    requires Connected(l, from) && (l.ctx.LiveContext? ==> from == Candidate)
    ensures Connected(Apply(l, e), if e.Start? then Candidate else from)
  {
    match e
    case Lead(_) => EnterConnects(l, from, true, Leader);
    case Follow(now) => EnterConnects(Ended(l, now), from, false, Follower);
    case Stop(now) => EnterConnects(Ended(l, now), from, false, Stopped);
    case _ =>
  }

  /** The transitions recorded since the last Start form a connected path from CANDIDATE to the current state. */
  lemma {:induction false} TransitionsConnect(es: seq<Event>, n: nat)
    requires n <= |es|
    ensures Connected(At(es, n), if Started(es, n) then Candidate else Init)
  {
    if n > 0 {
      TransitionsConnect(es, n - 1);
      ContextIff(es, n - 1);
      assert forall j: nat :: StartedAt(es, j, n - 1) ==> es[j] == Start;
      assert Started(es, n) <==> Started(es, n - 1) || es[n - 1] == Start;
      ConnectedStep(At(es, n - 1), es[n - 1], if Started(es, n - 1) then Candidate else Init);
    }
  }

  /** A Start that takes effect while a late acquisition has already made the instance leader. */
  ghost predicate StartsWhileLeading(es: seq<Event>, k: nat)
    requires k < |es|
  {
    es[k] == Start && At(es, k).isLeader && !At(es, k).ctx.LiveContext?
  }

  ghost predicate PhaseTellsLeader(es: seq<Event>, n: nat)
    requires n <= |es|
  {
    At(es, n).phase == Leader <==> At(es, n).isLeader
  }

  lemma {:induction false} PhaseTellsLeaderUntil(es: seq<Event>, n: nat)
    requires n <= |es| && forall k :: 0 <= k < n ==> !StartsWhileLeading(es, k)
    ensures PhaseTellsLeader(es, n)
  {
    if n > 0 {
      PhaseTellsLeaderUntil(es, n - 1);
      assert !StartsWhileLeading(es, n - 1);
    }
  }

  /** State LEADER and isLeader agree all along a run exactly if it has no Start while leading. */
  lemma PhaseTellsLeaderIff(es: seq<Event>)
    ensures (forall n :: 0 <= n <= |es| ==> PhaseTellsLeader(es, n))
       <==> (forall k :: 0 <= k < |es| ==> !StartsWhileLeading(es, k))
  {
    if k :| 0 <= k < |es| && StartsWhileLeading(es, k) {
      TermsAreCounted(es, k);
      assert !PhaseTellsLeader(es, k + 1);
    } else {
      forall n | 0 <= n <= |es|
        ensures PhaseTellsLeader(es, n)
      {
        PhaseTellsLeaderUntil(es, n);
      }
    }
  }

  /** Such a run exists: an acquisition that comes after Stop, and a second Start. */
  lemma StartWhileLeadingHappens()
    ensures var es := [Start, Stop(1), Lead(2), Start];
            !PhaseTellsLeader(es, 4) && At(es, 4).phase == Candidate && At(es, 4).isLeader
  {
    var es := [Start, Stop(1), Lead(2), Start];
    assert At(es, 1) == Apply(At(es, 0), es[0]) && At(es, 2) == Apply(At(es, 1), es[1]);
    assert At(es, 3) == Apply(At(es, 2), es[2]) && At(es, 4) == Apply(At(es, 3), es[3]);
  }

  // ---------------------------------------------------------------------------------------------
  // Watchers
  // ---------------------------------------------------------------------------------------------

  ghost predicate FlagCountsWatchers(es: seq<Event>, n: nat)
    requires n <= |es|
  {
    At(es, n).watchers == if At(es, n).watcherRunning then 1 else 0
  }

  /** A Stop that takes effect while a watch loop is still alive. */
  ghost predicate StopsWhileWatching(es: seq<Event>, k: nat)
    requires k < |es|
  {
    es[k].Stop? && At(es, k).watchers > 0 && !At(es, k).ctx.NoContext?
  }

  lemma {:induction false} SingleWatcherUntil(es: seq<Event>, n: nat)
    requires n <= |es| && forall k :: 0 <= k < n ==> !StopsWhileWatching(es, k)
    ensures FlagCountsWatchers(es, n)
  {
    if n > 0 {
      SingleWatcherUntil(es, n - 1);
      assert !StopsWhileWatching(es, n - 1);
    }
  }

  /**
   There is one watch loop if watcherRunning and none otherwise, from however many places becomeFollower
   is called - all along a run exactly if no Stop comes while a watch loop is alive.
   */
  lemma SingleWatcherIff(es: seq<Event>)
    ensures (forall n :: 0 <= n <= |es| ==> FlagCountsWatchers(es, n))
       <==> (forall k :: 0 <= k < |es| ==> !StopsWhileWatching(es, k))
  {
    if k :| 0 <= k < |es| && StopsWhileWatching(es, k) {
      assert !FlagCountsWatchers(es, k + 1);
    } else {
      forall n | 0 <= n <= |es|
        ensures FlagCountsWatchers(es, n)
      {
        SingleWatcherUntil(es, n);
      }
    }
  }

  lemma RunningStep(l: Life, e: Event)
    requires l.watcherRunning ==> l.watchers > 0
    ensures Apply(l, e).watcherRunning ==> Apply(l, e).watchers > 0
  {
  }

  lemma {:induction false} RunningMeansAlive(es: seq<Event>, n: nat)
    requires n <= |es|
    ensures At(es, n).watcherRunning ==> At(es, n).watchers > 0
  {
    if n > 0 {
      RunningMeansAlive(es, n - 1);
      RunningStep(At(es, n - 1), es[n - 1]);
    }
  }

  /** An instance that becomes follower is watching the key if it has a context, and starts nothing without one. */
  lemma FollowerWatches(es: seq<Event>, n: nat)
    requires n < |es| && es[n].Follow?
    ensures !At(es, n).ctx.NoContext? ==> At(es, n + 1).watchers > 0 && At(es, n + 1).watcherRunning
    ensures At(es, n).ctx.NoContext? ==> At(es, n + 1).watchers == At(es, n).watchers
  {
    RunningMeansAlive(es, n);
  }

  /** After a Stop, a late becomeFollower starts a second loop beside the first. */
  lemma TwoWatchersAfterStop()
    ensures At([Start, Follow(1), Stop(2), Follow(3)], 4).watchers == 2
  {
    var es := [Start, Follow(1), Stop(2), Follow(3)];
    assert At(es, 1) == Apply(At(es, 0), es[0]) && At(es, 2) == Apply(At(es, 1), es[1]);
    assert At(es, 3) == Apply(At(es, 2), es[2]) && At(es, 4) == Apply(At(es, 3), es[3]);
  }
}
