/**
 One election instance: its fields, its locked sections, its acquisition, its handlers and its two
 leader loops.  Every method is proved against the functions of the other modules, so what those
 modules prove about all interleavings is about these methods.

 Within one method nothing else touches the instance or the store; the interleavings are the business
 of modules Protocol and Lifecycle.
 */
module Election {
  import opened Store
  import opened Protocol
  import opened Errors
  import L = Lifecycle
  import H = Heartbeat
  import V = Validation
  import opened Backoff

  datatype Acquired = Won | Lost(err: Error)

  datatype StartResult = Started | AlreadyStarted | MonitorFailed

  /** How a wait ended. */
  datatype Wait = Finished | TimedOut | Interrupted

  datatype StopResult = StoppedWell | AlreadyStopped | ShutdownTimeout | ShutdownInterrupted
                      | CallbackTimeout | CallbackInterrupted

  /** What one attempt to acquire the key comes to, whatever the other instances do around it. */
  datatype Attempt = Gains(token: nat, rev: nat) | Refused(id: nat, rev: nat) | Fails

  datatype RetryEnd = Succeeded | GaveUp | Cancelled

  /** The instance after the first n attempts. */
  ghost function AfterAttempts(x: Inst, id: nat, attempts: seq<Attempt>, n: nat): Inst
    requires n <= |attempts|
  {
    if n == 0 then x else
      var before := AfterAttempts(x, id, attempts, n - 1);
      match attempts[n - 1]
      case Gains(token, rev) => before.Lead(id, token, rev)
      case Refused(other, rev) => before.Observe(other, rev)
      case Fails => before
  }

  /** Of the first n attempts, attempt j is the last one that did not merely fail. */
  ghost predicate LastAnswered(attempts: seq<Attempt>, j: nat, n: nat)
    requires n <= |attempts|
  {
    j < n && !attempts[j].Fails? && forall m :: j < m < n ==> attempts[m].Fails?
  }

  /** Without a gain the flag and the token stay, and if all attempts merely fail so does everything. */
  lemma {:induction false} WithoutGain(x: Inst, id: nat, attempts: seq<Attempt>, n: nat)
    requires n <= |attempts| && forall k :: 0 <= k < n ==> !attempts[k].Gains?
    ensures var x' := AfterAttempts(x, id, attempts, n); x'.isLeader == x.isLeader && x'.token == x.token
    ensures (forall k :: 0 <= k < n ==> attempts[k].Fails?) ==> AfterAttempts(x, id, attempts, n) == x
  {
    if n > 0 {
      WithoutGain(x, id, attempts, n - 1);
    }
  }

  /**
   The last attempt that did not merely fail decides: a gain makes the instance leader, a refusal makes it
   record who refused it, with no change to its flag and its token.
   */
  lemma {:induction false} LastAnswerDecides(x: Inst, id: nat, attempts: seq<Attempt>, n: nat, j: nat)
    requires n <= |attempts| && LastAnswered(attempts, j, n) && forall k :: 0 <= k < j ==> !attempts[k].Gains?
    ensures AfterAttempts(x, id, attempts, n) ==
              if attempts[j].Gains? then Inst(true, Some(id), attempts[j].token, attempts[j].rev)
              else Inst(x.isLeader, Some(attempts[j].id), x.token, attempts[j].rev)
  {
    if j == n - 1 {
      WithoutGain(x, id, attempts, j);
    } else {
      LastAnswerDecides(x, id, attempts, n - 1, j);
    }
  }

  /** What a handler starts in the background. */
  datatype Action = Nothing | AcquireWithRetry | AcquireOnce

  /** The revision that the instance holds after the first k heartbeat events. */
  ghost function RevisionAt(cfg: H.HbConfig, rev: nat, es: seq<H.Event>, k: nat): nat
    requires k <= |es|
  {
    if k == 0 then rev
    else if H.UpdateOk(cfg, es[k - 1]) then es[k - 1].update.rev
    else RevisionAt(cfg, rev, es, k - 1)
  }

  /** It is the revision of the last successful update, or the one that the term began with. */
  lemma {:induction false} RevisionIsLastWritten(cfg: H.HbConfig, rev: nat, es: seq<H.Event>, k: nat)
    requires k <= |es|
    ensures forall j :: 0 <= j < k && H.UpdateOk(cfg, es[j]) && H.NoSuccess(cfg, es, j + 1, k) ==>
              RevisionAt(cfg, rev, es, k) == es[j].update.rev
    ensures H.NoSuccess(cfg, es, 0, k) ==> RevisionAt(cfg, rev, es, k) == rev
  {
    if k > 0 {
      RevisionIsLastWritten(cfg, rev, es, k - 1);
    }
  }

  /** The protocol steps of one uninterrupted acquisition attempt of instance i. */
  ghost function AttemptSteps(c: Config, s: State, i: nat, token: nat): seq<Protocol.Step>
    requires i < |c|
  {
    if s.cell.Absent() || !(c[i].takeover && c[i].priority > 0) then [Acquire(i, token)]
    else if c[i].priority <= s.cell.entry.value.value.priority then [TakeoverRead(i, token)]
    else [TakeoverRead(i, token), TakeoverWrite(|s.takeovers|)]
  }

  /**
   An uninterrupted AttemptAcquire is one or two steps of the protocol: they have the effect on the key
   and on the instance that the method below is proved to have.
   */
  lemma AttemptIsProtocol(c: Config, s: State, i: nat, token: nat)
    requires i < |c| == |s.insts| && token !in s.drawn
    ensures var steps := AttemptSteps(c, s, i, token);
            && Possible(c, s, steps[0])
            && (|steps| == 2 ==> Possible(c, Protocol.Apply(c, s, steps[0]), steps[1]))
            && var s1 := Protocol.Apply(c, s, steps[0]);
               var s' := if |steps| == 2 then Protocol.Apply(c, s1, steps[1]) else s1;
               var found := c[i].takeover && c[i].priority > 0 && !s.cell.Absent();
               var won := s.cell.Absent() || (found && c[i].priority > s.cell.entry.value.value.priority);
               && s'.cell == (if won then s.cell.Put(PayloadOf(c, i, token)) else s.cell)
               && s'.insts == s.insts[i :=
                    if won then s.insts[i].Lead(i, token, s.cell.rev + 1)
                    else if found then s.insts[i].Observe(s.cell.entry.value.value.id, s.cell.entry.value.rev)
                    else s.insts[i]]
               && s'.accepted == (if won then s.accepted + [token] else s.accepted)
  {
  }

  // ---------------------------------------------------------------------------------------------
  // Heartbeats
  // ---------------------------------------------------------------------------------------------

  /** What the store answers to the heartbeat of an instance that holds the revision. */
  ghost function BeatAnswer(cell: Cell<Payload>, rev: nat): H.Update {
    if cell.Absent() then H.Failure(Plain("key not found"))
    else if cell.entry.value.rev != rev then H.Failure(Plain("revision mismatch"))
    else H.Success(cell.rev + 1)
  }

  /** The state after an uninterrupted heartbeat of instance i: it is sent, reaches the store and is reported. */
  ghost function AfterBeat(c: Config, s: State, i: nat): State
    requires i < |c| == |s.insts|
  {
    var s1 := Protocol.Apply(c, s, BeatSend(i));
    var s2 := Protocol.Apply(c, s1, BeatApply(|s.beats|));
    Protocol.Apply(c, s2, BeatResult(|s.beats|))
  }

  /**
   An uninterrupted heartbeat of a leader is three steps of the protocol, and they have the effect on the
   instance that the loop has on the same answer.
   */
  lemma BeatIsProtocol(c: Config, s: State, i: nat, cfg: H.HbConfig)
    requires i < |c| == |s.insts| && s.insts[i].isLeader
    ensures var (send, reach, report) := (BeatSend(i), BeatApply(|s.beats|), BeatResult(|s.beats|));
            var s1 := Protocol.Apply(c, s, send);
            Possible(c, s, send) && Possible(c, s1, reach) && Possible(c, Protocol.Apply(c, s1, reach), report)
    ensures var (x, s') := (s.insts[i], AfterBeat(c, s, i));
            var tick := H.Ticked(true, true, BeatAnswer(s.cell, x.revision));
            && s'.insts == s.insts[i := x.(revision := RevisionAt(cfg, x.revision, [tick], 1))]
            && s'.cell == (if tick.update.Success? then s.cell.Put(PayloadOf(c, i, x.token)) else s.cell)
            && s'.accepted == s.accepted
            && (H.VerdictAt(cfg, 0, [tick], 0) == if tick.update.Success? then H.Continue else H.StepDown)
  {
    var tick := H.Ticked(true, true, BeatAnswer(s.cell, s.insts[i].revision));
    assert RevisionAt(cfg, s.insts[i].revision, [tick], 0) == s.insts[i].revision;
    LossIsPermanent(KeyNotFound);
    LossIsPermanent(RevisionMismatch);
  }

  ghost function AfterBeats(c: Config, s: State, i: nat, n: nat): (s': State)
    requires i < |c| == |s.insts|
    ensures |s'.insts| == |c|
  {
    if n == 0 then s else AfterBeat(c, AfterBeats(c, s, i, n - 1), i)
  }

  /** Instance i leads, and what it holds is what the key holds. */
  ghost predicate Leading(c: Config, s: State, i: nat) {
    && i < |c| == |s.insts|
    && s.insts[i].isLeader
    && s.cell.entry == Some(Entry(PayloadOf(c, i, s.insts[i].token), s.insts[i].revision))
  }

  lemma BeatGoesOn(c: Config, s: State, i: nat)
    requires Leading(c, s, i)
    ensures var s' := AfterBeat(c, s, i);
            && Leading(c, s', i)
            && s'.insts == s.insts[i := s.insts[i].(revision := s.cell.rev + 1)]
            && s'.cell.rev == s.cell.rev + 1
  {
    var cfg := H.HbConfig(false, 0);
    BeatIsProtocol(c, s, i, cfg);
    assert RevisionAt(cfg, s.insts[i].revision, [H.Ticked(true, true, H.Success(s.cell.rev + 1))], 1) == s.cell.rev + 1;
  }

  /** Through any number of heartbeats it stays leader, each one refreshes the entry, and none is refused. */
  lemma {:induction false} BeatsGoOn(c: Config, s: State, i: nat, n: nat)
    requires Leading(c, s, i)
    ensures var s' := AfterBeats(c, s, i, n);
            && Leading(c, s', i)
            && s'.insts == s.insts[i := s.insts[i].(revision := if n == 0 then s.insts[i].revision else s.cell.rev + n)]
            && s'.cell.rev == s.cell.rev + n
  {
    if n > 0 {
      BeatsGoOn(c, s, i, n - 1);
      BeatGoesOn(c, AfterBeats(c, s, i, n - 1), i);
    }
  }

  class KvElection {
    const id: nat
    const key: string
    const priority: int
    const takeover: bool
    const hb: H.HbConfig

    var isLeader: bool
    var leaderId: Option<nat>
    var token: nat
    var revision: nat
    var phase: L.Phase
    var leaderStart: Option<int>
    var ctx: L.Context
    var watcherRunning: bool
    var healthFailureCount: H.int32

    var transitions: seq<(L.Phase, L.Phase)>
    var durations: seq<int>
    var gauge: bool
    var watchers: nat
    ghost var promotions: nat
    ghost var mark: nat

    ghost function Local(): Inst
      reads this
    {
      Inst(isLeader, leaderId, token, revision)
    }

    ghost function Life(): L.Life
      reads this
    {
      L.Life(phase, isLeader, leaderStart, ctx, transitions, durations, gauge, watcherRunning, watchers,
             promotions, mark)
    }

    function Claim(newToken: nat): Payload {
      Payload(id, newToken, priority)
    }

    constructor (id: nat, key: string, priority: int, takeover: bool, hb: H.HbConfig)
      ensures this.id == id && this.key == key && this.priority == priority && this.takeover == takeover
      ensures this.hb == hb
      ensures !isLeader && leaderId == None && token == NO_TOKEN && revision == 0
      ensures phase == L.Init && ctx == L.NoContext && !watcherRunning && watchers == 0 && transitions == []
      ensures Life() == L.Fresh()
      ensures healthFailureCount == 0
    {
      this.id, this.key, this.priority, this.takeover, this.hb := id, key, priority, takeover, hb;
      isLeader, leaderId, token, revision := false, None, NO_TOKEN, 0;
      phase, leaderStart, ctx, watcherRunning, healthFailureCount := L.Init, None, L.NoContext, false, 0;
      transitions, durations, gauge, watchers, promotions, mark := [], [], false, 0, 0, 0;
    }

    // -------------------------------------------------------------------------------------------
    // Locked sections
    // -------------------------------------------------------------------------------------------

    /** Set the leader flag and the state, and record the transition and the gauge. */
    method EnterPhase(leading: bool, to: L.Phase)
      modifies this`isLeader, this`phase, this`transitions, this`gauge
      ensures Life() == L.Enter(old(Life()), leading, to)
      ensures isLeader == gauge == leading && phase == to && transitions == old(transitions) + [(old(phase), to)]
    {
      var from := phase;
      isLeader := leading;
      phase := to;
      transitions := transitions + [(from, to)];
      gauge := isLeader;
    }

    /** If leadership ends now, observe how long it lasted. */
    method RecordLeaderDuration(now: int)
      modifies this`durations, this`leaderStart
      ensures Life() == L.Ended(old(Life()), now)
    {
      if isLeader {
        if leaderStart.Some? {
          durations := durations + [now - leaderStart.value];
        }
        leaderStart := None;
      }
    }

    /** `monitorFails`: there is a connection monitor, and it does not start.  On success an attempt is launched. */
    method Start(monitorFails: bool) returns (result: StartResult)
      modifies this`ctx, this`phase, this`mark
      ensures result == if old(ctx).LiveContext? then AlreadyStarted
                        else if monitorFails then MonitorFailed else Started
      ensures Life() == L.Apply(old(Life()), if monitorFails then L.FailStart else L.Start)
      ensures phase == if result.Started? then L.Candidate else old(phase)
      ensures ctx == if result.MonitorFailed? then L.EndedContext else L.LiveContext
    {
      if ctx == L.LiveContext {
        return AlreadyStarted;
      }
      ctx := L.LiveContext;
      if monitorFails {
        ctx := L.EndedContext;
        return MonitorFailed;
      }
      phase := L.Candidate;
      mark := |transitions|;
      return Started;
    }

    method BecomeLeader(newToken: nat, rev: nat, now: int)
      modifies this
      ensures Life() == L.Apply(old(Life()), L.Lead(now))
      ensures isLeader && leaderId == Some(id) && token == newToken && revision == rev && phase == L.Leader
      ensures healthFailureCount == old(healthFailureCount)
    {
      promotions := promotions + if isLeader then 0 else 1;
      leaderId := Some(id);
      token := newToken;
      revision := rev;
      leaderStart := Some(now);
      EnterPhase(true, L.Leader);
    }

    method BecomeFollower(now: int)
      modifies this
      ensures !isLeader && leaderId == old(leaderId) && token == old(token) && revision == old(revision)
      ensures Life() == L.Apply(old(Life()), L.Follow(now))
      ensures phase == L.Follower
      ensures healthFailureCount == old(healthFailureCount)
    {
      RecordLeaderDuration(now);
      EnterPhase(false, L.Follower);
      if ctx != L.NoContext && !watcherRunning {
        watcherRunning := true;
        watchers := watchers + 1;
      }
    }

    /** A watch loop returns: its goroutine ends and clears the flag. */
    method WatchLoopEnds()
      modifies this`watchers, this`watcherRunning
      ensures Life() == L.Apply(old(Life()), L.WatchLoopEnds)
    {
      if watchers > 0 {
        watchers := watchers - 1;
        watcherRunning := false;
      }
    }

    method Stop(now: int) returns (ok: bool)
      modifies this
      ensures ok <==> !old(ctx).NoContext?
      ensures leaderId == old(leaderId) && token == old(token) && revision == old(revision)
      ensures if ok then !isLeader && phase == L.Stopped && ctx == L.EndedContext else isLeader == old(isLeader)
      ensures Life() == L.Apply(old(Life()), L.Stop(now))
      ensures healthFailureCount == old(healthFailureCount)
    {
      if ctx == L.NoContext {
        return false;
      }
      RecordLeaderDuration(now);
      EnterPhase(false, L.Stopped);
      ctx := L.EndedContext;
      watcherRunning := false;
      return true;
    }

    /**
     StopWithContext.  `drain` says how the wait for the background goroutines ends, `callback` how the wait
     for the OnDemote callback ends; `onDemote` says whether there is one.  The key is deleted - without
     looking at its revision - only if the instance was leader and the goroutines ended.
     */
    method StopWithContext(kv: KeyValue<Payload>, deleteKey: bool, waitForDemote: bool, onDemote: bool,
                           drain: Wait, callback: Wait, now: int)
      returns (result: StopResult, called: bool)
      requires kv as object != this
      modifies this, kv`data
      ensures result.AlreadyStopped? <==> old(ctx).NoContext?
      ensures !old(ctx).NoContext? ==>
                && (result.ShutdownTimeout? <==> drain.TimedOut?)
                && (result.ShutdownInterrupted? <==> drain.Interrupted?)
                && (result.CallbackTimeout? <==> called && waitForDemote && callback.TimedOut?)
                && (result.CallbackInterrupted? <==> called && waitForDemote && callback.Interrupted?)
      ensures called <==> !old(ctx).NoContext? && drain.Finished? && old(isLeader) && onDemote
      ensures Local() == if old(ctx).NoContext? then old(Local()) else old(Local()).Follow()
      ensures token == old(token) && leaderId == old(leaderId) && revision == old(revision)
      ensures !old(ctx).NoContext? ==> !isLeader && phase == L.Stopped
      ensures ctx == if old(ctx).NoContext? || drain.Finished? then L.NoContext else L.EndedContext
      ensures kv.data == if old(ctx != L.NoContext && isLeader) && drain.Finished? && deleteKey && !kv.failDelete
                         then old(kv.data) - {key} else old(kv.data)
      ensures var l := L.Apply(old(Life()), L.Stop(now));
              Life() == if !old(ctx).NoContext? && drain.Finished? then L.Apply(l, L.ForgetContext) else l
      ensures var deletes := !old(ctx).NoContext? && drain.Finished? && deleteKey && old(isLeader) && !kv.failDelete;
              kv.View() == if deletes then Store.Step(old(kv.View()), Delete(key)).0 else old(kv.View())
    {
      called := false;
      var wasLeader := isLeader;
      var ok := Stop(now);
      if !ok {
        return AlreadyStopped, called;
      }
      if drain != Finished {
        return if drain == TimedOut then ShutdownTimeout else ShutdownInterrupted, called;
      }
      ctx := L.NoContext;
      if deleteKey && wasLeader {
        var _ := kv.Delete(key);
      }
      called := wasLeader && onDemote;
      if called && waitForDemote && callback != Finished {
        return if callback == TimedOut then CallbackTimeout else CallbackInterrupted, called;
      }
      return StoppedWell, called;
    }

    // -------------------------------------------------------------------------------------------
    // Acquisition
    // -------------------------------------------------------------------------------------------

    /**
     Try to create the key; on failure, and if takeover is allowed, try to take it over.  Run without
     interference and without injected faults it wins exactly if the key is absent or held with a
     lower priority.
     */
    method AttemptAcquire(kv: KeyValue<Payload>, newToken: nat, now: int) returns (result: Acquired)
      requires kv as object != this
      modifies this, kv`data, kv`rev
      ensures result.Won? <==>
                (!kv.failCreate && key !in old(kv.data)) || (takeover && priority > 0 && old(TakesOver(kv)))
      ensures result.Won? ==> isLeader && leaderId == Some(id) && token == newToken && revision == kv.rev
      ensures result.Won? ==>
                && kv.rev == old(kv.rev) + 1
                && kv.data == old(kv.data)[key := Entry(Payload(id, newToken, priority), kv.rev)]
      ensures result.Lost? ==> isLeader == old(isLeader) && token == old(token) && kv.View() == old(kv.View())
      ensures result.Lost? && takeover && priority > 0 && RefusedBy(kv) ==>
                leaderId == Some(kv.data[key].value.id) && revision == kv.data[key].rev
      ensures result.Lost? && !(takeover && priority > 0 && RefusedBy(kv)) ==>
                leaderId == old(leaderId) && revision == old(revision)
      ensures result.Lost? ==>
                result.err == if takeover && priority > 0 then TakeoverError(kv)
                              else Plain(if kv.failCreate then "create failed" else "key already exists")
      ensures var cell := old(CellOf(kv.View(), key));
              CellOf(kv.View(), key) == if result.Won? then cell.Put(Payload(id, newToken, priority)) else cell
      ensures Local() == if result.Won? then old(Local()).Lead(id, newToken, kv.rev)
                         else if takeover && priority > 0 && RefusedBy(kv)
                           then old(Local()).Observe(kv.data[key].value.id, kv.data[key].rev)
                         else old(Local())
      ensures Life() == if result.Won? then L.Apply(old(Life()), L.Lead(now)) else old(Life())
      ensures healthFailureCount == old(healthFailureCount)
    {
      var reply := kv.Create(key, Claim(newToken));
      if reply.Failed? {
        if takeover && priority > 0 {
          result := AttemptPriorityTakeover(kv, newToken, now);
          return;
        }
        return Lost(Plain(Message(reply.fault)));
      }
      BecomeLeader(newToken, reply.rev, now);
      return Won;
    }

    /** The Get of a takeover finds an entry with a lower priority, and the Update is not made to fail. */
    ghost predicate TakesOver(kv: KeyValue<Payload>)
      reads kv
    {
      !kv.failGet && key in kv.data && kv.data[key].value.priority < priority && !kv.failUpdate
    }

    /** The Get of a takeover finds an entry with an equal or higher priority. */
    ghost predicate RefusedBy(kv: KeyValue<Payload>)
      reads kv
    {
      !kv.failGet && key in kv.data && priority <= kv.data[key].value.priority
    }

    /** What a takeover that does not succeed is lost with. */
    ghost function TakeoverError(kv: KeyValue<Payload>): Error
      reads kv
    {
      if kv.failGet then Plain("get failed")
      else if key !in kv.data then Plain("key not found")
      else if priority <= kv.data[key].value.priority then Plain("current leader has equal or higher priority")
      else Wrap("priority takeover failed (revision mismatch): ", Plain("update failed"), "", false)
    }

    method AttemptPriorityTakeover(kv: KeyValue<Payload>, newToken: nat, now: int) returns (result: Acquired)
      requires kv as object != this
      modifies this, kv`data, kv`rev
      ensures result.Won? <==> old(TakesOver(kv))
      ensures result.Won? ==> isLeader && leaderId == Some(id) && token == newToken && revision == kv.rev
      ensures result.Won? ==>
                && kv.rev == old(kv.rev) + 1
                && kv.data == old(kv.data)[key := Entry(Payload(id, newToken, priority), kv.rev)]
      ensures result.Lost? ==> isLeader == old(isLeader) && token == old(token) && kv.View() == old(kv.View())
      ensures result.Lost? && RefusedBy(kv) ==>
                leaderId == Some(kv.data[key].value.id) && revision == kv.data[key].rev
      ensures result.Lost? && !RefusedBy(kv) ==> leaderId == old(leaderId) && revision == old(revision)
      ensures result.Lost? ==> result.err == TakeoverError(kv)
      ensures Life() == if result.Won? then L.Apply(old(Life()), L.Lead(now)) else old(Life())
      ensures healthFailureCount == old(healthFailureCount)
    {
      var reply := kv.Get(key);
      if reply.Failed? {
        return Lost(Plain(Message(reply.fault)));
      }
      var entry := reply.entry;
      if priority <= entry.value.priority {
        leaderId := Some(entry.value.id);
        revision := entry.rev;
        return Lost(Plain("current leader has equal or higher priority"));
      }
      var update := kv.Update(key, Claim(newToken), entry.rev);
      if update.Failed? {
        return Lost(Wrap("priority takeover failed (revision mismatch): ", Plain(Message(update.fault)), "", false));
      }
      BecomeLeader(newToken, update.rev, now);
      return Won;
    }

    /** The attempt that Start launches: if it is lost, the instance becomes a follower. */
    method FirstAttempt(kv: KeyValue<Payload>, newToken: nat, now: int) returns (result: Acquired)
      requires kv as object != this
      modifies this, kv`data, kv`rev
      ensures result.Won? <==>
                (!kv.failCreate && key !in old(kv.data)) || (takeover && priority > 0 && old(TakesOver(kv)))
      ensures result.Won? ==> isLeader && leaderId == Some(id) && token == newToken && revision == kv.rev
      ensures result.Won? ==>
                && kv.rev == old(kv.rev) + 1
                && kv.data == old(kv.data)[key := Entry(Payload(id, newToken, priority), kv.rev)]
      ensures result.Lost? ==> !isLeader && token == old(token) && kv.View() == old(kv.View())
      ensures phase == if result.Won? then L.Leader else L.Follower
      ensures Life() == L.Apply(old(Life()), if result.Won? then L.Lead(now) else L.Follow(now))
    {
      result := AttemptAcquire(kv, newToken, now);
      if result.Lost? {
        BecomeFollower(now);
      }
    }

    /** What an attempt that comes to `a` leaves behind. */
    method MeetAttempt(a: Attempt, now: int)
      modifies this
      ensures Local() == match a
                         case Gains(newToken, rev) => Inst(true, Some(id), newToken, rev)
                         case Refused(other, rev) => Inst(old(isLeader), Some(other), old(token), rev)
                         case Fails => old(Local())
      ensures Life() == if a.Gains? then L.Apply(old(Life()), L.Lead(now)) else old(Life())
    {
      match a {
        case Gains(newToken, rev) =>
          BecomeLeader(newToken, rev, now);
        case Refused(other, rev) =>
          leaderId := Some(other);
          revision := rev;
        case Fails =>
      }
    }

    /**
     attemptAcquireWithRetry.  `done[k]` says whether the context is found done before attempt k, `cut[k]` how long
     into the k-th wait - the initial jitter is the first - it ends, if it does.
     There are at most four attempts and 485 ms of waiting, and none after a success; after four failures, and
     only then, the instance gives up and becomes a follower.
     */
    method AttemptAcquireWithRetry(jitterDraw: real, draws: seq<real>, attempts: seq<Attempt>, done: seq<bool>,
                                   cut: seq<Option<real>>, now: int)
      returns (end: RetryEnd, n: nat, waited: real)
      requires Draw(jitterDraw) && |draws| == MAX_RETRIES && forall k :: 0 <= k < |draws| ==> Draw(draws[k])
      requires |attempts| == |done| == |cut| == MAX_RETRIES + 1
      requires forall k :: 0 <= k < |cut| && cut[k].Some? ==> 0.0 <= cut[k].value
      modifies this
      ensures n <= 4 && 0.0 <= waited <= 485.0 * MILLISECOND
      ensures n > 0 ==> 10.0 * MILLISECOND <= waited
      ensures n == 4 ==> 325.0 * MILLISECOND <= waited
      ensures n == 1 && end == Succeeded ==> waited == 10.0 * MILLISECOND + jitterDraw * (90.0 * MILLISECOND)
      ensures forall k :: 0 <= k < n - 1 ==> !attempts[k].Gains?
      ensures end == Succeeded <==> n > 0 && attempts[n - 1].Gains?
      ensures end == GaveUp <==> n == 4 && !attempts[3].Gains?
      ensures end == Cancelled ==> n < 4 && (done[n] || cut[n].Some?)
      ensures forall k :: 0 <= k < n ==> !done[k] && (cut[k].Some? ==> 10.0 * MILLISECOND <= cut[k].value)
      ensures end == Succeeded ==>
                && isLeader && leaderId == Some(id)
                && token == attempts[n - 1].token && revision == attempts[n - 1].rev
      ensures end != Succeeded ==> token == old(token) && isLeader == (old(isLeader) && end.Cancelled?)
      ensures var x := AfterAttempts(old(Local()), id, attempts, n); Local() == if end.GaveUp? then x.Follow() else x
      ensures Life() == match end
                        case Succeeded => L.Apply(old(Life()), L.Lead(now))
                        case GaveUp => L.Apply(old(Life()), L.Follow(now))
                        case Cancelled => old(Life())
    {
      DefaultBackoffs(draws[0], draws[1], draws[2]);
      n, waited := 0, 0.0;
      var wait := JITTER_MIN + jitterDraw * (JITTER_MAX - JITTER_MIN);
      while n <= MAX_RETRIES
        invariant n <= MAX_RETRIES
        invariant forall k :: 0 <= k < n ==> !attempts[k].Gains?
        invariant forall k :: 0 <= k < n ==> !done[k] && (cut[k].Some? ==> 10.0 * MILLISECOND <= cut[k].value)
        invariant n == 0 ==> wait == 10.0 * MILLISECOND + jitterDraw * (90.0 * MILLISECOND)
        invariant n == 0 ==> waited == 0.0 && 10.0 * MILLISECOND <= wait <= 100.0 * MILLISECOND
        invariant n == 1 ==> 10.0 * MILLISECOND <= waited <= 100.0 * MILLISECOND
        invariant n == 1 ==> 45.0 * MILLISECOND <= wait <= 55.0 * MILLISECOND
        invariant n == 2 ==> 55.0 * MILLISECOND <= waited <= 155.0 * MILLISECOND
        invariant n == 2 ==> 90.0 * MILLISECOND <= wait <= 110.0 * MILLISECOND
        invariant n == 3 ==> 145.0 * MILLISECOND <= waited <= 265.0 * MILLISECOND
        invariant n == 3 ==> 180.0 * MILLISECOND <= wait <= 220.0 * MILLISECOND
        invariant isLeader == old(isLeader) && token == old(token)
        invariant Life() == old(Life())
        invariant Local() == AfterAttempts(old(Local()), id, attempts, n)
      {
        if cut[n].Some? && cut[n].value < wait {
          return Cancelled, n, waited + cut[n].value;
        }
        waited := waited + wait;
        if done[n] {
          return Cancelled, n, waited;
        }
        MeetAttempt(attempts[n], now);
        if attempts[n].Gains? {
          return Succeeded, n + 1, waited;
        }
        if n == MAX_RETRIES {
          BecomeFollower(now);
          return GaveUp, n + 1, waited;
        }
        wait := CalculateBackoff(DefaultBackoffConfig(), n, draws[n]);
        n := n + 1;
      }
      assert false;
    }

    // -------------------------------------------------------------------------------------------
    // Handlers
    // -------------------------------------------------------------------------------------------

    /** A watch event: nothing for a deleted key, else the entry that was written. */
    method HandleWatchEvent(event: Option<Entry<Payload>>, now: int) returns (action: Action)
      modifies this
      ensures event.None? ==> action == AcquireWithRetry && Local() == old(Local()) && Life() == old(Life())
      ensures token == old(token)
      ensures isLeader == (old(isLeader) && (event.None? || event.value.value.id == id))
      ensures event.Some? && !old(isLeader) ==> leaderId == Some(event.value.value.id) && revision == event.value.rev
      ensures event.None? || old(isLeader) ==> leaderId == old(leaderId) && revision == old(revision)
      ensures phase == if old(isLeader) && !isLeader then L.Follower else old(phase)
      ensures event.Some? && old(isLeader) ==>
                && action == Nothing
                && Local() == (if event.value.value.id != id then old(Local()).Follow() else old(Local()))
                && Life() == (if event.value.value.id != id then L.Apply(old(Life()), L.Follow(now)) else old(Life()))
      ensures event.Some? && !old(isLeader) ==>
                && Local() == old(Local()).Observe(event.value.value.id, event.value.rev)
                && Life() == old(Life())
                && var known := old(leaderId) == Some(event.value.value.id);
                   action == if known && takeover && priority > event.value.value.priority then AcquireOnce else Nothing
      ensures healthFailureCount == old(healthFailureCount)
    {
      if event.None? {
        return AcquireWithRetry;
      }
      var newLeader := event.value.value.id;
      if isLeader {
        if newLeader != id {
          BecomeFollower(now);
        }
        return Nothing;
      }
      var changed := leaderId != Some(newLeader);
      leaderId := Some(newLeader);
      revision := event.value.rev;
      if !changed && takeover && priority > event.value.value.priority {
        return AcquireOnce;
      }
      return Nothing;
    }

    /** The periodic check of a follower. */
    method CheckKeyAndReelect(kv: KeyValue<Payload>) returns (action: Action)
      modifies this`leaderId, this`revision
      ensures action == if !isLeader && (kv.failGet || key !in kv.data) then AcquireWithRetry else Nothing
      ensures if !isLeader && !kv.failGet && key in kv.data && old(leaderId).Some?
              then leaderId == Some(kv.data[key].value.id)
                   && revision == if leaderId == old(leaderId) then old(revision) else kv.data[key].rev
              else leaderId == old(leaderId) && revision == old(revision)
      ensures var cell := CellOf(kv.View(), key);
              if old(isLeader) then action == Nothing && Local() == old(Local())
              else if kv.failGet || cell.Absent() then action == AcquireWithRetry && Local() == old(Local())
              else
                && action == Nothing
                && var changed := old(leaderId).Some? && old(leaderId).value != cell.entry.value.value.id;
                   Local() == if changed then old(Local()).Observe(cell.entry.value.value.id, cell.entry.value.rev)
                              else old(Local())
    {
      if isLeader {
        return Nothing;
      }
      var reply := kv.Get(key);
      if reply.Failed? {
        return AcquireWithRetry;
      }
      if leaderId.Some? && leaderId.value != reply.entry.value.id {
        leaderId := Some(reply.entry.value.id);
        revision := reply.entry.rev;
      }
      return Nothing;
    }

    // -------------------------------------------------------------------------------------------
    // Token validation
    // -------------------------------------------------------------------------------------------

    method ValidateTokenOrDemote(doneBefore: bool, read: V.Read, now: int) returns (ok: bool)
      modifies this
      ensures ok <==> old(isLeader) && old(token) != NO_TOKEN && !doneBefore
                      && read == V.Read.Value(V.Parsed(V.Field.Value(old(token)), V.Field.Value(id)))
      ensures isLeader == ok && token == old(token) && leaderId == old(leaderId) && revision == old(revision)
      ensures phase == if old(isLeader) && !ok then L.Follower else old(phase)
      ensures Life() == if !ok && old(isLeader) then L.Apply(old(Life()), L.Follow(now)) else old(Life())
    {
      if !isLeader {
        return false;
      }
      var check := V.ValidateToken(token, id, doneBefore, read);
      V.NeverSilentlyInvalid(token, id, doneBefore, read);
      if check.err.Some? || !check.valid {
        BecomeFollower(now);
        return false;
      }
      return true;
    }

    // -------------------------------------------------------------------------------------------
    // Leader loops
    // -------------------------------------------------------------------------------------------

    /**
     The heartbeat loop on a sequence of events.  It ends with event k - by leaving or by demoting the
     instance - or has consumed all events.
     */
    method HeartbeatLoop(es: seq<H.Event>, now: int) returns (verdict: H.Verdict, k: nat)
      modifies this
      ensures k <= |es| && H.Alive(hb, old(healthFailureCount), es, k)
      ensures if k == |es| then verdict == H.Continue
              else verdict != H.Continue && verdict == H.VerdictAt(hb, old(healthFailureCount), es, k)
      ensures healthFailureCount == H.At(hb, old(healthFailureCount), es, if k == |es| then k else k + 1).health
      ensures revision == RevisionAt(hb, old(revision), es, k)
      ensures isLeader == (old(isLeader) && !verdict.StepDown?) && token == old(token) && leaderId == old(leaderId)
      ensures Life() == if verdict.StepDown? then L.Apply(old(Life()), L.Follow(now)) else old(Life())
    {
      var consecutiveFailures := 0;
      var maxHealthFailures := if hb.maxHealthFailures <= 0 then 3 else hb.maxHealthFailures;
      ghost var carried := healthFailureCount;
      k := 0;
      while k < |es|
        invariant k <= |es| && H.Alive(hb, carried, es, k)
        invariant H.Counters(consecutiveFailures, healthFailureCount) == H.At(hb, carried, es, k)
        invariant revision == RevisionAt(hb, old(revision), es, k)
        invariant isLeader == old(isLeader) && token == old(token) && leaderId == old(leaderId)
        invariant Life() == old(Life())
      {
        var e := es[k];
        if e.ContextDone? || !e.leader {
          return H.Leave, k;
        }
        var demote := false;
        if hb.checker && !e.healthy {
          healthFailureCount := H.ToInt32(healthFailureCount + 1);
          demote := healthFailureCount >= H.ToInt32(maxHealthFailures);
        } else {
          if hb.checker && healthFailureCount > 0 {
            healthFailureCount := 0;
          }
          match e.update {
            case DoneInWait =>
              return H.Leave, k;
            case Success(rev) =>
              revision := rev;
              consecutiveFailures := 0;
            case MarshalError =>
              consecutiveFailures := consecutiveFailures + 1;
              demote := consecutiveFailures >= H.MAX_FAILURES;
            case Failure(err) =>
              if IsPermanent(Some(err)) {
                demote := true;
              } else {
                consecutiveFailures := consecutiveFailures + 1;
                demote := consecutiveFailures >= H.MAX_FAILURES;
              }
          }
        }
        if demote {
          BecomeFollower(now);
          return H.StepDown, k;
        }
        k := k + 1;
      }
      return H.Continue, k;
    }

    /** The validation loop on a sequence of events. */
    method ValidationLoop(es: seq<V.Event>, now: int) returns (verdict: V.Verdict, k: nat)
      modifies this
      ensures k <= |es| && V.Alive(es, k)
      ensures if k == |es| then verdict == V.Continue else verdict != V.Continue && verdict == V.VerdictAt(es, k)
      ensures isLeader == (old(isLeader) && !verdict.StepDown?)
      ensures token == old(token) && leaderId == old(leaderId) && revision == old(revision)
      ensures phase == if verdict.StepDown? then L.Follower else old(phase)
      ensures Life() == if verdict.StepDown? then L.Apply(old(Life()), L.Follow(now)) else old(Life())
      ensures healthFailureCount == old(healthFailureCount)
    {
      var consecutiveFailures := 0;
      k := 0;
      while k < |es|
        invariant k <= |es| && V.Alive(es, k) && consecutiveFailures == V.At(es, k)
        invariant Local() == old(Local()) && Life() == old(Life()) && healthFailureCount == old(healthFailureCount)
      {
        var e := es[k];
        if e.ContextDone? || !e.leader {
          return V.Leave, k;
        }
        if e.check.err.Some? {
          consecutiveFailures := consecutiveFailures + 1;
          if consecutiveFailures >= V.MAX_FAILURES {
            BecomeFollower(now);
            return V.StepDown, k;
          }
        } else if !e.check.valid {
          BecomeFollower(now);
          return V.StepDown, k;
        } else {
          consecutiveFailures := 0;
        }
        k := k + 1;
      }
      return V.Continue, k;
    }
  }
}
