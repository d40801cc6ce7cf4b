/**
 The election protocol as a step relation: any number of instances compete for one key of the store.

 The granularity of the steps is part of the model, and each choice is a hypothesis:
 - H-STORE     Store operations are atomic, and the key may be removed (expiry or deletion) at any moment.
 - H-ACQUIRE   A Create that succeeds and the becomeLeader that follows it are one step; a Create that
               fails was not applied.
 - H-TAKEOVER  The Get of a takeover is one step; the later Update and its becomeLeader are a second
               step, with anything in between.
 - H-HEARTBEAT The snapshot - the look at the leader flag, the revision and the token - is one step, its
               application at the store another, and its result a third.  The application may come after
               the timeout, after a demotion, after a re-election, or never.  The code takes the snapshot
               in three loads; module Snapshot proves what that costs.
 - H-OBSERVE   The watch and check handlers test the leader flag and overwrite `revision` in one step, so
               they overwrite it only while the instance is not leader.
 - H-REFUSAL   A takeover that is refused because the entry of another instance has an equal or higher
               priority overwrites `revision` too, and is not taken by a leader.  The code does not check
               this; module Refusal says for which configurations it holds by itself, and what goes wrong
               in all the others.
 - H-TOKEN     Every acquisition attempt draws a token that was never drawn before.
 Instances are the indices of the configuration, so their identifiers are distinct.
 */
module Protocol {
  import opened Store

  const NO_TOKEN: nat := 0

  datatype Payload = Payload(id: nat, token: nat, priority: int)

  datatype Member = Member(priority: int, takeover: bool)

  type Config = seq<Member>

  /** The fields of one instance that take part in the protocol. */
  datatype Inst = Inst(isLeader: bool, leaderId: Option<nat>, token: nat, revision: nat) {
    function Lead(id: nat, newToken: nat, rev: nat): Inst {
      Inst(true, Some(id), newToken, rev)
    }

    function Follow(): Inst {
      this.(isLeader := false)
    }

    function Observe(id: nat, rev: nat): Inst {
      this.(leaderId := Some(id), revision := rev)
    }
  }

  datatype Outcome = InFlight | Applied(newRev: nat) | Rejected

  /** A heartbeat from its snapshot on; it stays here when nobody waits for it any more. */
  datatype Heartbeat = Heartbeat(inst: nat, rev: nat, token: nat, outcome: Outcome, awaited: bool)

  /** A takeover between its Get and its Update: the token drawn for it and the entry that was read. */
  datatype Takeover = Takeover(inst: nat, token: nat, read: Entry<Payload>, pending: bool)

  /**
   `accepted` is a history variable: the tokens that the store accepted through a Create or a
   takeover, oldest first.  `drawn` holds every token that was ever drawn.
   */
  datatype State = State(cell: Cell<Payload>, insts: seq<Inst>, beats: seq<Heartbeat>, takeovers: seq<Takeover>,
                         drawn: set<nat>, accepted: seq<nat>)

  datatype Step =
    | Acquire(i: nat, token: nat)
    | TakeoverRead(i: nat, token: nat)
    | TakeoverWrite(t: nat)
    | BeatSend(i: nat)
    | BeatApply(h: nat)
    | BeatResult(h: nat)
    | BeatTimeout(h: nat)
    | Observe(i: nat, id: nat, rev: nat)
    | Demote(i: nat)
    | Remove
    | OtherKeyWrite

  function Init(c: Config): State {
    State(Cell(None, 0), seq(|c|, _ => Inst(false, None, NO_TOKEN, 0)), [], [], {NO_TOKEN}, [])
  }

  function PayloadOf(c: Config, i: nat, token: nat): Payload
    requires i < |c|
  {
    Payload(i, token, c[i].priority)
  }

  /** The indices of the step are inside the state. */
  predicate WellTyped(c: Config, s: State, step: Step) {
    && |s.insts| == |c|
    && (match step
        case Acquire(i, _) => i < |c|
        case TakeoverRead(i, _) => i < |c|
        case TakeoverWrite(t) => t < |s.takeovers| && s.takeovers[t].inst < |c|
        case BeatSend(i) => i < |c|
        case BeatApply(h) => h < |s.beats| && s.beats[h].inst < |c|
        case BeatResult(h) => h < |s.beats| && s.beats[h].inst < |c|
        case BeatTimeout(h) => h < |s.beats|
        case Observe(i, _, _) => i < |c|
        case Demote(i) => i < |c|
        case Remove => true
        case OtherKeyWrite => true)
  }

  /** What the code lets happen, under all hypotheses but H-REFUSAL. */
  predicate Possible(c: Config, s: State, step: Step) {
    && WellTyped(c, s, step)
    && (match step
        case Acquire(_, token) => token !in s.drawn
        case TakeoverRead(i, token) =>
          token !in s.drawn && c[i].takeover && c[i].priority > 0 && s.cell.entry.Some?
        case TakeoverWrite(t) => s.takeovers[t].pending
        case BeatSend(i) => s.insts[i].isLeader
        case BeatApply(h) => s.beats[h].outcome.InFlight?
        case BeatResult(h) => s.beats[h].awaited && !s.beats[h].outcome.InFlight?
        case BeatTimeout(h) => s.beats[h].awaited
        case Observe(i, _, _) => !s.insts[i].isLeader // H-OBSERVE
        case Demote(_) => true
        case Remove => true
        case OtherKeyWrite => true)
  }

  /** H-REFUSAL: the step is not the refusal of a leader by the entry of another instance. */
  predicate RefusesNoLeader(c: Config, s: State, step: Step)
    requires Possible(c, s, step)
  {
    step.TakeoverRead? && s.insts[step.i].isLeader && c[step.i].priority <= s.cell.entry.value.value.priority ==>
      s.cell.entry.value.value.id == step.i
  }

  predicate Enabled(c: Config, s: State, step: Step) {
    Possible(c, s, step) && RefusesNoLeader(c, s, step)
  }

  /** The write of the payload is accepted and its author becomes leader. */
  function Accept(c: Config, s: State, i: nat, token: nat): State
    requires i < |c| == |s.insts|
  {
    var cell := s.cell.Put(PayloadOf(c, i, token));
    s.(cell := cell, insts := s.insts[i := s.insts[i].Lead(i, token, cell.rev)], accepted := s.accepted + [token])
  }

  function Apply(c: Config, s: State, step: Step): State
    requires WellTyped(c, s, step)
    requires step.TakeoverRead? ==> s.cell.entry.Some?
  {
    match step
    case Acquire(i, token) =>
      var s1 := s.(drawn := s.drawn + {token});
      if s.cell.Absent() then Accept(c, s1, i, token) else s1
    case TakeoverRead(i, token) =>
      var s1 := s.(drawn := s.drawn + {token});
      var read := s.cell.entry.value;
      if c[i].priority <= read.value.priority then
        s1.(insts := s.insts[i := s.insts[i].Observe(read.value.id, read.rev)])
      else
        s1.(takeovers := s.takeovers + [Takeover(i, token, read, true)])
    case TakeoverWrite(t) =>
      var s1 := s.(takeovers := s.takeovers[t := s.takeovers[t].(pending := false)]);
      if s.cell.Matches(s.takeovers[t].read.rev) then Accept(c, s1, s.takeovers[t].inst, s.takeovers[t].token) else s1
    case BeatSend(i) =>
      s.(beats := s.beats + [Heartbeat(i, s.insts[i].revision, s.insts[i].token, InFlight, true)])
    case BeatApply(h) =>
      var b := s.beats[h];
      if s.cell.Matches(b.rev) then
        var cell := s.cell.Put(PayloadOf(c, b.inst, b.token));
        s.(cell := cell, beats := s.beats[h := b.(outcome := Applied(cell.rev))])
      else
        s.(beats := s.beats[h := b.(outcome := Rejected)])
    case BeatResult(h) =>
      var b := s.beats[h];
      var s1 := s.(beats := s.beats[h := b.(awaited := false)]);
      if b.outcome.Applied? then
        s1.(insts := s.insts[b.inst := s.insts[b.inst].(revision := b.outcome.newRev)])
      else
        s1
    case BeatTimeout(h) =>
      s.(beats := s.beats[h := s.beats[h].(awaited := false)])
    case Observe(i, id, rev) =>
      s.(insts := s.insts[i := s.insts[i].Observe(id, rev)])
    case Demote(i) =>
      s.(insts := s.insts[i := s.insts[i].Follow()])
    case Remove =>
      s.(cell := s.cell.Removed())
    case OtherKeyWrite =>
      s.(cell := s.cell.Bump())
  }

  // ---------------------------------------------------------------------------------------------
  // The steps are operations of the store
  // ---------------------------------------------------------------------------------------------

  /** What the step asks of the store; `elsewhere` is an operation on another key. */
  ghost function OpOf(c: Config, s: State, step: Step, key: string, elsewhere: Op<Payload>): Option<Op<Payload>>
    requires WellTyped(c, s, step)
  {
    match step
    case Acquire(i, token) => Some(Op.Create(key, Payload(i, token, c[i].priority)))
    case TakeoverRead(_, _) => Some(Op.Get(key))
    case TakeoverWrite(t) =>
      var o := s.takeovers[t];
      Some(Op.Update(key, Payload(o.inst, o.token, c[o.inst].priority), o.read.rev))
    case BeatApply(h) =>
      var b := s.beats[h];
      Some(Op.Update(key, Payload(b.inst, b.token, c[b.inst].priority), b.rev))
    case Remove => Some(Op.Delete(key))
    case OtherKeyWrite => Some(elsewhere)
    case _ => None
  }

  /**
   On a store whose key looks like the cell, every step has the effect of its operation, and goes on as the
   reply says: a term begins under the revision that a Create or a takeover's Update returns, a heartbeat
   is applied under the revision that its Update returns, and everything else is refused.
   */
  lemma StepsAreOperations(c: Config, s: State, step: Step, kv: Kv<Payload>, key: string, elsewhere: Op<Payload>)
    requires Possible(c, s, step) && s.cell == CellOf(kv, key)
    requires elsewhere.key != key && Store.Step(kv, elsewhere).1.Wrote?
    ensures var op := OpOf(c, s, step, key, elsewhere);
            var s' := Apply(c, s, step);
            if op.None? then s'.cell == s.cell && s'.accepted == s.accepted
            else
              var (kv', reply) := Store.Step(kv, op.value);
              && s'.cell == CellOf(kv', key)
              && (match step
                  case Acquire(i, token) =>
                    if reply.Wrote? then s'.insts[i] == Inst(true, Some(i), token, reply.rev)
                    else s'.insts == s.insts
                  case TakeoverRead(i, token) =>
                    && reply.Found?
                    && var Entry(found, rev) := reply.entry;
                       if c[i].priority <= found.priority
                       then s'.insts[i] == s.insts[i].(leaderId := Some(found.id), revision := rev)
                       else s'.takeovers == s.takeovers + [Takeover(i, token, reply.entry, true)]
                  case TakeoverWrite(t) =>
                    var o := s.takeovers[t];
                    if reply.Wrote? then s'.insts[o.inst] == Inst(true, Some(o.inst), o.token, reply.rev)
                    else s'.insts == s.insts
                  case BeatApply(h) => s'.beats[h].outcome == if reply.Wrote? then Applied(reply.rev) else Rejected
                  case _ => s'.insts == s.insts)
  {
  }

  // ---------------------------------------------------------------------------------------------
  // Runs
  // ---------------------------------------------------------------------------------------------

  datatype Run = Run(states: seq<State>, steps: seq<Step>)

  ghost predicate Next(c: Config, s: State, step: Step, s': State) {
    Enabled(c, s, step) && s' == Apply(c, s, step)
  }

  ghost predicate IsRun(c: Config, r: Run) {
    && |r.states| == |r.steps| + 1
    && r.states[0] == Init(c)
    && forall k :: 0 <= k < |r.steps| ==> Next(c, r.states[k], r.steps[k], r.states[k + 1])
  }

  // ---------------------------------------------------------------------------------------------
  // What every step keeps
  // ---------------------------------------------------------------------------------------------

  /** If the revision is still the current one of the key, then instance i wrote it under the token. */
  ghost predicate Owns(c: Config, s: State, i: nat, rev: nat, token: nat) {
    && i < |c|
    && rev <= s.cell.rev
    && (s.cell.Matches(rev) ==> s.cell.entry.value.value == PayloadOf(c, i, token))
  }

  ghost predicate EntryOk(c: Config, s: State) {
    s.cell.entry.Some? ==>
      var e := s.cell.entry.value;
      && e.rev <= s.cell.rev
      && e.value.id < |c| == |s.insts|
      && e.value == PayloadOf(c, e.value.id, s.insts[e.value.id].token)
      && s.accepted != []
      && e.value.token == s.accepted[|s.accepted| - 1]
  }

  ghost predicate LeadersOk(c: Config, s: State) {
    forall i :: 0 <= i < |s.insts| && s.insts[i].isLeader ==> Owns(c, s, i, s.insts[i].revision, s.insts[i].token)
  }

  ghost predicate BeatOk(c: Config, s: State, b: Heartbeat) {
    && Owns(c, s, b.inst, b.rev, b.token)
    && (b.outcome.Applied? ==> Owns(c, s, b.inst, b.outcome.newRev, b.token))
  }

  ghost predicate BeatsOk(c: Config, s: State) {
    forall h :: 0 <= h < |s.beats| ==> BeatOk(c, s, s.beats[h])
  }

  ghost predicate TakeoverOk(c: Config, s: State, t: Takeover) {
    && t.inst < |c|
    && t.token in s.drawn
    && (t.pending ==> t.token !in s.accepted)
    && t.read.value.priority < c[t.inst].priority
    && t.read.rev <= s.cell.rev
    && (s.cell.Matches(t.read.rev) ==> s.cell.entry.value == t.read)
  }

  ghost predicate TakeoversOk(c: Config, s: State) {
    && (forall t :: 0 <= t < |s.takeovers| ==> TakeoverOk(c, s, s.takeovers[t]))
    && (forall t, u :: 0 <= t < u < |s.takeovers| ==> s.takeovers[t].token != s.takeovers[u].token)
  }

  ghost predicate Distinct(tokens: seq<nat>) {
    forall a, b :: 0 <= a < b < |tokens| ==> tokens[a] != tokens[b]
  }

  ghost predicate TokensOk(s: State) {
    && NO_TOKEN in s.drawn
    && NO_TOKEN !in s.accepted
    && (forall token :: token in s.accepted ==> token in s.drawn)
    && Distinct(s.accepted)
    && (forall t :: 0 <= t < |s.takeovers| ==> s.takeovers[t].token != NO_TOKEN)
  }

  ghost predicate Inv(c: Config, s: State) {
    && |s.insts| == |c|
    && EntryOk(c, s)
    && LeadersOk(c, s)
    && BeatsOk(c, s)
    && TakeoversOk(c, s)
    && TokensOk(s)
  }

  lemma InitInv(c: Config)
    ensures Inv(c, Init(c))
  {
  }

  lemma AcceptInv(c: Config, s: State, i: nat, token: nat)
    requires Inv(c, s) && i < |c|
    requires token in s.drawn && token != NO_TOKEN && token !in s.accepted
    requires forall t :: 0 <= t < |s.takeovers| && s.takeovers[t].pending ==> s.takeovers[t].token != token
    ensures Inv(c, Accept(c, s, i, token))
  {
  }

  lemma AcquireInv(c: Config, s: State, i: nat, token: nat)
    requires Inv(c, s) && Enabled(c, s, Acquire(i, token))
    ensures Inv(c, Apply(c, s, Acquire(i, token)))
  {
    var s1 := s.(drawn := s.drawn + {token});
    assert Inv(c, s1);
    if s.cell.Absent() {
      AcceptInv(c, s1, i, token);
    }
  }

  lemma TakeoverReadInv(c: Config, s: State, i: nat, token: nat)
    requires Inv(c, s) && Enabled(c, s, TakeoverRead(i, token))
    ensures Inv(c, Apply(c, s, TakeoverRead(i, token)))
  {
  }

  lemma TakeoverWriteInv(c: Config, s: State, t: nat)
    requires Inv(c, s) && Enabled(c, s, TakeoverWrite(t))
    ensures Inv(c, Apply(c, s, TakeoverWrite(t)))
  {
    var s1 := s.(takeovers := s.takeovers[t := s.takeovers[t].(pending := false)]);
    assert Inv(c, s1);
    if s.cell.Matches(s.takeovers[t].read.rev) {
      AcceptInv(c, s1, s.takeovers[t].inst, s.takeovers[t].token);
    }
  }

  lemma BeatApplyInv(c: Config, s: State, h: nat)
    requires Inv(c, s) && Enabled(c, s, BeatApply(h))
    ensures Inv(c, Apply(c, s, BeatApply(h)))
  {
    assert BeatOk(c, s, s.beats[h]);
  }

  lemma BeatResultInv(c: Config, s: State, h: nat)
    requires Inv(c, s) && Enabled(c, s, BeatResult(h))
    ensures Inv(c, Apply(c, s, BeatResult(h)))
  {
    assert BeatOk(c, s, s.beats[h]);
  }

  lemma LocalStepInv(c: Config, s: State, step: Step)
    requires step.BeatSend? || step.BeatTimeout? || step.Observe? || step.Demote? || step.Remove? || step.OtherKeyWrite?
    requires Inv(c, s) && Enabled(c, s, step)
    ensures Inv(c, Apply(c, s, step))
  {
  }

  lemma InvKept(c: Config, s: State, step: Step)
    requires Inv(c, s) && Enabled(c, s, step)
    ensures Inv(c, Apply(c, s, step))
  {
    match step
    case Acquire(i, token) => AcquireInv(c, s, i, token);
    case TakeoverRead(i, token) => TakeoverReadInv(c, s, i, token);
    case TakeoverWrite(t) => TakeoverWriteInv(c, s, t);
    case BeatApply(h) => BeatApplyInv(c, s, h);
    case BeatResult(h) => BeatResultInv(c, s, h);
    case _ => LocalStepInv(c, s, step);
  }

  lemma {:induction false} InvAlways(c: Config, r: Run, k: nat)
    requires IsRun(c, r) && k < |r.states|
    ensures Inv(c, r.states[k])
  {
    if k == 0 {
      InitInv(c);
    } else {
      InvAlways(c, r, k - 1);
      assert Next(c, r.states[k - 1], r.steps[k - 1], r.states[k - 1 + 1]);
      InvKept(c, r.states[k - 1], r.steps[k - 1]);
    }
  }
}
