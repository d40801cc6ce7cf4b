/**
 Token validation and the background loop that demotes a leader whose token fails twice in a row.
 The loop is the method Election.KvElection.ValidationLoop, which is proved to do what `React` says.
 */
module Validation {
  import opened Store
  import opened Protocol
  import Fencing

  datatype Field = Missing | WrongType | Value(n: nat)

  /** The stored value as the validation parses it. */
  datatype Parsed = Malformed | Parsed(token: Field, id: Field)

  /** What the read of the key gives before the validation times out. */
  datatype Read = TimedOut | ReadFailed(fault: Fault) | NoEntry | Value(parsed: Parsed)

  datatype Reason = NoToken | Timeout | GetFailed(fault: Fault) | NoTokenInKv | ParseError | InvalidTokenType
                  | TokenMismatch | MissingId | InvalidIdType | IdMismatch

  datatype Check = Check(valid: bool, err: Option<Reason>)

  function Invalid(reason: Reason): Check {
    Check(false, Some(reason))
  }

  /** `local` is the token that the instance holds when the validation begins. */
  function ValidateToken(local: nat, self: nat, doneBefore: bool, read: Read): Check {
    if local == NO_TOKEN then Invalid(NoToken)
    else if doneBefore then Invalid(Timeout)
    else match read
      case TimedOut => Invalid(Timeout)
      case ReadFailed(fault) => Invalid(GetFailed(fault))
      case NoEntry => Invalid(NoTokenInKv)
      case Value(Malformed) => Invalid(ParseError)
      case Value(Parsed(token, id)) =>
        if token.Missing? then Invalid(NoTokenInKv)
        else if token.WrongType? then Invalid(InvalidTokenType)
        else if local != token.n then Invalid(TokenMismatch)
        else if id.Missing? then Invalid(MissingId)
        else if id.WrongType? then Invalid(InvalidIdType)
        else if id.n != self then Invalid(IdMismatch)
        else Check(true, None)
  }

  /** Validation never answers "invalid" without an error, and succeeds only on an exact match. */
  lemma NeverSilentlyInvalid(local: nat, self: nat, doneBefore: bool, read: Read)
    ensures var check := ValidateToken(local, self, doneBefore, read);
            && check.valid == check.err.None?
            && (check.valid <==>
                  local != NO_TOKEN && !doneBefore && read == Read.Value(Parsed(Field.Value(local), Field.Value(self))))
  {
  }

  /** The error tells what was wrong, the first thing first. */
  lemma ReasonTells(local: nat, self: nat, doneBefore: bool, read: Read)
    ensures var err := ValidateToken(local, self, doneBefore, read).err;
            var asked := local != NO_TOKEN && !doneBefore;
            && (err == Some(NoToken) <==> local == NO_TOKEN)
            && (err == Some(Timeout) <==> local != NO_TOKEN && (doneBefore || read.TimedOut?))
            && (forall fault :: err == Some(GetFailed(fault)) <==> asked && read == ReadFailed(fault))
            && (err == Some(ParseError) <==> asked && read == Read.Value(Malformed))
            && (err == Some(NoTokenInKv) <==>
                  asked && (read.NoEntry? || (read.Value? && read.parsed.Parsed? && read.parsed.token.Missing?)))
            && (err == Some(TokenMismatch) <==>
                  && asked && read.Value? && read.parsed.Parsed?
                  && read.parsed.token.Value? && read.parsed.token.n != local)
            && (err == Some(IdMismatch) <==>
                  && asked && read.Value? && read.parsed.Parsed? && read.parsed.token == Field.Value(local)
                  && read.parsed.id.Value? && read.parsed.id.n != self)
  {
  }

  // ---------------------------------------------------------------------------------------------
  // Validation along a run of the protocol
  // ---------------------------------------------------------------------------------------------

  /** What a read that is answered sees in a state of the protocol. */
  ghost function ReadOf(s: State): Read {
    if s.cell.entry.None? then ReadFailed(KeyNotFound)
    else Read.Value(Parsed(Field.Value(s.cell.entry.value.value.token), Field.Value(s.cell.entry.value.value.id)))
  }

  /** An answer of the store at step k of the run, or a failure to get one. */
  ghost predicate Answers(r: Run, k: nat, read: Read)
    requires k < |r.states|
  {
    read.TimedOut? || (read.ReadFailed? && read.fault.Injected?) || read == ReadOf(r.states[k])
  }

  /** A token that validates is the newest one that the store ever accepted, and is held by its owner. */
  lemma OnlyNewestValidates(c: Config, r: Run, k: nat, local: nat, self: nat, doneBefore: bool, read: Read)
    requires IsRun(c, r) && k < |r.states| && Answers(r, k, read)
    requires ValidateToken(local, self, doneBefore, read).valid
    ensures var s := r.states[k];
            && s.accepted != [] && local == s.accepted[|s.accepted| - 1]
            && Fencing.Owner(s) == Some(self) && self < |s.insts| && s.insts[self].token == local
  {
    InvAlways(c, r, k);
  }

  /** A validation that is answered in time succeeds exactly if the key holds this token under this instance. */
  lemma ValidatesIff(c: Config, r: Run, k: nat, local: nat, self: nat)
    requires IsRun(c, r) && k < |r.states|
    ensures ValidateToken(local, self, false, ReadOf(r.states[k])).valid <==>
              Fencing.StoredToken(r.states[k]) == Some(local) && Fencing.Owner(r.states[k]) == Some(self)
  {
    InvAlways(c, r, k);
  }

  /**
   However many instances believe to lead, at most one of them validates: two validations whose reads fall
   into one stretch of the run without a new acceptance, at whatever states k <= m of it, belong to the same
   instance and term.
   */
  lemma AtMostOneValidates(c: Config, r: Run, k: nat, m: nat, local: nat, self: nat, read: Read,
                           local': nat, self': nat, read': Read)
    requires IsRun(c, r) && k <= m < |r.states| && r.states[k].accepted == r.states[m].accepted
    requires Answers(r, k, read) && ValidateToken(local, self, false, read).valid
    requires Answers(r, m, read') && ValidateToken(local', self', false, read').valid
    ensures self == self' && local == local'
  {
    OnlyNewestValidates(c, r, k, local, self, false, read);
    OnlyNewestValidates(c, r, m, local', self', false, read');
    Fencing.OwnerStable(c, r, k, m);
  }

  /** A token that was superseded - in the store once, and not any more - never validates again. */
  lemma SupersededNeverValidates(c: Config, r: Run, i: nat, j: nat, k: nat,
                                 local: nat, self: nat, doneBefore: bool, read: Read)
    requires IsRun(c, r) && i <= j <= k < |r.states| && Answers(r, k, read)
    requires Fencing.StoredToken(r.states[i]) == Some(local) && Fencing.StoredToken(r.states[j]) != Some(local)
    ensures !ValidateToken(local, self, doneBefore, read).valid
  {
    Fencing.NeverReturns(c, r, i, j, k, local);
  }

  // ---------------------------------------------------------------------------------------------
  // The loop
  // ---------------------------------------------------------------------------------------------

  const MAX_FAILURES: nat := 2

  datatype Event = ContextDone | Ticked(leader: bool, check: Check)

  datatype Verdict = Continue | Leave | StepDown

  function React(fails: nat, e: Event): (nat, Verdict) {
    if e.ContextDone? || !e.leader then (fails, Leave)
    else if e.check.err.Some? then (fails + 1, if fails + 1 >= MAX_FAILURES then StepDown else Continue)
    else if !e.check.valid then (fails, StepDown)
    else (0, Continue)
  }

  ghost function At(es: seq<Event>, k: nat): nat
    requires k <= |es|
  {
    if k == 0 then 0 else React(At(es, k - 1), es[k - 1]).0
  }

  ghost function VerdictAt(es: seq<Event>, k: nat): Verdict
    requires k < |es|
  {
    React(At(es, k), es[k]).1
  }

  ghost predicate Alive(es: seq<Event>, k: nat)
    requires k <= |es|
  {
    forall j :: 0 <= j < k ==> VerdictAt(es, j) == Continue
  }

  ghost predicate Failed(e: Event) {
    e.Ticked? && e.leader && e.check.err.Some?
  }

  lemma {:induction false} FailsMeans(es: seq<Event>, k: nat)
    requires k <= |es| && Alive(es, k)
    ensures At(es, k) == if k > 0 && Failed(es[k - 1]) then 1 else 0
  {
    if k > 0 {
      FailsMeans(es, k - 1);
      assert VerdictAt(es, k - 1) == Continue;
    }
  }

  /** An answer that validateToken never gives, by NeverSilentlyInvalid. */
  ghost predicate SilentlyInvalid(e: Event) {
    e.Ticked? && e.leader && e.check.err.None? && !e.check.valid
  }

  /** The loop demotes at exactly the second failed validation in a row, and at a silent refusal. */
  lemma DemotesExactly(es: seq<Event>, k: nat)
    requires k < |es| && Alive(es, k)
    ensures VerdictAt(es, k) == StepDown <==>
              (k > 0 && Failed(es[k - 1]) && Failed(es[k])) || SilentlyInvalid(es[k])
  {
    FailsMeans(es, k);
  }

  /** It leaves without a demotion exactly if it finds its context done or the instance not leading. */
  lemma LeavesExactly(es: seq<Event>, k: nat)
    requires k < |es|
    ensures VerdictAt(es, k) == Leave <==> es[k].ContextDone? || !es[k].leader
  {
  }

  /** The check of tick k was made by instance `self`, holding `local`, at state at[k] of the run. */
  ghost predicate CheckedAt(r: Run, e: Event, pos: nat, local: nat, self: nat) {
    && pos < |r.states|
    && e.Ticked? && e.leader
    && exists doneBefore, read :: Answers(r, pos, read) && e.check == ValidateToken(local, self, doneBefore, read)
  }

  /**
   A superseded leader is demoted by its second validation tick after the loss: of the ticks k and k + 1,
   both made with the superseded token, one demotes.
   */
  lemma SupersededIsDemoted(c: Config, r: Run, i: nat, j: nat, local: nat, self: nat,
                            es: seq<Event>, k: nat, pos: nat, pos': nat)
    requires IsRun(c, r) && i <= j <= pos && j <= pos' && j < |r.states|
    requires Fencing.StoredToken(r.states[i]) == Some(local) && Fencing.StoredToken(r.states[j]) != Some(local)
    requires k + 1 < |es| && Alive(es, k)
    requires CheckedAt(r, es[k], pos, local, self) && CheckedAt(r, es[k + 1], pos', local, self)
    ensures VerdictAt(es, k) == StepDown || VerdictAt(es, k + 1) == StepDown
  {
    MustFail(c, r, i, j, local, self, es[k], pos);
    MustFail(c, r, i, j, local, self, es[k + 1], pos');
    FailsMeans(es, k);
  }

  lemma MustFail(c: Config, r: Run, i: nat, j: nat, local: nat, self: nat, e: Event, pos: nat)
    requires IsRun(c, r) && i <= j <= pos && j < |r.states| && CheckedAt(r, e, pos, local, self)
    requires Fencing.StoredToken(r.states[i]) == Some(local) && Fencing.StoredToken(r.states[j]) != Some(local)
    ensures Failed(e)
  {
    var doneBefore, read :| Answers(r, pos, read) && e.check == ValidateToken(local, self, doneBefore, read);
    SupersededNeverValidates(c, r, i, j, pos, local, self, doneBefore, read);
    NeverSilentlyInvalid(local, self, doneBefore, read);
  }
}
