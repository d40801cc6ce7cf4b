/**
 The revision-checked key-value store that the elections cooperate through: one counter shared by
 all keys, create-if-absent, update-if-the-revision-matches, read and delete.  The first part is the
 store as a function on values, the second part is the mutable store object, and the third part
 proves what the store guarantees over whole histories of operations.
 */
module Store {

  datatype Option<+T> = None | Some(value: T)

  datatype Entry<+V> = Entry(value: V, rev: nat)

  datatype Fault = KeyExists | KeyNotFound | RevisionMismatch | Injected(message: string)

  /** The text that the store puts into the error it returns. */
  function Message(f: Fault): string {
    match f
    case KeyExists => "key already exists"
    case KeyNotFound => "key not found"
    case RevisionMismatch => "revision mismatch"
    case Injected(message) => message
  }

  datatype Op<+V> =
    | Create(key: string, value: V)
    | Update(key: string, value: V, expected: nat)
    | Get(key: string)
    | Delete(key: string)

  datatype Reply<+V> = Wrote(rev: nat) | Found(entry: Entry<V>) | Removed | Failed(fault: Fault)

  datatype Kv<V> = Kv(data: map<string, Entry<V>>, rev: nat)

  function Write<V>(s: Kv<V>, key: string, value: V): Kv<V> {
    Kv(s.data[key := Entry(value, s.rev + 1)], s.rev + 1)
  }

  /** One atomic operation. */
  function Step<V>(s: Kv<V>, op: Op<V>): (Kv<V>, Reply<V>) {
    match op
    case Create(key, value) =>
      if key in s.data then (s, Failed(KeyExists)) else (Write(s, key, value), Wrote(s.rev + 1))
    case Update(key, value, expected) =>
      if key !in s.data then (s, Failed(KeyNotFound))
      else if s.data[key].rev != expected then (s, Failed(RevisionMismatch))
      else (Write(s, key, value), Wrote(s.rev + 1))
    case Get(key) =>
      (s, if key in s.data then Found(s.data[key]) else Failed(KeyNotFound))
    case Delete(key) =>
      if key !in s.data then (s, Failed(KeyNotFound)) else (Kv(s.data - {key}, s.rev), Removed)
  }

  // ---------------------------------------------------------------------------------------------
  // The store object
  // ---------------------------------------------------------------------------------------------

  class KeyValue<V> {
    var data: map<string, Entry<V>>
    var rev: nat
    var failCreate: bool
    var failUpdate: bool
    var failGet: bool
    var failDelete: bool

    ghost function View(): Kv<V>
      reads this
    {
      Kv(data, rev)
    }

    constructor ()
      ensures View() == Kv(map[], 0) && data == map[] && rev == 0
      ensures !failCreate && !failUpdate && !failGet && !failDelete
    {
      data, rev := map[], 0;
      failCreate, failUpdate, failGet, failDelete := false, false, false, false;
    }

    method Create(key: string, value: V) returns (reply: Reply<V>)
      modifies this`data, this`rev
      ensures failCreate ==> reply == Failed(Injected("create failed")) && View() == old(View())
      ensures !failCreate && key in old(data) ==> reply == Failed(KeyExists) && View() == old(View())
      ensures !failCreate && key !in old(data) ==>
                && reply == Wrote(rev) && rev == old(rev) + 1
                && data == old(data)[key := Entry(value, rev)]
      ensures !failCreate ==> (View(), reply) == Step(old(View()), Op.Create(key, value))
    {
      if failCreate {
        return Failed(Injected("create failed"));
      }
      if key in data {
        return Failed(KeyExists);
      }
      rev := rev + 1;
      data := data[key := Entry(value, rev)];
      return Wrote(rev);
    }

    method Update(key: string, value: V, expected: nat) returns (reply: Reply<V>)
      modifies this`data, this`rev
      ensures failUpdate ==> reply == Failed(Injected("update failed")) && View() == old(View())
      ensures !failUpdate && key !in old(data) ==> reply == Failed(KeyNotFound) && View() == old(View())
      ensures !failUpdate && key in old(data) && old(data)[key].rev != expected ==>
                reply == Failed(RevisionMismatch) && View() == old(View())
      ensures !failUpdate && key in old(data) && old(data)[key].rev == expected ==>
                && reply == Wrote(rev) && rev == old(rev) + 1
                && data == old(data)[key := Entry(value, rev)]
      ensures !failUpdate ==> (View(), reply) == Step(old(View()), Op.Update(key, value, expected))
    {
      if failUpdate {
        return Failed(Injected("update failed"));
      }
      if key !in data {
        return Failed(KeyNotFound);
      }
      if data[key].rev != expected {
        return Failed(RevisionMismatch);
      }
      rev := rev + 1;
      data := data[key := Entry(value, rev)];
      return Wrote(rev);
    }

    method Get(key: string) returns (reply: Reply<V>)
      ensures failGet ==> reply == Failed(Injected("get failed"))
      ensures !failGet ==> reply == if key in data then Found(data[key]) else Failed(KeyNotFound)
      ensures !failGet ==> reply == Step(View(), Op.Get(key)).1
    {
      if failGet {
        return Failed(Injected("get failed"));
      }
      if key !in data {
        return Failed(KeyNotFound);
      }
      return Found(data[key]);
    }

    method Delete(key: string) returns (reply: Reply<V>)
      modifies this`data
      ensures failDelete ==> reply == Failed(Injected("delete failed")) && View() == old(View())
      ensures !failDelete ==> reply == (if key in old(data) then Removed else Failed(KeyNotFound))
      ensures !failDelete ==> data == old(data) - {key} && rev == old(rev)
      ensures !failDelete ==> (View(), reply) == Step(old(View()), Op.Delete(key))
    {
      if failDelete {
        return Failed(Injected("delete failed"));
      }
      if key !in data {
        return Failed(KeyNotFound);
      }
      data := data - {key};
      return Removed;
    }
  }

  // ---------------------------------------------------------------------------------------------
  // Histories
  // ---------------------------------------------------------------------------------------------

  /** The store after the first n operations of a history that starts from the empty store. */
  ghost function At<V>(ops: seq<Op<V>>, n: nat): Kv<V>
    requires n <= |ops|
  {
    if n == 0 then Kv(map[], 0) else Step(At(ops, n - 1), ops[n - 1]).0
  }

  /** What operation n of the history returned. */
  ghost function ReplyAt<V>(ops: seq<Op<V>>, n: nat): Reply<V>
    requires n < |ops|
  {
    Step(At(ops, n), ops[n]).1
  }

  ghost function Creates<V>(ops: seq<Op<V>>, key: string, n: nat): nat
    requires n <= |ops|
  {
    if n == 0 then 0 else
      Creates(ops, key, n - 1)
      + if ops[n - 1].Create? && ops[n - 1].key == key && ReplyAt(ops, n - 1).Wrote? then 1 else 0
  }

  ghost function Removals<V>(ops: seq<Op<V>>, key: string, n: nat): nat
    requires n <= |ops|
  {
    if n == 0 then 0 else
      Removals(ops, key, n - 1)
      + if ops[n - 1].Delete? && ops[n - 1].key == key && ReplyAt(ops, n - 1).Removed? then 1 else 0
  }

  ghost function Writes<V>(ops: seq<Op<V>>, n: nat): nat
    requires n <= |ops|
  {
    if n == 0 then 0 else Writes(ops, n - 1) + if ReplyAt(ops, n - 1).Wrote? then 1 else 0
  }

  /** Every key that was created and not removed is present, and nothing else is. */
  lemma {:induction false} Conservation<V>(ops: seq<Op<V>>, key: string, n: nat)
    requires n <= |ops|
    ensures Creates(ops, key, n) - Removals(ops, key, n) == if key in At(ops, n).data then 1 else 0
  {
    if n > 0 {
      Conservation(ops, key, n - 1);
    }
  }

  /** The successful writes of a history return 1, 2, 3, ... with no gap. */
  lemma {:induction false} RevisionsAreDense<V>(ops: seq<Op<V>>, n: nat)
    requires n <= |ops|
    ensures At(ops, n).rev == Writes(ops, n)
    ensures n < |ops| && ReplyAt(ops, n).Wrote? ==> ReplyAt(ops, n).rev == Writes(ops, n) + 1
  {
    if n > 0 {
      RevisionsAreDense(ops, n - 1);
    }
  }

  lemma {:induction false} CounterGrows<V>(ops: seq<Op<V>>, m: nat, n: nat)
    requires m <= n <= |ops|
    ensures At(ops, m).rev <= At(ops, n).rev
  {
    if m < n {
      CounterGrows(ops, m, n - 1);
    }
  }

  lemma RevisionsIncrease<V>(ops: seq<Op<V>>, i: nat, j: nat)
    requires i < j < |ops| && ReplyAt(ops, i).Wrote? && ReplyAt(ops, j).Wrote?
    ensures ReplyAt(ops, i).rev < ReplyAt(ops, j).rev
  {
    assert ReplyAt(ops, i).rev == At(ops, i + 1).rev;
    CounterGrows(ops, i + 1, j);
  }

  lemma {:induction false} EntriesAreOld<V>(ops: seq<Op<V>>, key: string, n: nat)
    requires n <= |ops|
    ensures key in At(ops, n).data ==> At(ops, n).data[key].rev <= At(ops, n).rev
  {
    if n > 0 {
      EntriesAreOld(ops, key, n - 1);
    }
  }

  /** The revision r, which the counter has already passed, is not the current one of the key. */
  ghost predicate Superseded<V>(s: Kv<V>, key: string, r: nat) {
    r <= s.rev && (key in s.data ==> s.data[key].rev != r)
  }

  /** No ABA: a revision that stopped being the current one of its key never is again. */
  lemma {:induction false} SupersededForever<V>(ops: seq<Op<V>>, key: string, r: nat, m: nat, n: nat)
    requires m <= n <= |ops|
    requires Superseded(At(ops, m), key, r)
    ensures Superseded(At(ops, n), key, r)
  {
    if m < n {
      SupersededForever(ops, key, r, m, n - 1);
    }
  }

  /** Among all updates of one key that expect the same revision, at most one ever succeeds. */
  lemma CompareAndSwapOnce<V>(ops: seq<Op<V>>, i: nat, j: nat)
    requires i < j < |ops| && ops[i].Update? && ops[j].Update?
    requires ops[i].key == ops[j].key && ops[i].expected == ops[j].expected
    ensures !(ReplyAt(ops, i).Wrote? && ReplyAt(ops, j).Wrote?)
  {
    if ReplyAt(ops, i).Wrote? {
      EntriesAreOld(ops, ops[i].key, i);
      SupersededForever(ops, ops[i].key, ops[i].expected, i + 1, j);
    }
  }

  // ---------------------------------------------------------------------------------------------
  // One key of the store
  // ---------------------------------------------------------------------------------------------

  /** What the store holds for one key, together with the counter that all keys share. */
  datatype Cell<V> = Cell(entry: Option<Entry<V>>, rev: nat) {
    predicate Absent() {
      entry.None?
    }

    /** Would an update that expects the revision r be applied? */
    predicate Matches(r: nat) {
      entry.Some? && entry.value.rev == r
    }

    function Put(v: V): Cell<V> {
      Cell(Some(Entry(v, rev + 1)), rev + 1)
    }

    function Removed(): Cell<V> {
      Cell(None, rev)
    }

    function Bump(): Cell<V> {
      Cell(entry, rev + 1)
    }
  }

  function CellOf<V>(s: Kv<V>, key: string): Cell<V> {
    Cell(if key in s.data then Some(s.data[key]) else None, s.rev)
  }

  /**
   Seen from one key, every operation on the store is one of: nothing, a write of this key, the
   removal of this key, or an increment of the counter caused by a write of some other key.
   */
  lemma StepOnCell<V>(s: Kv<V>, op: Op<V>, key: string)
    ensures var (s', reply) := Step(s, op);
            var (c, c') := (CellOf(s, key), CellOf(s', key));
            if op.key != key then c' == (if reply.Wrote? then c.Bump() else c)
            else match op {
              case Create(_, v) => (reply.Wrote? <==> c.Absent()) && c' == (if c.Absent() then c.Put(v) else c)
              case Update(_, v, r) => (reply.Wrote? <==> c.Matches(r)) && c' == (if c.Matches(r) then c.Put(v) else c)
              case Get(_) =>
                c' == c && (reply.Found? <==> !c.Absent()) && (reply.Found? ==> reply.entry == c.entry.value)
              case Delete(_) => (reply.Removed? <==> !c.Absent()) && c' == c.Removed()
            }
  {
  }
}
