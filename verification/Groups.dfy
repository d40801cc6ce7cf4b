/**
 Election groups are keys of one bucket, and all keys share one revision counter.  This module
 proves that the groups nevertheless do not interfere: what one key sees of any interleaving is a
 history on that key alone, up to an order-preserving renumbering of revisions.
 */
module Groups {
  import opened Store

  /** The revisions given to writes of the key by the first n operations, in order. */
  ghost function Issued<V>(ops: seq<Op<V>>, key: string, n: nat): seq<nat>
    requires n <= |ops|
  {
    if n == 0 then [] else
      var before := Issued(ops, key, n - 1);
      if ops[n - 1].key == key && ReplyAt(ops, n - 1).Wrote? then before + [ReplyAt(ops, n - 1).rev] else before
  }

  /** Renumbering: the k-th revision issued for the key becomes k; a number never issued becomes 0. */
  ghost function Rank(issued: seq<nat>, r: nat): nat {
    if issued == [] then 0
    else if issued[|issued| - 1] == r then |issued|
    else Rank(issued[..|issued| - 1], r)
  }

  ghost function RenumberOp<V>(op: Op<V>, issued: seq<nat>): Op<V> {
    if op.Update? then Op.Update(op.key, op.value, Rank(issued, op.expected)) else op
  }

  ghost function RenumberReply<V>(reply: Reply<V>, issued: seq<nat>): Reply<V> {
    match reply
    case Wrote(r) => Wrote(Rank(issued, r))
    case Found(e) => Found(Entry(e.value, Rank(issued, e.rev)))
    case _ => reply
  }

  /** The operations of the key among the first n, with expected revisions renumbered. */
  ghost function Project<V>(ops: seq<Op<V>>, key: string, n: nat): seq<Op<V>>
    requires n <= |ops|
  {
    if n == 0 then [] else
      var before := Project(ops, key, n - 1);
      if ops[n - 1].key == key then before + [RenumberOp(ops[n - 1], Issued(ops, key, n - 1))] else before
  }

  ghost predicate Increasing(s: seq<nat>) {
    forall i, j :: 0 <= i < j < |s| ==> s[i] < s[j]
  }

  lemma {:induction false} RankOfIssued(issued: seq<nat>, k: nat)
    requires Increasing(issued) && k < |issued|
    ensures Rank(issued, issued[k]) == k + 1
  {
    if k < |issued| - 1 {
      RankOfIssued(issued[..|issued| - 1], k);
    }
  }

  lemma {:induction false} RankOfOther(issued: seq<nat>, r: nat)
    requires r !in issued
    ensures Rank(issued, r) == 0
  {
    if issued != [] {
      RankOfOther(issued[..|issued| - 1], r);
    }
  }

  /** The renumbering keeps the order of the revisions that were issued, and merges none of them. */
  lemma RankKeepsOrder(issued: seq<nat>, r: nat, s: nat)
    requires Increasing(issued) && r in issued && s in issued
    ensures r < s <==> Rank(issued, r) < Rank(issued, s)
  {
    var i :| 0 <= i < |issued| && issued[i] == r;
    var j :| 0 <= j < |issued| && issued[j] == s;
    RankOfIssued(issued, i);
    RankOfIssued(issued, j);
  }

  /** Two numbers that rank alike are the same number, unless neither was issued. */
  lemma RankSeparates(issued: seq<nat>, r: nat, s: nat)
    requires Increasing(issued) && s in issued
    ensures Rank(issued, r) == Rank(issued, s) <==> r == s
  {
    var j :| 0 <= j < |issued| && issued[j] == s;
    RankOfIssued(issued, j);
    if r in issued {
      RankKeepsOrder(issued, r, s);
      RankKeepsOrder(issued, s, r);
    } else {
      RankOfOther(issued, r);
    }
  }

  ghost predicate Bounded(s: seq<nat>, top: nat) {
    forall k :: 0 <= k < |s| ==> 0 < s[k] <= top
  }

  lemma {:induction false} IssuedIncreases<V>(ops: seq<Op<V>>, key: string, n: nat)
    requires n <= |ops|
    ensures Increasing(Issued(ops, key, n)) && Bounded(Issued(ops, key, n), At(ops, n).rev)
  {
    if n > 0 {
      IssuedIncreases(ops, key, n - 1);
    }
  }

  lemma {:induction false} AtPrefix<V>(ops: seq<Op<V>>, more: seq<Op<V>>, n: nat)
    requires n <= |ops|
    ensures At(ops + more, n) == At(ops, n)
  {
    if n > 0 {
      AtPrefix(ops, more, n - 1);
    }
  }

  /** The shared store, seen from the key, is the store of the key alone with other revision numbers. */
  ghost predicate SameUpToRank<V>(shared: Kv<V>, alone: Kv<V>, key: string, issued: seq<nat>) {
    && alone.rev == |issued|
    && alone.data.Keys <= {key}
    && (key in shared.data <==> key in alone.data)
    && (key in shared.data ==>
          && shared.data[key].rev in issued
          && alone.data[key] == Entry(shared.data[key].value, Rank(issued, shared.data[key].rev)))
  }

  /** One operation of the key does the same on both stores. */
  lemma StepAlike<V>(shared: Kv<V>, alone: Kv<V>, op: Op<V>, issued: seq<nat>)
    requires Increasing(issued) && Bounded(issued, shared.rev)
    requires SameUpToRank(shared, alone, op.key, issued)
    ensures var (shared', reply) := Step(shared, op);
            var (alone', reply') := Step(alone, RenumberOp(op, issued));
            var issued' := if reply.Wrote? then issued + [reply.rev] else issued;
            && SameUpToRank(shared', alone', op.key, issued')
            && reply' == RenumberReply(reply, issued')
  {
    if op.Update? && op.key in shared.data {
      RankSeparates(issued, op.expected, shared.data[op.key].rev);
    }
  }

  /** The key alone, run on a store of its own, leaves the same entry as in the shared store. */
  lemma {:induction false} SameEntry<V>(ops: seq<Op<V>>, key: string, n: nat)
    requires n <= |ops|
    ensures var local := Project(ops, key, n);
            SameUpToRank(At(ops, n), At(local, |local|), key, Issued(ops, key, n))
  {
    if n > 0 {
      SameEntry(ops, key, n - 1);
      if ops[n - 1].key == key {
        LocalStep(ops, key, n - 1);
      }
    }
  }

  /** One operation of the key, on both stores. */
  lemma LocalStep<V>(ops: seq<Op<V>>, key: string, n: nat)
    requires n < |ops| && ops[n].key == key
    requires var local := Project(ops, key, n);
             SameUpToRank(At(ops, n), At(local, |local|), key, Issued(ops, key, n))
    ensures var (local, local') := (Project(ops, key, n), Project(ops, key, n + 1));
            && |local'| == |local| + 1
            && SameUpToRank(At(ops, n + 1), At(local', |local'|), key, Issued(ops, key, n + 1))
            && ReplyAt(local', |local|) == RenumberReply(ReplyAt(ops, n), Issued(ops, key, n + 1))
  {
    var local := Project(ops, key, n);
    IssuedIncreases(ops, key, n);
    AtPrefix(local, [RenumberOp(ops[n], Issued(ops, key, n))], |local|);
    StepAlike(At(ops, n), At(local, |local|), ops[n], Issued(ops, key, n));
  }

  /**
   Non-interference.  Whatever the other groups do in between, the operations of one key alone, run
   on a store of their own, get the same replies - the same successes, errors and payloads, with
   revisions renumbered - and leave the same entry.
   */
  lemma NonInterference<V>(ops: seq<Op<V>>, key: string, n: nat)
    requires n < |ops| && ops[n].key == key
    ensures var (local, local') := (Project(ops, key, n), Project(ops, key, n + 1));
            && |local'| == |local| + 1
            && SameUpToRank(At(ops, n + 1), At(local', |local'|), key, Issued(ops, key, n + 1))
            && ReplyAt(local', |local|) == RenumberReply(ReplyAt(ops, n), Issued(ops, key, n + 1))
  {
    SameEntry(ops, key, n);
    LocalStep(ops, key, n);
  }
}
