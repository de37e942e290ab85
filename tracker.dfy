/** `Ackr`: per-Dag completion tracking with one 64-bit accumulator per Dag,
    using the XOR acking scheme of the Storm stream processor. */
module Tracker {
  import opened Wrappers
  import opened Bitwise
  import opened Ids
  import opened XorAlgebra

  /** What the tracker stores for one Dag: the task that owns it and the
      running ack value. */
  datatype Bucket = Bucket(task: Task, ack: Tuple)

  /** The bucket table after `insert`: `dag` gets a fresh bucket seeded with
      its own id, replacing any bucket it had. */
  function Inserted(m: map<Dag, Bucket>, dag: Dag, task: Task): (m': map<Dag, Bucket>)
    ensures m'.Keys == m.Keys + {dag}
    ensures m'[dag].task == task && m'[dag].ack.ToU64() == dag.ToU64()
    ensures forall d :: d in m && d != dag ==> m'[d] == m[d]
  {
    m[dag := Bucket(task, dag.AsTuple())]
  }

  /** The bucket table after `ack`: the tuple id is XORed into `dag`'s ack
      value when `dag` has a bucket; otherwise nothing changes. */
  function Acked(m: map<Dag, Bucket>, dag: Dag, tuple: Tuple): (m': map<Dag, Bucket>)
    ensures m'.Keys == m.Keys
    ensures forall d :: d in m && d != dag ==> m'[d] == m[d]
    ensures dag in m ==> m'[dag].task == m[dag].task && Xor(m'[dag].ack.id, tuple.id) == m[dag].ack.id
    ensures dag !in m ==> m' == m
  {
    if dag in m then
      XorSelfInverse(m[dag].ack.id, tuple.id);
      m[dag := Bucket(m[dag].task, Tuple(Xor(m[dag].ack.id, tuple.ToU64())))]
    else
      m
  }

  /** The bucket table after acking each of `tuples` on `dag`, first to last. */
  function AckAll(m: map<Dag, Bucket>, dag: Dag, tuples: seq<Tuple>): map<Dag, Bucket>
  {
    if tuples == [] then m else AckAll(Acked(m, dag, tuples[0]), dag, tuples[1..])
  }

  /** Acking a sequence of tuples XORs all of them into the one bucket at
      once, leaving the task, the key set and every other bucket alone. */
  lemma {:induction false} AckAllXorsAll(m: map<Dag, Bucket>, dag: Dag, tuples: seq<Tuple>)
    ensures AckAll(m, dag, tuples) ==
      if dag in m then m[dag := Bucket(m[dag].task, Tuple(Xor(m[dag].ack.id, XorAll(tuples))))] else m
  {
    if tuples == [] {
      if dag in m {
        XorZero(m[dag].ack.id);
        assert m[dag := Bucket(m[dag].task, Tuple(m[dag].ack.id))] == m;
      }
    } else {
      var m1 := Acked(m, dag, tuples[0]);
      AckAllXorsAll(m1, dag, tuples[1..]);
      if dag in m {
        XorAssoc(m[dag].ack.id, tuples[0].id, XorAll(tuples[1..]));
      }
    }
  }

  /** Acks on one Dag may arrive in any order: the same tuples, with the same
      multiplicities, give the same table. */
  lemma AckOrderIrrelevant(m: map<Dag, Bucket>, dag: Dag, xs: seq<Tuple>, ys: seq<Tuple>)
    requires multiset(xs) == multiset(ys)
    ensures AckAll(m, dag, xs) == AckAll(m, dag, ys)
  {
    AckAllXorsAll(m, dag, xs);
    AckAllXorsAll(m, dag, ys);
    XorAllPermutation(xs, ys);
  }

  /** Acking a tuple a second time removes it again: the table is back to
      what it was before the first ack. */
  lemma AckTwiceRestores(m: map<Dag, Bucket>, dag: Dag, tuple: Tuple)
    ensures Acked(Acked(m, dag, tuple), dag, tuple) == m
  {
    // Follows from the contract of Acked alone: the second ack XORs the
    // tuple back out of the value the first one produced.
  }

  /** Acks on different Dags do not interfere, and acks on the same Dag
      commute, so acks may be interleaved in any order. */
  lemma AcksCommute(m: map<Dag, Bucket>, d1: Dag, x1: Tuple, d2: Dag, x2: Tuple)
    ensures Acked(Acked(m, d1, x1), d2, x2) == Acked(Acked(m, d2, x2), d1, x1)
  {
    if d1 == d2 && d1 in m {
      XorAssoc(m[d1].ack.id, x1.id, x2.id);
      XorAssoc(m[d1].ack.id, x2.id, x1.id);
      XorComm(x1.id, x2.id);
    }
  }

  /** The tracker: one bucket per Dag, updated in place. */
  class Ackr {
    var buckets: map<Dag, Bucket>
    /** For each Dag with a bucket, the tuples XORed into it since it was
        last inserted, in arrival order. */
    ghost var acked: map<Dag, seq<Tuple>>

    /** Each ack value is the Dag's own id XORed with every tuple acked on
        it since its insertion, each counted with its parity. */
    ghost predicate Valid()
      reads this
    {
      && acked.Keys == buckets.Keys
      && forall d :: d in buckets ==> buckets[d].ack.id == Xor(d.id, XorAll(acked[d]))
    }

    /** A tracker with no buckets. */
    constructor ()
      ensures Valid() && buckets == map[] && acked == map[]
    {
      buckets := map[];
      acked := map[];
    }

    /** Starts (or restarts) tracking `dag`, owned by `task`; the ack value
        is seeded with the Dag's own id. */
    method Insert(dag: Dag, task: Task)
      requires Valid()
      modifies this
      ensures Valid()
      ensures buckets == Inserted(old(buckets), dag, task)
      ensures acked == old(acked)[dag := []]
    {
      buckets := buckets[dag := Bucket(task, dag.AsTuple())];
      acked := acked[dag := []];
      XorZero(dag.id);
    }

    /** XORs `tuple` into `dag`'s ack value; `None` when `dag` has no bucket,
        in which case nothing changes and no bucket is created. */
    method Ack(dag: Dag, tuple: Tuple) returns (r: Option<()>)
      requires Valid()
      modifies this
      ensures Valid()
      ensures r == if dag in old(buckets) then Some(()) else None
      ensures buckets == Acked(old(buckets), dag, tuple)
      ensures acked == if dag in old(buckets) then old(acked)[dag := old(acked)[dag] + [tuple]] else old(acked)
    {
      if dag in buckets {
        var b := buckets[dag];
        buckets := buckets[dag := Bucket(b.task, Tuple(Xor(b.ack.id, tuple.ToU64())))];
        XorAllSnoc(acked[dag], tuple);
        XorAssoc(dag.id, XorAll(acked[dag]), tuple.id);
        acked := acked[dag := acked[dag] + [tuple]];
        r := Some(());
      } else {
        r := None;
      }
    }

    /** Records that `tuple` was spawned under `dag`: the same XOR as `Ack`,
        with the not-found signal dropped. */
    method AddTuple(dag: Dag, tuple: Tuple)
      requires Valid()
      modifies this
      ensures Valid()
      ensures buckets == Acked(old(buckets), dag, tuple)
      ensures acked == if dag in old(buckets) then old(acked)[dag := old(acked)[dag] + [tuple]] else old(acked)
    {
      var _ := Ack(dag, tuple);
    }

    /** The current ack value of `dag`, which must have a bucket. */
    function Get(dag: Dag): (t: Tuple)
      reads this
      requires Valid() && dag in buckets
      ensures t.id == Xor(dag.id, XorAll(acked[dag]))
    {
      buckets[dag].ack
    }

    /** Whether `dag`'s ack value is zero, which happens exactly when the
        tuples acked on it XOR to the Dag's own id. */
    function HasCompleted(dag: Dag): (c: bool)
      reads this
      requires Valid() && dag in buckets
      ensures c <==> Get(dag).ToU64() == 0
      ensures c <==> XorAll(acked[dag]) == dag.id
    {
      XorZeroIff(dag.id, XorAll(acked[dag]));
      buckets[dag].ack.ToU64() == 0
    }
  }

  /** Two trackers that saw the same acks on a Dag since its insertion, in
      any order, report the same ack value for it. */
  lemma SameAcksSameValue(a: Ackr, b: Ackr, dag: Dag)
    requires a.Valid() && b.Valid() && dag in a.buckets && dag in b.buckets
    requires multiset(a.acked[dag]) == multiset(b.acked[dag])
    ensures a.Get(dag) == b.Get(dag)
  {
    XorAllPermutation(a.acked[dag], b.acked[dag]);
  }

  /** Once every tuple added to a Dag has been acked, with adds and acks
      interleaved in any order, its ack value is back to the seed, the Dag's
      own id. */
  lemma BalancedReturnsToSeed(a: Ackr, dag: Dag, added: seq<Tuple>, done: seq<Tuple>)
    requires a.Valid() && dag in a.buckets
    requires multiset(a.acked[dag]) == multiset(added + done) && multiset(done) == multiset(added)
    ensures a.Get(dag) == dag.AsTuple()
  {
    XorAllPermutation(a.acked[dag], added + done);
    BalancedCancels(added, done);
    XorZero(dag.id);
  }

  /** The completion promise: when the history holds every added tuple, each
      acked once, plus one ack of the Dag's own id (which cancels the seed),
      in any order, the Dag has completed. */
  lemma AllAckedCompletes(a: Ackr, dag: Dag, added: seq<Tuple>, done: seq<Tuple>)
    requires a.Valid() && dag in a.buckets
    requires multiset(a.acked[dag]) == multiset(added + done + [dag.AsTuple()])
    requires multiset(done) == multiset(added)
    ensures a.HasCompleted(dag)
  {
    XorAllPermutation(a.acked[dag], added + done + [dag.AsTuple()]);
    XorAllSnoc(added + done, dag.AsTuple());
    BalancedCancels(added, done);
    XorZero(dag.id);
  }
}
