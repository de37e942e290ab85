/** The repository's unit tests as client code proved against the contracts
    of `Ackr`: first for any ids, then for the ids the tests use. */
module TrackerScenarios {
  import opened Wrappers
  import opened Bitwise
  import opened Ids
  import opened XorAlgebra
  import opened Tracker

  /** A freshly inserted Dag's ack value is its own id, so it has not
      completed unless its id is 0. */
  method InsertThenGet(dag: Dag, task: Task) returns (t: Tuple, done: bool)
    ensures t == dag.AsTuple()
    ensures done <==> dag.id == 0
  {
    var ackr := new Ackr();
    ackr.Insert(dag, task);
    XorZero(dag.id);
    t := ackr.Get(dag);
    done := ackr.HasCompleted(dag);
  }

  /** Acking a Dag's own id as a tuple cancels the seed: the Dag completes. */
  method AckSeedCompletes(dag: Dag, task: Task) returns (done: bool)
    ensures done
  {
    var ackr := new Ackr();
    ackr.Insert(dag, task);
    ghost var s := ackr.acked[dag];
    var _ := ackr.Ack(dag, dag.AsTuple());
    assert ackr.acked[dag] == s + [dag.AsTuple()];
    XorAllSnoc(s, dag.AsTuple());
    XorZero(dag.id);
    done := ackr.HasCompleted(dag);
  }

  /** Adding two tuples and acking them in the opposite order brings the ack
      value back to the seed; the Dag has completed only if its id is 0. */
  method AddThenAckInReverse(dag: Dag, task: Task, x: Tuple, y: Tuple) returns (t: Tuple, done: bool)
    ensures t == dag.AsTuple() && (done <==> dag.id == 0)
  {
    var ackr := new Ackr();
    ackr.Insert(dag, task);
    ghost var s0 := ackr.acked[dag];
    ackr.AddTuple(dag, x);
    ghost var s1 := ackr.acked[dag];
    assert s1 == s0 + [x];
    ackr.AddTuple(dag, y);
    ghost var s2 := ackr.acked[dag];
    assert s2 == s1 + [y];
    var _ := ackr.Ack(dag, y);
    ghost var s3 := ackr.acked[dag];
    assert s3 == s2 + [y];
    var _ := ackr.Ack(dag, x);
    assert ackr.acked[dag] == s3 + [x];
    XorAllSnoc(s0, x);
    XorAllSnoc(s1, y);
    XorAllSnoc(s2, y);
    XorAllSnoc(s3, x);
    XorSelfInverse(XorAll(s1), y.id);
    XorSelfInverse(XorAll(s0), x.id);
    XorZero(dag.id);
    t := ackr.Get(dag);
    done := ackr.HasCompleted(dag);
  }

  /** Acking on a Dag that has no bucket reports `None` and creates none. */
  method AckUnknownDag(dag: Dag, task: Task, other: Dag, x: Tuple) returns (r: Option<()>, created: bool)
    requires other != dag
    ensures r == None && !created
  {
    var ackr := new Ackr();
    ackr.Insert(dag, task);
    r := ackr.Ack(other, x);
    created := other in ackr.buckets;
  }

  /** Test `new`: Dag 1 inserted for task 2 reads back tuple 1. */
  method TestNew() returns (t: Tuple)
    ensures t == Tuple(1)
  {
    var done;
    t, done := InsertThenGet(Dag(1), Task(2));
  }

  /** Test `ack`: Dag 1 acked with tuple 1 has completed. */
  method TestAck() returns (done: bool)
    ensures done
  {
    done := AckSeedCompletes(Dag(1), Task(1));
  }

  /** Test `ack_2`: tuples 3 and 4 added and acked in reverse leave Dag 1 at
      tuple 1, not completed. */
  method TestAck2() returns (t: Tuple, done: bool)
    ensures t == Tuple(1) && !done
  {
    t, done := AddThenAckInReverse(Dag(1), Task(1), Tuple(3), Tuple(4));
  }
}
