/** The three identifier newtypes of the tracker: a `Dag` (a unit of work
    that spawns tuples), a `Tuple` (one piece of work inside a Dag) and a
    `Task` (the worker that owns a Dag, stored but never interpreted). */
module Ids {
  import opened Bitwise

  /** A Dag id: an opaque 64-bit value chosen by the caller. */
  datatype Dag = Dag(id: u64)
  {
    /** The raw 64-bit value of the id. */
    function ToU64(): (r: u64)
      ensures Dag(r) == this
    {
      id
    }

    /** The same 64 bits read as a tuple id; this is the seed of the Dag's
        accumulator. */
    function AsTuple(): (t: Tuple)
      ensures t.ToU64() == ToU64()
    {
      Tuple(ToU64())
    }
  }

  /** A tuple id, and also the type of a Dag's running ack value. */
  datatype Tuple = Tuple(id: u64)
  {
    /** The raw 64-bit value of the id. */
    function ToU64(): (r: u64)
      ensures Tuple(r) == this
    {
      id
    }
  }

  /** A task id: 32-bit metadata recorded with each Dag. */
  datatype Task = Task(id: u32)
  {
    /** The raw 32-bit value of the id. */
    function ToU32(): (r: u32)
      ensures Task(r) == this
    {
      id
    }
  }
}
