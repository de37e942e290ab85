# ackr in Dafny

A model of `Ackr` (src/lib.rs), a tracker that tells when a *Dag* (a unit of
work that spawns many *tuples*) has completed, using one 64-bit value per Dag.
This is the XOR acking scheme of the Storm stream processor. `insert` seeds a
Dag's ack value with the Dag's own id. `add_tuple` and `ack` both XOR a tuple id
into it. `has_completed` asks whether the value is zero.

Files and modules:

- `bitwise.dfy`, module `Bitwise`: Rust's `u64`/`u32` as integer ranges, and
  `^` on `u64` written out bit by bit (`BitXor`). It proves that `^` stays in 64
  bits, is associative and commutative, has 0 as its unit, and cancels itself.
- `ids.dfy`, module `Ids`: the newtypes `Dag`, `Tuple` and `Task` with
  `to_u64`, `as_tuple` and `to_u32`.
- `wrappers.dfy`, module `Wrappers`: the `Option` that `ack` returns.
- `xor_algebra.dfy`, module `XorAlgebra`: `XorAll`, the XOR of a sequence of
  tuple ids. It proves that the order and the grouping of the XORs do not
  matter, and that a tuple XORed twice cancels.
- `tracker.dfy`, module `Tracker`: the class `Ackr`, whose field `buckets` is a
  `map<Dag, Bucket>` updated in place by `Insert`, `Ack` and `AddTuple`. `Get`
  and `HasCompleted` are read-only functions. The pure functions `Inserted`,
  `Acked` and `AckAll` give the table after each operation. The lemmas about
  them cover self-inverse acks, order independence and acks that commute.
  A ghost field `acked` records, for each Dag, the tuples XORed in since it was
  last inserted. The class invariant `Valid()` says each ack value equals the
  Dag id XOR `XorAll(acked[dag])`.
- `scenarios.dfy`, module `TrackerScenarios`: the three unit tests
  (src/lib.rs:93-121). Each is proved first for any ids, then for the ids the
  test uses.

Representation choices:

- A `u64` is an integer in `[0, 2^64)`. Its exclusive or is defined bit by bit,
  lowest bit first. This is Rust's `^` on `u64`, which can never overflow
  (`BitXorFits`). Dafny's `bv64` was not used: its `^` inside map, sequence
  and quantifier contexts made the tracker's proofs run out of solver
  resources. The integer form needs its own lemmas about XOR, and in return
  those proofs stay small.
- The Rust `HashMap` is a Dafny `map`.
- The `(Task, Tuple)` pair is the datatype `Bucket(task, ack)`.
- `get` and `has_completed` index the map directly and panic on a missing Dag.
  Here they `require` the Dag to have a bucket.
- `get` and `has_completed` take `&mut self` in Rust but never write. Here they
  are functions that only read.

## Model

| member | source | states |
|---|---|---|
| Ids.Dag.ToU64 | src/lib.rs:7-9 | the raw value gives back the same Dag |
| Ids.Dag.AsTuple | src/lib.rs:11-13 | the tuple a Dag turns into carries exactly the Dag's 64 bits |
| Ids.Tuple.ToU64 | src/lib.rs:20-22 | the raw value gives back the same tuple |
| Ids.Task.ToU32 | src/lib.rs:29-31 | the raw value gives back the same task |
| Bitwise.Xor | src/lib.rs:72 | every bit of `a ^ b` is set exactly when `a` and `b` differ in that bit. The lemmas `BitXorFits`, `XorAssoc`, `XorComm`, `XorZero` and `XorSelfInverse` give its algebra |
| Bitwise.XorExamples | src/lib.rs:72 | `3 ^ 4 == 7` and `12 ^ 10 == 6` |
| Bitwise.BitXorFits | src/lib.rs:72 | `^` of two `u64` values is again a `u64` (it cannot overflow) |
| Bitwise.XorAssoc | src/lib.rs:72 | `^` on `u64` is associative |
| Bitwise.XorComm | src/lib.rs:72 | `^` on `u64` is commutative |
| Bitwise.XorZero | src/lib.rs:72 | 0 is the unit of `^` on either side |
| Bitwise.XorSelfInverse | src/lib.rs:68-69 | a value XORed with itself is 0, so XORing the same id in twice restores the old value |
| Bitwise.XorCancel | src/lib.rs:72 | XORing with a fixed value is injective |
| Bitwise.XorZeroIff | src/lib.rs:85 | `p ^ q == 0` exactly when `p == q` |
| XorAlgebra.XorAllConcat | src/lib.rs:41-43 | the XOR of a concatenation is the XOR of the XORs of its parts |
| XorAlgebra.XorAllSnoc | src/lib.rs:71-72 | XORing one more tuple id into an accumulator extends the folded sequence by that tuple |
| XorAlgebra.XorAllPermutation | src/lib.rs:41-43 | two sequences with the same tuples and multiplicities XOR to the same value, whatever the order |
| XorAlgebra.XorTwiceCancels | src/lib.rs:68-69 | the same tuple twice in a row leaves the XOR unchanged |
| XorAlgebra.BalancedCancels | src/lib.rs:41-43 | when the acked tuples are a permutation of the added ones, everything cancels to 0 |
| Tracker.Inserted | src/lib.rs:57-60 | after insert, the key set gains `dag` and its bucket holds the given task and an ack value equal to the Dag id. An existing bucket is overwritten. Every other bucket is unchanged |
| Tracker.Acked | src/lib.rs:70-78 | after ack, the key set is unchanged and every other bucket is unchanged. A present Dag keeps its task, and its new value XOR the tuple gives back the old value. An absent Dag leaves the table identical |
| Tracker.AckAllXorsAll | src/lib.rs:41-43 | acking a sequence of tuples on one Dag XORs the XOR of all of them into that one bucket and touches nothing else |
| Tracker.AckOrderIrrelevant | src/lib.rs:41-43 | acks on one Dag may arrive in any order: permuted sequences give the same table |
| Tracker.AckTwiceRestores | src/lib.rs:68-69 | acking a tuple twice gives back the table as it was before the first ack |
| Tracker.AcksCommute | src/lib.rs:41-43 | any two acks commute, on the same Dag or on different ones |
| Tracker.Ackr.constructor | src/lib.rs:50-55 | a new tracker has no buckets |
| Tracker.Ackr.Insert | src/lib.rs:57-60 | the new table is `Inserted(old table)`, the Dag's ack history restarts empty, and the invariant is kept |
| Tracker.Ackr.Ack | src/lib.rs:68-78 | returns `Some(())` exactly when the Dag has a bucket. The new table is `Acked(old table)`. On a hit the tuple is appended to the Dag's ack history; on a miss nothing changes |
| Tracker.Ackr.AddTuple | src/lib.rs:62-66 | the same effect on the table and the history as `Ack`; the result is dropped |
| Tracker.Ackr.Get | src/lib.rs:80-82 | the ack value is the Dag id XOR every tuple acked since the insert, each counted by its parity |
| Tracker.Ackr.HasCompleted | src/lib.rs:84-86 | true exactly when `Get` is 0, that is, exactly when the acked tuples XOR to the Dag's own id |
| Tracker.SameAcksSameValue | src/lib.rs:41-43 | two trackers that saw the same acks on a Dag, in any order, report the same value |
| Tracker.BalancedReturnsToSeed | src/lib.rs:41-43 | once every added tuple has been acked, with adds and acks interleaved in any order, the ack value is back to the seed (the Dag id) |
| Tracker.AllAckedCompletes | src/lib.rs:43 | when the acks are, as a multiset, the adds plus the Dag's own id, in any order, the Dag has completed |
| TrackerScenarios.InsertThenGet | src/lib.rs:93-98 | right after insert, `get` returns the Dag id as a tuple, and the Dag counts as completed only if its id is 0 |
| TrackerScenarios.AckSeedCompletes | src/lib.rs:100-106 | inserting a Dag and acking its own id completes it |
| TrackerScenarios.AddThenAckInReverse | src/lib.rs:108-121 | adding two tuples and acking them in reverse order brings the value back to the seed; completed only if the Dag id is 0 |
| TrackerScenarios.AckUnknownDag | src/lib.rs:75-77 | acking a Dag without a bucket returns `None` and creates no bucket |
| TrackerScenarios.TestNew | src/lib.rs:93-98 | Dag 1 inserted for task 2 reads back tuple 1 |
| TrackerScenarios.TestAck | src/lib.rs:100-106 | Dag 1 acked with tuple 1 has completed |
| TrackerScenarios.TestAck2 | src/lib.rs:108-121 | Dag 1 with tuples 3 and 4 added, then acked as 4 and 3, reads tuple 1 and has not completed |

## Left out

- Hashing, the internals of `HashMap`, and the derived `PartialEq`, `Eq`, `Hash`, `Debug`, `Copy` and `Clone` impls (src/lib.rs:3, 16, 25, 44). A Dafny `map` with datatype keys gives the same lookup behaviour.
- The panic on a missing Dag in `get` and `has_completed`. It is a precondition here, not a runtime fault.
- Any meaning of `Task`. The tracker stores it and never reads it.
- The claim that the scheme "scales to 2^64 tuples" (src/lib.rs:38-39) is about collision probability. It is not a functional property. No lemma says that a zero ack value means every tuple was acked exactly once; `HasCompleted` states the exact condition instead.
- Removing buckets, timeouts, message transport and thread safety. None of these exist in the source.
