/** The optional result that `Ackr::ack` returns: `Some(())` when the Dag
    has a bucket, `None` when it has none. */
module Wrappers {
  datatype Option<+T> = None | Some(value: T)
}
