/** The state file behind a brain or a pack, as far as crash safety is concerned. */
module Storage {
  import opened Machine
  import opened Runs

  /** The file at `persist_path`. A write may fail before it starts or part of the way through. */
  class StateFile {
    /** Whether writes to it succeed. */
    const healthy: bool

    var bytes: Option<Bytes>

    constructor (healthy: bool, bytes: Option<Bytes>)
      ensures this.healthy == healthy && this.bytes == bytes
    {
      this.healthy, this.bytes := healthy, bytes;
    }

    /** What an attempt to save `data` over `before` leaves. */
    ghost predicate Wrote(before: Option<Bytes>, data: Bytes)
      reads this
    {
      WriteOutcome(before, data, bytes) && (healthy ==> bytes == Some(data))
    }

    method Write(data: Bytes) returns (ok: bool)
      modifies this
      ensures Wrote(old(bytes), data)
      ensures ok ==> bytes == Some(data)
      ensures healthy ==> ok
    {
      if healthy {
        bytes := Some(data);
        return true;
      }
      var started: bool := *;
      var cut :| 0 <= cut <= |data|;
      ok := started && cut >= |data|;
      if started {
        bytes := Some(if cut >= |data| then data else data[..cut]);
      }
    }
  }
}
