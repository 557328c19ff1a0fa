/** The user-side reader of the ring: two indices that chase the driver's last filled block. */
module Consumer {
  import opened Modular

  datatype Stream = Stream(count: u32, indexDma: u32, indexPc: u32)

  function NextIndex(index: u32, count: u32): u32 {
    if Inc(index) >= count then 0 else Inc(index)
  }

  function Restart(s: Stream): Stream {
    s.(indexDma := MINUS_ONE, indexPc := MINUS_ONE)
  }

  /** The driver's index is read again only when everything known has been taken. */
  function Observe(s: Stream, lastBlock: u32): Stream {
    if s.indexPc == s.indexDma then s.(indexDma := lastBlock) else s
  }

  predicate Ready(s: Stream) {
    s.indexPc != s.indexDma
  }

  function Take(s: Stream): Stream {
    s.(indexPc := NextIndex(s.indexPc, s.count))
  }
}
