/** Chain points. */
module Points {
  import opened Bytes

  datatype Point = Origin | Specific(slot: U64, hash: Bytes)

  function SlotOrDefault(p: Point): nat {
    if p.Specific? then p.slot else 0
  }
}
