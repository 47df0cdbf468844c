/** Memory nodes and the sizes of requests. Addresses inside a node are offsets from its start. */
module MemNodes {
  const BOUNDARY_SIZE := 0x2000
  const MIN_ALLOC := 0x4000
  const MAX_INDEX := 20
  const SIZEOF_MEMNODE := 48
  const WORD32 := 0x1_0000_0000
  const WORD64 := 0x1_0000_0000_0000_0000

  class MemNode {
    const index: nat
    var next: MemNode?
    /** The node whose next is this one; the source keeps the address of that next. */
    var prev: MemNode?
    var freeIndex: nat
    var firstAvail: nat

    constructor (index: nat)
      ensures this.index == index && firstAvail == SIZEOF_MEMNODE && freeIndex == 0 && next == null && prev == null
    {
      this.index, next, prev, freeIndex, firstAvail := index, null, null, 0, SIZEOF_MEMNODE;
    }

    /** The offset of the end of the node: it spans index + 1 boundary units. */
    function Endp(): nat { (index + 1) * BOUNDARY_SIZE }
  }

  /** Rounding up to a multiple of boundary, in 64-bit arithmetic. */
  function Align(size: nat, boundary: nat): (r: nat)
    requires boundary > 0
  {
    var s := (size + (boundary - 1)) % WORD64;
    s - s % boundary
  }

  /** The bytes a request needs from the system, or none when the request cannot be represented. */
  function RequestSize(inSize: nat): (r: nat)
  {
    var size := Align((inSize + SIZEOF_MEMNODE) % WORD64, BOUNDARY_SIZE) % WORD32;
    if size < inSize then 0 else if size < MIN_ALLOC then MIN_ALLOC else size
  }

  /** The largest node a 32-bit size allows. */
  const MAX_NODE_INDEX := 0x7_FFFE

  /** The largest request that fits: beyond it the 32-bit size would not. */
  const MAX_REQUEST := WORD32 - BOUNDARY_SIZE - SIZEOF_MEMNODE

  /** For every 64-bit request: refused exactly above MAX_REQUEST, and otherwise large enough. */
  lemma RequestAdequate(inSize: nat)
    requires inSize < WORD64
    ensures RequestSize(inSize) == 0 <==> inSize > MAX_REQUEST
    ensures RequestSize(inSize) != 0 ==>
      && RequestSize(inSize) >= inSize + SIZEOF_MEMNODE && RequestSize(inSize) % BOUNDARY_SIZE == 0
      && MIN_ALLOC <= RequestSize(inSize) < WORD32
      && (RequestSize(inSize) == MIN_ALLOC || RequestSize(inSize) < inSize + SIZEOF_MEMNODE + BOUNDARY_SIZE)
  {
  }
}
