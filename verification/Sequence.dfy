/** Sequence numbers from persisted blocks (common/src/sequence.rs). */
module Sequences {
  import opened ByteStrings
  import opened LogKeys
  import opened LogTables

  const DEFAULT_BLOCK_SIZE: u64 := 4096

  /** The reserved block and the next number to hand out. */
  datatype Alloc = Alloc(block: Option<SeqBlock>, next: u64) {
    function Remaining(): nat
    {
      if block.None? || block.value.NextBase() < next then 0 else block.value.NextBase() - next
    }

    /** Where the next block starts. */
    function Base(): nat
    {
      if block.None? then 0 else block.value.NextBase()
    }

    /** Numbers are handed out up to the end of the block. */
    predicate Ok()
    {
      if block.None? then next == 0 else next <= block.value.NextBase() <= U64_MAX
    }

    /** The block that serves `count` numbers stays within 64 bits. */
    predicate Room(count: nat)
    {
      count <= Remaining() || Base() + NextSize(count - Remaining()) <= U64_MAX
    }
  }

  function NextSize(needed: nat): nat
  {
    if needed < DEFAULT_BLOCK_SIZE then DEFAULT_BLOCK_SIZE else needed
  }

  datatype Allocation = Allocation(alloc: Alloc, base: u64, block: Option<SeqBlock>)

  function Reserve(a: Alloc, count: nat): Allocation
    requires a.Ok() && a.Room(count)
  {
    if a.Remaining() >= count then Allocation(a.(next := a.next + count), a.next, None)
    else
      var fromNew := count - a.Remaining();
      var b := SeqBlock(a.Base(), NextSize(fromNew));
      Allocation(Alloc(Some(b), b.baseSequence + fromNew),
                 if a.Remaining() > 0 then a.next else b.baseSequence, Some(b))
  }

  /** An allocation is exactly the next `count` numbers, also across blocks; a new block
      follows the old one without gap or overlap and holds the last of them. */
  lemma ReserveContiguous(a: Alloc, count: nat)
    requires a.Ok() && a.Room(count)
    ensures var r := Reserve(a, count);
            && r.base == a.next && r.alloc.next == a.next + count && r.alloc.Ok()
            && (r.block.None? <==> a.next + count <= a.Base())
            && (r.block.None? ==> r.alloc.block == a.block)
            && (r.block.Some? ==> r.alloc.block == r.block && r.block.value.baseSequence == a.Base())
            && (count > 0 ==> r.alloc.block.Some?)
            && a.Base() <= r.alloc.Base()
  {
  }

  /** The allocator after a restart: it never hands out a number of a stored block. */
  function Load(t: Table): Result<Alloc>
  {
    if SEQ_BLOCK_KEY !in t then Ok(Alloc(None, 0))
    else
      var b := DeserializeSeqBlock(t[SEQ_BLOCK_KEY]);
      if b.Err? then Err(b.error)
      else if b.value.NextBase() > U64_MAX then Err(Overflow)
      else Ok(Alloc(Some(b.value), b.value.NextBase()))
  }

  /** Loading reads the stored block and skips all of it. */
  lemma LoadIs(t: Table, c: Content)
    requires Represents(t, c) && (c.block.Some? ==> c.block.value.NextBase() <= U64_MAX)
    ensures Load(t) == Ok(Alloc(c.block, if c.block.None? then 0 else c.block.value.NextBase()))
  {
    if c.block.Some? {
      assert Holds(t, BlockRecord(c.block.value));
      SeqBlockRoundTrip(c.block.value);
    } else {
      NoBlockKey(t, c);
    }
  }

  lemma LoadReserves(t: Table, c: Content)
    requires Represents(t, c) && ContentOk(c)
    ensures var a := Alloc(c.block, if c.block.None? then 0 else c.block.value.NextBase());
            && Load(t) == Ok(a) && a.Ok()
            && (forall i :: 0 <= i < |c.log| ==> c.log[i].sequence < a.next)
            && (forall i :: 0 <= i < |c.segments| ==> c.segments[i].meta.startSeq < a.next)
  {
    hide Represents, Load;
    LoadIs(t, c);
  }

  lemma NoBlockKey(t: Table, c: Content)
    requires Represents(t, c) && c.block.None?
    ensures SEQ_BLOCK_KEY !in t
  {
  }

  class SequenceAllocator {
    var currentBlock: Option<SeqBlock>
    var nextSequence: u64

    function Value(): Alloc
      reads this
    {
      Alloc(currentBlock, nextSequence)
    }

    constructor (a: Alloc)
      ensures Value() == a
    {
      currentBlock, nextSequence := a.block, a.next;
    }

    function Remaining(): u64
      requires Value().Ok()
      reads this
    {
      if currentBlock.None? then 0 else currentBlock.value.NextBase() - nextSequence
    }

    /** The first number, and the record that reserves a new block if one was needed. */
    method Allocate(count: u64) returns (base: u64, record: Option<Record>)
      requires Value().Ok() && Value().Room(count)
      modifies this
      ensures Value() == Reserve(old(Value()), count).alloc && Value().Ok()
      ensures base == old(nextSequence) && nextSequence == base + count
      ensures record.None? ==> currentBlock == old(currentBlock)
      ensures record.Some? ==> currentBlock.Some? && record.value == BlockRecord(currentBlock.value)
      ensures record.Some? <==> Reserve(old(Value()), count).block.Some?
    {
      var remaining := Remaining();
      if remaining >= count {
        base, record := nextSequence, None;
        nextSequence := nextSequence + count;
        return;
      }
      var fromNewBlock := count - remaining;
      var newBlock := InitNextBlock(fromNewBlock);
      base := if remaining > 0 then nextSequence else newBlock.baseSequence;
      nextSequence := newBlock.baseSequence + fromNewBlock;
      currentBlock := Some(newBlock);
      record := Some(BlockRecord(newBlock));
    }

    function InitNextBlock(minCount: u64): (b: SeqBlock)
      requires Value().Ok() && Value().Base() + NextSize(minCount) <= U64_MAX
      reads this
      ensures b.baseSequence == Value().Base() && b.blockSize >= minCount && b.blockSize >= DEFAULT_BLOCK_SIZE
      ensures b.blockSize == minCount || b.blockSize == DEFAULT_BLOCK_SIZE
    {
      SeqBlock(if currentBlock.Some? then currentBlock.value.NextBase() else 0,
               if minCount < DEFAULT_BLOCK_SIZE then DEFAULT_BLOCK_SIZE else minCount)
    }
  }
}
