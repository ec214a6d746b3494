/** The pool allocator: pieces of a few large blocks, all given back together. */
module FlowMpool {
  import opened Wrappers
  import opened HttpTypes

  const MPOOL_BLOCK_SIZE: nat := 24 * 1024

  /** One more than the largest size_t. */
  const SIZE_T: nat := 0x1_0000_0000_0000_0000

  /** What malloc has given out and free has not taken back. */
  class Arena {
    var live: set<object>

    constructor ()
      ensures live == {}
    {
      live := {};
    }

    /** malloc of something new. */
    method Take(o: object)
      requires o !in live
      modifies this
      ensures live == old(live) + {o}
    {
      live := live + {o};
    }

    /** free: nothing may be freed twice. */
    method Free(o: object)
      requires o in live
      modifies this
      ensures live == old(live) - {o}
    {
      live := live - {o};
    }
  }

  /** struct mpool_block; `free` is an offset into `bp`. */
  class Block {
    var size: nat
    const bp: array<Byte>
    var free: nat
    var next: Block?

    /** mpool_new_block; a size of 0 stands for the default. */
    constructor (n: nat)
      ensures fresh(bp) && free == 0 && next == null
      ensures size == bp.Length == (if n == 0 then MPOOL_BLOCK_SIZE else n)
    {
      var m := if n == 0 then MPOOL_BLOCK_SIZE else n;
      bp := new Byte[m](_ => NUL);
      size, free, next := m, 0, null;
    }
  }

  /** A piece of the memory of a block that was handed out. */
  datatype Extent = Extent(block: Block, off: nat, len: nat)

  /** Two pieces do not overlap. */
  predicate Disjoint(e: Extent, f: Extent) {
    e.block.bp != f.block.bp || e.off + e.len <= f.off || f.off + f.len <= e.off
  }

  /** A piece lies within the memory of its block. */
  predicate Fits(e: Extent) { e.off + e.len <= e.block.bp.Length }

  /** The characters of a string before its terminator. */
  type CString = s: Bytes | NUL !in s witness []

  /** A piece of a memory holds the first `n` characters of a string, filled up with terminators, and one more. */
  predicate Holds(bytes: Bytes, off: nat, str: Bytes, n: nat) {
    off + n < |bytes| && (forall i :: 0 <= i < n ==> bytes[off + i] == At(str, i)) && bytes[off + n] == NUL
  }

  /** Nothing but a piece of a memory was written to. */
  predicate OnlyWithin(before: Bytes, bytes: Bytes, off: nat, len: nat) {
    |bytes| == |before| && forall j :: 0 <= j < |bytes| && !(off <= j < off + len) ==> bytes[j] == before[j]
  }

  /** What was held elsewhere is still held. */
  lemma StillHolds(before: Bytes, bytes: Bytes, off: nat, len: nat, off': nat, str: Bytes, n: nat)
    requires OnlyWithin(before, bytes, off, len) && Holds(before, off', str, n)
    requires off + len <= off' || off' + n < off
    ensures Holds(bytes, off', str, n)
  {
  }

  predicate AllDisjoint(extents: seq<Extent>) {
    forall i, j :: 0 <= i < j < |extents| ==> Disjoint(extents[i], extents[j])
  }

  lemma DisjointMore(extents: seq<Extent>, e: Extent)
    requires AllDisjoint(extents) && forall k :: 0 <= k < |extents| ==> Disjoint(extents[k], e)
    ensures AllDisjoint(extents + [e])
  {
    hide Disjoint;
  }

  /** Sizes are rounded up to a multiple of 16. */
  function Rounded(size: nat): nat {
    (size + 15) % SIZE_T / 16 * 16
  }

  /** Rounding up works exactly for sizes of which the sum with 15 does not wrap around; the others become 0. */
  lemma RoundedUp(size: nat)
    requires size < SIZE_T
    ensures size <= Rounded(size) <==> size + 15 < SIZE_T
    ensures size + 15 < SIZE_T ==> Rounded(size) < size + 16
    ensures size + 15 >= SIZE_T ==> Rounded(size) == 0
    ensures Rounded(size) % 16 == 0
  {
  }

  /** The blocks and their memory: what malloc was called for. */
  ghost function Parts(blocks: seq<Block>): set<object> {
    if blocks == [] then {} else {blocks[0], blocks[0].bp} + Parts(blocks[1..])
  }

  ghost predicate Different(blocks: seq<Block>) {
    forall i, j :: 0 <= i < j < |blocks| ==> blocks[i] != blocks[j] && blocks[i].bp != blocks[j].bp
  }

  lemma {:induction false} InParts(blocks: seq<Block>, o: object)
    ensures o in Parts(blocks) <==> exists i :: 0 <= i < |blocks| && (o == blocks[i] || o == blocks[i].bp)
  {
    if blocks != [] {
      InParts(blocks[1..], o);
      if i :| 0 <= i < |blocks| && (o == blocks[i] || o == blocks[i].bp) {
        assert i > 0 ==> blocks[1..][i - 1] == blocks[i];
      }
      if i :| 0 <= i < |blocks[1..]| && (o == blocks[1..][i] || o == blocks[1..][i].bp) {
        assert blocks[1..][i] == blocks[i + 1];
      }
    }
  }

  lemma FirstNotInRest(blocks: seq<Block>)
    requires Different(blocks) && blocks != []
    ensures blocks[0] !in Parts(blocks[1..]) && blocks[0].bp !in Parts(blocks[1..]) && Different(blocks[1..])
  {
    InParts(blocks[1..], blocks[0]);
    InParts(blocks[1..], blocks[0].bp);
    assert forall i :: 0 <= i < |blocks[1..]| ==> blocks[1..][i] == blocks[i + 1];
  }

  class Mpool {
    const arena: Arena
    var block: Block?

    /** The blocks, newest first, and what was handed out, oldest first. */
    ghost var blocks: seq<Block>
    ghost var extents: seq<Extent>

    static function NextOf(blocks: seq<Block>, i: nat): Block? {
      if i + 1 < |blocks| then blocks[i + 1] else null
    }

    /** The blocks are linked, different, and no block is larger than a newer one. */
    ghost predicate Chained()
      reads this, blocks
    {
      && blocks != [] && block == blocks[0]
      && (forall i {:trigger NextOf(blocks, i)} :: 0 <= i < |blocks| ==> blocks[i].next == NextOf(blocks, i))
      && Different(blocks)
      && (forall i, j :: 0 <= i < j < |blocks| ==> blocks[j].size <= blocks[i].size)
      && (forall i :: 0 <= i < |blocks| ==> Sized(blocks[i]))
    }

    /** The used part of a block lies within its memory. */
    static ghost predicate Sized(b: Block)
      reads b
    {
      b.size == b.bp.Length && b.free <= b.size && b.free % 16 == 0
    }

    /** What was handed out lies at multiples of 16 in the used part of a block. */
    ghost predicate Placed(e: Extent)
      reads this, blocks
    {
      e.off % 16 == 0 && e.block in blocks && e.off + e.len <= e.block.free
    }

    ghost predicate AllPlaced()
      reads this, blocks
    {
      forall i :: 0 <= i < |extents| ==> Placed(extents[i])
    }

    /** The pool and all of its blocks are allocated. */
    ghost predicate Live()
      reads this, arena
    {
      {this as object} + Parts(blocks) <= arena.live && this !in Parts(blocks)
    }

    ghost predicate Valid()
      reads this, blocks, arena
    {
      Chained() && AllPlaced() && AllDisjoint(extents) && Live()
    }

    /** mpool_create. */
    constructor (a: Arena, size: nat)
      modifies a
      ensures Valid() && arena == a && extents == [] && fresh(this)
      ensures |blocks| == 1 && fresh(blocks[0]) && fresh(blocks[0].bp)
      ensures a.live == old(a.live) + {this} + Parts(blocks)
    {
      arena := a;
      var b := new Block(size);
      block, blocks, extents := b, [b], [];
      new;
      a.Take(this);
      a.Take(b);
      a.Take(b.bp);
      assert blocks[1..] == [];
    }

    /** A new block in front of the others; what was handed out stays where it is. */
    method Grow(blockSize: nat)
      requires Valid() && block.size <= blockSize && blockSize > 0
      modifies this`block, this`blocks, arena
      ensures Valid() == true && extents == old(extents) && blocks == [block] + old(blocks)
      ensures fresh(block) && fresh(block.bp) && block.size == blockSize && block.free == 0
      ensures arena.live == old(arena.live) + {block, block.bp}
    {
      var newBlock := new Block(blockSize);
      arena.Take(newBlock);
      arena.Take(newBlock.bp);
      newBlock.next := block;
      Prepend(newBlock);
    }

    /** The chain with a block in front. */
    method Prepend(newBlock: Block)
      requires Valid() && newBlock.next == block && newBlock !in blocks && newBlock.bp.Length == newBlock.size >= block.size
      requires newBlock.free == 0 && {newBlock, newBlock.bp as object} <= arena.live && newBlock.bp !in Parts(blocks)
      modifies this`block, this`blocks
      ensures Valid() == true && block == newBlock && blocks == [newBlock] + old(blocks)
    {
      hide AllDisjoint;
      ghost var before := blocks;
      block := newBlock;
      blocks := [newBlock] + before;
      assert forall i :: 0 < i < |blocks| ==> blocks[i] == before[i - 1];
      forall i | 0 <= i < |before| ensures before[i].bp != newBlock.bp {
        InParts(before, before[i].bp);
      }
      assert Different(blocks) by { hide Sized; }
      forall i | 0 <= i < |blocks| ensures blocks[i].next == NextOf(blocks, i) && Sized(blocks[i]) {
        if i > 0 {
          assert old(before[i - 1].next) == NextOf(before, i - 1) && old(Sized(before[i - 1]));
        }
      }
      forall k | 0 <= k < |extents| ensures Placed(extents[k]) {
        assert old(Placed(extents[k]));
      }
      assert blocks[1..] == before;
    }

    /** The used part of the newest block grows. */
    method Advance(n: nat)
      requires Chained() && AllPlaced() && n <= block.size - block.free && n % 16 == 0
      modifies block`free
      ensures Chained() == true && AllPlaced() == true
      ensures block.free == old(block.free) + n
    {
      assert Sized(blocks[0]);
      block.free := block.free + n;
      forall i | 0 <= i < |blocks| ensures blocks[i].next == NextOf(blocks, i) && Sized(blocks[i]) {
        assert old(blocks[i].next) == NextOf(blocks, i) && old(Sized(blocks[i]));
      }
      forall k | 0 <= k < |extents| ensures Placed(extents[k]) {
        assert old(Placed(extents[k]));
      }
    }

    /** A piece of the newest block. */
    method Carve(n: nat) returns (e: Extent)
      requires Valid() && n <= block.size - block.free && n % 16 == 0
      modifies block`free, this`extents
      ensures Valid() == true && blocks == old(blocks) && extents == old(extents) + [e]
      ensures e == Extent(block, old(block.free), n) && e.off + n <= block.bp.Length && block.free == old(block.free) + n
    {
      e := Extent(block, block.free, n);
      NoOverlap(e);
      DisjointMore(extents, e);
      Advance(n);
      hide AllDisjoint, Disjoint;
      ghost var before := extents;
      extents := extents + [e];
      NewestPlaced(e);
    }

    /** The newest piece is placed if the used part ends with it. */
    lemma NewestPlaced(e: Extent)
      requires Chained() && extents != [] && extents[|extents| - 1] == e
      requires e.block == block && e.off % 16 == 0 && e.off + e.len <= block.free
      requires forall k :: 0 <= k < |extents| - 1 ==> Placed(extents[k])
      ensures AllPlaced()
    {
    }

    /** What lies behind the used part of the newest block was not handed out yet. */
    lemma NoOverlap(e: Extent)
      requires Valid() && e.block == block && e.off == block.free
      ensures forall k :: 0 <= k < |extents| ==> Disjoint(extents[k], e)
    {
      forall k | 0 <= k < |extents| ensures Disjoint(extents[k], e) {
        assert Placed(extents[k]);
      }
    }

    /** A piece lies within the memory of its block. */
    lemma PlacedFits(e: Extent)
      requires Chained() && Placed(e)
      ensures Fits(e)
    {
      var i :| 0 <= i < |blocks| && blocks[i] == e.block;
      assert Sized(blocks[i]);
    }

    /** All pieces lie within the memory of their blocks. */
    lemma AllFit()
      requires Chained() && AllPlaced()
      ensures forall k :: 0 <= k < |extents| ==> Fits(extents[k])
    {
      forall k | 0 <= k < |extents| ensures Fits(extents[k]) {
        assert Placed(extents[k]);
        PlacedFits(extents[k]);
      }
    }

    /**
     * mpool_malloc: nothing for a size of 0, else a piece that overlaps none of the earlier ones, which stay
     * where they are. It has at least this size exactly if the size does not wrap around when it is rounded;
     * else it has no bytes at all. It is the next piece of the newest block exactly if there is room for it
     * there; else the first one of a new block, which is as large as the newest one was, or as the piece.
     */
    method Malloc(size: nat) returns (r: Option<Extent>)
      requires Valid() && size < SIZE_T
      modifies this`block, this`blocks, this`extents, block`free, arena
      ensures Valid()
      ensures r.None? <==> size == 0
      ensures extents == if r.Some? then old(extents) + [r.value] else old(extents)
      ensures forall k :: 0 <= k < |extents| ==> Fits(extents[k])
      ensures r.Some? ==> r.value.block == block && (size <= r.value.len <==> size + 15 < SIZE_T)
      ensures r.Some? ==> if size + 15 < SIZE_T then r.value.len < size + 16 else r.value.len == 0
      ensures r.Some? ==> r.value.len % 16 == 0 && block.free == r.value.off + r.value.len
      ensures r.Some? ==> (blocks == old(blocks) <==> r.value.len <= old(block.size - block.free))
      ensures r.Some? && blocks == old(blocks) ==> r.value.off == old(block.free)
      ensures r.Some? && blocks != old(blocks) ==>
                r.value.off == 0 && block.size == if r.value.len > old(block.size) then r.value.len else old(block.size)
      ensures blocks != old(blocks) ==> old(block).free == old(block.free)
      ensures r.None? ==> blocks == old(blocks) && block.free == old(block.free)
      ensures blocks == old(blocks) || (blocks == [block] + old(blocks) && fresh(block) && fresh(block.bp))
      ensures blocks == old(blocks) ==> block == old(block)
      ensures arena.live == if blocks == old(blocks) then old(arena.live) else old(arena.live) + {block, block.bp}
    {
      AllFit();
      if block == null || size == 0 {
        return None;
      }
      var n := Rounded(size);
      RoundedUp(size);
      var remain := block.size - block.free;
      if remain < n {
        Grow(if n > block.size then n else block.size);
      }
      var e := Carve(n);
      AllFit();
      r := Some(e);
    }

    /**
     * mpool_strndup: a copy of the first `n` characters of a string. Nothing else is written to: neither
     * in the block the copy is in, nor in the one that was the newest before.
     */
    method Strndup(str: Option<CString>, n: nat) returns (r: Option<Extent>)
      requires Valid() && n + 1 + 15 < SIZE_T
      modifies this`block, this`blocks, this`extents, block`free, block.bp, arena
      ensures Valid()
      ensures r.None? <==> str.None?
      ensures extents == if r.Some? then old(extents) + [r.value] else old(extents)
      ensures r.Some? ==> r.value.block == block && n < r.value.len && Holds(block.bp[..], r.value.off, str.value, n)
      ensures block == old(block) || (fresh(block) && fresh(block.bp) && old(block).bp[..] == old(block.bp[..]))
      ensures r.Some? && block == old(block) ==> OnlyWithin(old(block.bp[..]), block.bp[..], r.value.off, r.value.len)
      ensures r.None? ==> block == old(block) && block.bp[..] == old(block.bp[..])
    {
      hide Valid, Disjoint, Holds, OnlyWithin;
      HasBlock();
      if str.None? {
        return None;
      }
      r := Malloc(n + 1);
      assert extents[|extents| - 1] == r.value;
      Fill(str.value, n, r.value.block.bp, r.value.off, r.value.len);
    }

    /** strncpy and the terminator after it. */
    method Fill(str: Bytes, n: nat, bp: array<Byte>, off: nat, ghost len: nat)
      requires n < len && off + len <= bp.Length
      modifies bp
      ensures Holds(bp[..], off, str, n) && OnlyWithin(old(bp[..]), bp[..], off, len)
    {
      var i := 0;
      while i < n
        invariant 0 <= i <= n
        invariant forall j :: 0 <= j < i ==> bp[off + j] == At(str, j)
        invariant OnlyWithin(old(bp[..]), bp[..], off, len)
      {
        bp[off + i] := At(str, i);
        i := i + 1;
      }
      bp[off + n] := NUL;
    }

    lemma HasBlock()
      requires Valid()
      ensures block != null
    {
    }

    lemma NewestDisjoint(before: seq<Extent>, e: Extent)
      requires Valid() && extents == before + [e]
      ensures forall k :: 0 <= k < |before| ==> Disjoint(before[k], e)
    {
      forall k | 0 <= k < |before| ensures Disjoint(before[k], e) {
        assert extents[k] == before[k] && extents[|before|] == e;
      }
    }

    /** mpool_strdup. */
    method Strdup(str: Option<CString>) returns (r: Option<Extent>)
      requires Valid() && (str.Some? ==> |str.value| + 16 < SIZE_T)
      modifies this`block, this`blocks, this`extents, block`free, block.bp, arena
      ensures Valid()
      ensures r.None? <==> str.None?
      ensures extents == if r.Some? then old(extents) + [r.value] else old(extents)
      ensures r.Some? ==> r.value.block == block && |str.value| < r.value.len
                          && Holds(block.bp[..], r.value.off, str.value, |str.value|)
      ensures block == old(block) || (fresh(block) && fresh(block.bp) && old(block).bp[..] == old(block.bp[..]))
      ensures r.Some? && block == old(block) ==> OnlyWithin(old(block.bp[..]), block.bp[..], r.value.off, r.value.len)
      ensures r.None? ==> block == old(block) && block.bp[..] == old(block.bp[..])
    {
      hide Valid, Disjoint, Holds, OnlyWithin;
      HasBlock();
      if str.None? {
        return None;
      }
      r := Strndup(str, |str.value|);
    }

    /** Strings that were duplicated stay as they are, whatever is duplicated after them. */
    method TwoStrings(a: CString, b: CString) returns (x: Extent, y: Extent)
      requires Valid() && |a| + 16 < SIZE_T && |b| + 16 < SIZE_T
      modifies this`block, this`blocks, this`extents, block`free, block.bp, arena
      ensures Valid() && Disjoint(x, y)
      ensures Holds(x.block.bp[..], x.off, a, |a|) && Holds(y.block.bp[..], y.off, b, |b|)
    {
      hide Valid, Holds, OnlyWithin;
      var first := Strdup(Some(a));
      x := first.value;
      ghost var before, bytes := extents, block.bp[..];
      var second := Strdup(Some(b));
      y := second.value;
      NewestDisjoint(before, y);
      assert Disjoint(before[|before| - 1], y);
      if y.block == x.block {
        StillHolds(bytes, y.block.bp[..], y.off, y.len, x.off, a, |a|);
      }
    }

    /** mpool_free: every block and its memory is freed, once, and the pool. */
    method Free()
      requires Valid()
      modifies arena
      ensures arena.live == old(arena.live) - {this} - Parts(blocks)
    {
      // there always is a block
      assert block != null;
      ghost var others := arena.live - Parts(blocks);
      assert blocks[0..] == blocks;
      var p := block;
      ghost var i := 0;
      while p != null
        invariant 0 <= i <= |blocks| && p == (if i < |blocks| then blocks[i] else null)
        invariant arena.live == others + Parts(blocks[i..]) && Different(blocks[i..]) && Parts(blocks[i..]) <= Parts(blocks)
        decreases |blocks| - i
      {
        var pNext := p.next;
        assert pNext == NextOf(blocks, i);
        FirstNotInRest(blocks[i..]);
        assert blocks[i..][1..] == blocks[i + 1..] && blocks[i..][0] == p;
        arena.Free(p.bp);
        arena.Free(p);
        p := pNext;
        i := i + 1;
      }
      assert blocks[i..] == [];
      arena.Free(this);
    }
  }
}
