/** Reference-counted blocks: DataBlock and BlockRef (src/buffer/block.h) and the pool
    that creates them (src/buffer/message_block_pool.cpp), used from one thread.
    Module PoolCounter has the counter of live blocks under concurrent use.

    The reference counts of a pool's blocks are one field of the pool, the multiset
    `counts`: the count of block b is counts[b], and add_ref and release change it by one.
    Every operation on handles states what it does to the handles and to the counts, so
    that the counts of a program are the multiset of the blocks its handles name. */
module Blocks {
  import opened Bytes

  // A block. What has been written to it is in the memory of its pool.
  class DataBlock {
    const storage: seq<Byte>            // as it was allocated: not zero-filled

    constructor (capacity: nat)
      ensures |storage| == capacity
    {
      var raw := new Byte[capacity];
      storage := raw[..];
    }
  }

  // The written blocks, by their identity: all handles to a block share its bytes.
  type Memory = map<DataBlock, seq<Byte>>

  function Payload(mem: Memory, b: DataBlock): (bytes: seq<Byte>)
    ensures |bytes| == |b.storage|
  {
    if b in mem && |mem[b]| == |b.storage| then mem[b] else b.storage
  }

  ghost function Named(counts: multiset<DataBlock>): set<DataBlock> {
    set b | b in counts
  }

  class MessageBlockPool {
    const blockSize: nat
    const maxLive: nat                  // 0: no cap, and then nothing is counted
    var live: nat
    var counts: multiset<DataBlock>     // the reference count of each live block
    var memory: Memory
    ghost var blocks: set<DataBlock>    // created and not destroyed

    constructor (blockSize: nat, maxLive: nat)
      ensures Valid() && blocks == {}
      ensures this.blockSize == blockSize && this.maxLive == maxLive
    {
      this.blockSize, this.maxLive := blockSize, maxLive;
      live, blocks, counts, memory := 0, {}, multiset{}, map[];
    }

    /** A block is live as long as its count is not zero, and the cap holds. */
    ghost predicate Valid()
      reads this
    {
      && (maxLive != 0 ==> live == |blocks| && live <= maxLive)
      && blocks == Named(counts)
    }

    method AddRef(b: DataBlock)
      requires Valid() && b in blocks
      modifies this`counts
      ensures Valid() && counts == old(counts) + multiset{b}
    {
      counts := counts + multiset{b};
    }

    // Drops one reference; dropping the last destroys the block.
    method Release(b: DataBlock)
      requires Valid() && b in counts
      modifies this`live, this`counts, this`blocks
      ensures Valid() && counts + multiset{b} == old(counts)
      ensures blocks == old(blocks) - (if old(counts)[b] == 1 then {b} else {})
    {
      counts := counts - multiset{b};
      if counts[b] == 0 {
        Destroy(b);
      }
    }

    // Only a live block can be destroyed, and then it is live no longer: no block is
    // destroyed twice.
    method Destroy(b: DataBlock)
      requires b in blocks && (maxLive != 0 ==> live > 0)
      modifies this`live, this`blocks
      ensures blocks == old(blocks) - {b}
      ensures live == old(live) - (if maxLive != 0 then 1 else 0)
    {
      if maxLive != 0 {
        live := live - 1;
      }
      blocks := blocks - {b};
    }

    // MessageBlockPool::acquire: a fresh block under an empty handle, or an invalid
    // handle at the cap. The caller owns the reference.
    method Acquire() returns (ref: BlockRef)
      requires Valid()
      modifies this`live, this`counts, this`blocks
      ensures Valid()
      ensures ref.begin == ref.end == 0 && counts == old(counts) + ref.Owned()
      ensures ref.blk == null <==> maxLive != 0 && |old(blocks)| >= maxLive
      ensures ref.blk == null ==> blocks == old(blocks)
      ensures ref.blk != null ==>
                && fresh(ref.blk) && |ref.blk.storage| == blockSize
                && blocks == old(blocks) + {ref.blk}
    {
      if maxLive != 0 {
        live := live + 1;                            // reserve a slot first
        if live - 1 >= maxLive {
          live := live - 1;                          // the cap was already reached
          return Invalid;
        }
      }
      var blk := new DataBlock(blockSize);
      blocks := blocks + {blk};
      counts := counts + multiset{blk};              // BlockRef(blk, 0, 0): 0 -> 1
      ref := BlockRef(blk, 0, 0);
    }
  }

  // The live window [begin, end) of a block, under a counted reference to it.
  datatype BlockRef = BlockRef(blk: DataBlock?, begin: nat, end: nat) {
    // The reference this handle owns, if it is valid.
    ghost function Owned(): multiset<DataBlock> {
      if blk == null then multiset{} else multiset{blk}
    }
  }

  const Invalid := BlockRef(null, 0, 0)

  // The references a run of handles owns.
  ghost function Held(refs: seq<BlockRef>): multiset<DataBlock> {
    if refs == [] then multiset{} else refs[0].Owned() + Held(refs[1..])
  }

  lemma {:induction false} HeldAppend(a: seq<BlockRef>, b: seq<BlockRef>)
    ensures Held(a + b) == Held(a) + Held(b)
  {
    if a == [] {
      assert a + b == b;
    } else {
      assert (a + b)[1..] == a[1..] + b;
      HeldAppend(a[1..], b);
    }
  }

  lemma {:induction false} HeldAt(s: seq<BlockRef>, i: nat)
    requires i < |s|
    ensures s[i].Owned() <= Held(s)
  {
    if i > 0 {
      HeldAt(s[1..], i - 1);
    }
  }

  lemma HeldUpdate(s: seq<BlockRef>, i: nat, r: BlockRef)
    requires i < |s|
    ensures s[i].Owned() <= Held(s)
    ensures Held(s[i := r]) + s[i].Owned() == Held(s) + r.Owned()
  {
    assert s == s[..i] + ([s[i]] + s[i + 1..]);
    assert s[i := r] == s[..i] + ([r] + s[i + 1..]);
    HeldAppend(s[..i], [s[i]] + s[i + 1..]);
    HeldAppend(s[..i], [r] + s[i + 1..]);
  }

  // The positions of the handles to b.
  ghost function HandlesTo(s: seq<BlockRef>, b: DataBlock): set<nat> {
    set i: nat | i < |s| && s[i].blk == b
  }

  lemma HandlesToSnoc(s: seq<BlockRef>, r: BlockRef, b: DataBlock)
    ensures |HandlesTo(s + [r], b)| == |HandlesTo(s, b)| + (if r.blk == b then 1 else 0)
  {
    var longer := HandlesTo(s + [r], b);
    if r.blk == b {
      assert longer == HandlesTo(s, b) + {|s|};
    } else {
      assert longer == HandlesTo(s, b);
    }
  }

  lemma {:induction false} HeldCounts(s: seq<BlockRef>, b: DataBlock)
    ensures Held(s)[b] == |HandlesTo(s, b)|
  {
    if s == [] {
      assert HandlesTo(s, b) == {};
    } else {
      var init, last := s[..|s| - 1], s[|s| - 1];
      HeldCounts(init, b);
      assert s == init + [last];
      HeldAppend(init, [last]);
      assert Held([last]) == last.Owned();
      HandlesToSnoc(init, last, b);
    }
  }

  /** When the handles of a program are s, each live block's count is the number of valid
      handles to it, and no handle names a block that was destroyed. */
  lemma CountsAreExact(pool: MessageBlockPool, s: seq<BlockRef>)
    requires pool.Valid() && pool.counts == Held(s)
    ensures forall b :: b in pool.blocks ==> pool.counts[b] == |HandlesTo(s, b)| > 0
    ensures forall i :: 0 <= i < |s| && s[i].blk != null ==> s[i].blk in pool.blocks
  {
    forall b | b in pool.blocks
      ensures pool.counts[b] == |HandlesTo(s, b)| > 0
    {
      HeldCounts(s, b);
    }
    forall i | 0 <= i < |s| && s[i].blk != null
      ensures s[i].blk in pool.blocks
    {
      HeldUpdate(s, i, Invalid);
      assert s[i].blk in s[i].Owned();
    }
  }

  lemma SumCancel<T>(a: multiset<T>, b: multiset<T>, c: multiset<T>)
    requires a + c == b + c
    ensures a == b
  {
    assert a == (a + c) - c && b == (b + c) - c;
  }

  lemma SumSwap<T>(a: multiset<T>, b: multiset<T>, c: multiset<T>)
    ensures a + b + c == a + c + b
  {
  }

  // BlockRef::reset. Gives the reference up, and with the last one the block. `rest` is
  // what all other handles own.
  method Reset(a: array<BlockRef>, i: nat, pool: MessageBlockPool, ghost rest: multiset<DataBlock>)
    requires pool.Valid() && i < a.Length && pool.counts == rest + a[i].Owned()
    modifies a, pool`live, pool`counts, pool`blocks
    ensures pool.Valid() && pool.counts == rest
    ensures a[i] == Invalid
    ensures forall k :: 0 <= k < a.Length && k != i ==> a[k] == old(a[k])
    ensures pool.blocks <= old(pool.blocks)
  {
    if a[i].blk != null {
      assert a[i].blk in a[i].Owned();
      pool.Release(a[i].blk);
      SumCancel(pool.counts, rest, a[i].Owned());
    }
    a[i] := Invalid;
  }

  // The destructor of a temporary. `rest` is what all other handles own.
  method Discard(r: BlockRef, pool: MessageBlockPool, ghost rest: multiset<DataBlock>)
    requires pool.Valid() && pool.counts == rest + r.Owned()
    modifies pool`live, pool`counts, pool`blocks
    ensures pool.Valid() && pool.counts == rest
    ensures pool.blocks <= old(pool.blocks)
  {
    if r.blk != null {
      assert r.blk in r.Owned();
      pool.Release(r.blk);
      SumCancel(pool.counts, rest, r.Owned());
    }
  }

  // Copy construction of a temporary.
  method Copy(r: BlockRef, pool: MessageBlockPool) returns (c: BlockRef)
    requires pool.Valid() && (r.blk != null ==> r.blk in pool.counts)
    modifies pool`counts
    ensures pool.Valid() && c == r && pool.counts == old(pool.counts) + r.Owned()
  {
    if r.blk != null {
      pool.AddRef(r.blk);
    }
    c := r;
  }

  // Copy assignment a[i] = b[j]. The new reference is taken before the old one is given
  // up, so two handles of one block never let its count reach zero on the way.
  method CopyAssign(a: array<BlockRef>, i: nat, b: array<BlockRef>, j: nat, pool: MessageBlockPool,
                    ghost rest: multiset<DataBlock>)
    requires pool.Valid() && i < a.Length && j < b.Length
    requires pool.counts == rest + a[i].Owned() && (b[j].blk != null ==> b[j].blk in pool.counts)
    modifies a, pool`live, pool`counts, pool`blocks
    ensures pool.Valid() && pool.counts == rest + a[i].Owned()
    ensures a[i] == old(b[j])
    ensures forall k :: 0 <= k < a.Length && k != i ==> a[k] == old(a[k])
  {
    if !(a == b && i == j) {
      var o := Copy(b[j], pool);
      Reset(a, i, pool, rest + o.Owned());
      a[i] := o;
    }
  }

  // Move assignment a[i] = std::move(b[j]): the reference changes hands. The range of
  // the source is left as it was.
  method MoveAssign(a: array<BlockRef>, i: nat, b: array<BlockRef>, j: nat, pool: MessageBlockPool,
                    ghost rest: multiset<DataBlock>)
    requires pool.Valid() && i < a.Length && j < b.Length
    requires a == b && i == j ==> pool.counts == rest
    requires !(a == b && i == j) ==> pool.counts == rest + a[i].Owned()
    modifies a, b, pool`live, pool`counts, pool`blocks
    ensures pool.Valid() && pool.counts == rest
    ensures a[i] == old(b[j])
    ensures forall k :: 0 <= k < a.Length && k != i && !(a == b && k == j) ==> a[k] == old(a[k])
    ensures forall k :: 0 <= k < b.Length && k != j && !(a == b && k == i) ==> b[k] == old(b[k])
    ensures !(a == b && i == j) ==> b[j] == old(b[j]).(blk := null)
  {
    if !(a == b && i == j) {
      Reset(a, i, pool, rest);
      a[i] := b[j];
      b[j] := b[j].(blk := null);
    }
  }

  // std::move of n handles into the empty slots at the front of another array.
  method MoveOut(a: array<BlockRef>, b: array<BlockRef>, from: nat, n: nat, pool: MessageBlockPool)
    requires pool.Valid() && a != b && n <= a.Length && from + n <= b.Length
    requires forall k :: 0 <= k < a.Length ==> a[k].blk == null
    modifies a, b, pool`live, pool`counts, pool`blocks
    ensures pool.Valid() && pool.counts == old(pool.counts)
    ensures forall k :: 0 <= k < n ==> a[k] == old(b[from + k])
    ensures forall k :: n <= k < a.Length ==> a[k].blk == null
    ensures forall k :: 0 <= k < b.Length ==> b[k] == if from <= k < from + n then old(b[k]).(blk := null) else old(b[k])
  {
    for i := 0 to n
      invariant pool.Valid() && pool.counts == old(pool.counts)
      invariant forall k :: 0 <= k < i ==> a[k] == old(b[from + k])
      invariant forall k :: i <= k < a.Length ==> a[k].blk == null
      invariant forall k :: 0 <= k < b.Length ==> b[k] == if from <= k < from + i then old(b[k]).(blk := null) else old(b[k])
    {
      MoveAssign(a, i, b, from + i, pool, pool.counts);
    }
  }

  // std::move of n handles down to the empty slots at the front of their own array.
  method MoveDown(a: array<BlockRef>, from: nat, n: nat, pool: MessageBlockPool)
    requires pool.Valid() && 0 < from && from + n <= a.Length
    requires forall k :: 0 <= k < from ==> a[k].blk == null
    modifies a, pool`live, pool`counts, pool`blocks
    ensures pool.Valid() && pool.counts == old(pool.counts)
    ensures forall k :: 0 <= k < n ==> a[k] == old(a[from + k])
    ensures forall k :: n <= k < from + n ==> a[k].blk == null
    ensures forall k :: from + n <= k < a.Length ==> a[k] == old(a[k])
  {
    for i := 0 to n
      invariant pool.Valid() && pool.counts == old(pool.counts)
      invariant forall k :: 0 <= k < i ==> a[k] == old(a[from + k])
      invariant forall k :: i <= k < from + i ==> a[k].blk == null
      invariant forall k :: from + i <= k < a.Length ==> a[k] == old(a[k])
    {
      MoveAssign(a, i, a, from + i, pool, pool.counts);
    }
  }
}
