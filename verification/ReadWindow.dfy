/** The block policy of TCPConnection::start_read and finish_read (src/TCPConnection.cpp):
    several deliveries share one block, and the socket writes only behind all of them. */
module ReadWindow {
  import opened Bytes
  import opened Blocks
  import opened Ranges

  // Below a quarter of the block size the rest of a block is not used for another read.
  function ReuseThreshold(blockSize: nat): nat {
    blockSize / 4
  }

  // The handle to the block the next read fills, between two reads: none, or an empty
  // range with at least the threshold of room behind it.
  predicate Positioned(c: BlockRef, blockSize: nat) {
    c.blk != null ==>
      && |c.blk.storage| == blockSize && c.begin == c.end <= blockSize
      && blockSize - c.begin >= ReuseThreshold(blockSize)
  }

  // Every one of the ranges that is in c's block ends at or before c's begin.
  predicate Behind(rs: seq<BlockRef>, c: BlockRef) {
    c.blk != null ==> forall r :: r in rs && r.blk == c.blk ==> r.end <= c.begin
  }

  // Whether a block that is filled up to `begin` is used for one more read.
  predicate Reused(blockSize: nat, begin: nat) {
    begin <= blockSize && blockSize - begin >= ReuseThreshold(blockSize)
  }

  // start_read() keeps the current block.
  predicate Kept(c: BlockRef, blockSize: nat) {
    c.blk != null && Reused(blockSize, c.begin)
  }

  // Where in its block the next read starts, after one that filled a block up to `begin`.
  function WindowBegin(blockSize: nat, begin: nat): nat {
    if Reused(blockSize, begin) then begin else 0
  }

  // The same for a handle, which may be to no block.
  function FirstFree(c: BlockRef, blockSize: nat): nat {
    if c.blk == null then 0 else WindowBegin(blockSize, c.begin)
  }

  // start_read() up to the read itself: goes on in the current block as long as that is
  // worth it, and otherwise acquires one. `rest` is what all handles but *current own, and
  // `others` are all other ranges. Fails at the cap.
  method StartRead(current: array<BlockRef>, pool: MessageBlockPool,
                   ghost rest: multiset<DataBlock>, ghost others: seq<BlockRef>) returns (ok: bool)
    requires current.Length == 1 && pool.Valid() && pool.counts == rest + current[0].Owned()
    requires Positioned(current[0], pool.blockSize) && Behind(others, current[0])
    modifies current, pool`live, pool`counts, pool`blocks
    ensures pool.Valid() && pool.counts == rest + current[0].Owned()
    ensures Positioned(current[0], pool.blockSize) && Behind(others, current[0])
    ensures ok <==> current[0].blk != null
    ensures Kept(old(current[0]), pool.blockSize) ==> ok && current[0] == old(current[0])
    ensures !Kept(old(current[0]), pool.blockSize) && ok ==> fresh(current[0].blk)
    ensures ok ==> current[0].begin == FirstFree(old(current[0]), pool.blockSize)
    ensures !Kept(old(current[0]), pool.blockSize) && !ok ==> pool.maxLive != 0 && |old(pool.blocks)| >= pool.maxLive
  {
    var threshold := ReuseThreshold(pool.blockSize);
    if current[0].blk == null || |current[0].blk.storage| - current[0].begin < threshold {
      var acquired := pool.Acquire();
      Reset(current, 0, pool, rest + acquired.Owned());
      current[0] := acquired;
    }
    ok := current[0].blk != null;
  }

  // What the socket stores at the start of the window: the block's other bytes stay.
  function Stored(mem: Memory, c: BlockRef, bytes: seq<Byte>): Memory
    requires c.blk != null && c.begin + |bytes| <= |c.blk.storage|
  {
    var was := Payload(mem, c.blk);
    mem[c.blk := was[..c.begin] + bytes + was[c.begin + |bytes|..]]
  }

  /** The bytes arrive in the window, and no range that ends behind it changes: the socket
      never writes bytes that somebody else holds. */
  lemma StoredOnlyInWindow(mem: Memory, c: BlockRef, bytes: seq<Byte>, rs: seq<BlockRef>)
    requires c.blk != null && c.begin + |bytes| <= |c.blk.storage| && Behind(rs, c)
    ensures Slice(Stored(mem, c, bytes), c.(end := c.begin + |bytes|)) == bytes
    ensures View(Stored(mem, c, bytes), rs) == View(mem, rs)
  {
    var next := Stored(mem, c, bytes);
    assert Payload(next, c.blk)[c.begin..c.begin + |bytes|] == bytes;
    ViewBehind(mem, c, bytes, rs);
  }

  lemma {:induction false} ViewBehind(mem: Memory, c: BlockRef, bytes: seq<Byte>, rs: seq<BlockRef>)
    requires c.blk != null && c.begin + |bytes| <= |c.blk.storage| && Behind(rs, c)
    ensures View(Stored(mem, c, bytes), rs) == View(mem, rs)
  {
    if rs != [] {
      assert rs[0] in rs;
      SliceBehind(mem, c, bytes, rs[0]);
      ViewBehind(mem, c, bytes, rs[1..]);
    }
  }

  lemma SameInside<T>(s: seq<T>, t: seq<T>, n: nat, from: nat, to: nat)
    requires n <= |s| && n <= |t| && s[..n] == t[..n] && from <= to <= n
    ensures s[from..to] == t[from..to]
  {
    forall k | 0 <= k < to - from
      ensures s[from..to][k] == t[from..to][k]
    {
      assert s[..n][from + k] == t[..n][from + k];
    }
  }

  lemma SliceBehind(mem: Memory, c: BlockRef, bytes: seq<Byte>, r: BlockRef)
    requires c.blk != null && c.begin + |bytes| <= |c.blk.storage| && (r.blk == c.blk ==> r.end <= c.begin)
    ensures Slice(Stored(mem, c, bytes), r) == Slice(mem, r)
  {
    if Fits(r) && r.blk == c.blk {
      var before, after := Payload(mem, c.blk), Payload(Stored(mem, c, bytes), c.blk);
      assert after[..c.begin] == before[..c.begin];
      SameInside(before, after, c.begin, r.begin, r.end);
    }
  }

  // finish_read() after n bytes arrived: a handle to them that shares the block, and
  // *current moves behind them, or gives the block up when less than the threshold is left.
  method FinishRead(current: array<BlockRef>, n: nat, pool: MessageBlockPool, ghost rest: multiset<DataBlock>,
                    ghost others: seq<BlockRef>) returns (delivered: BlockRef)
    requires current.Length == 1 && pool.Valid() && pool.counts == rest + current[0].Owned()
    requires Positioned(current[0], pool.blockSize) && Behind(others, current[0])
    requires current[0].blk != null && current[0].begin + n <= pool.blockSize
    modifies current, pool`live, pool`counts, pool`blocks
    ensures delivered == old(current[0]).(end := old(current[0]).begin + n) && Fits(delivered)
    ensures current[0] == if Reused(pool.blockSize, delivered.end) then delivered.(begin := delivered.end) else Invalid
    ensures pool.Valid() && pool.counts == rest + delivered.Owned() + current[0].Owned()
    ensures Positioned(current[0], pool.blockSize) && Behind(others + [delivered], current[0])
  {
    var c := current[0];
    assert c.blk in c.Owned();
    delivered := Copy(c.(end := c.begin + n), pool);
    current[0] := c.(begin := c.begin + n, end := c.begin + n);
    if |c.blk.storage| - (c.begin + n) < ReuseThreshold(pool.blockSize) {
      Reset(current, 0, pool, rest + delivered.Owned());
    }
  }

  // ---- Block sizes that are too small ----

  /** The window of a read has room, however full the last read left its block, exactly when
      the block size is at least 4. Below, the threshold is 0, so a full block is kept. */
  lemma WindowNeverEmptyIff(blockSize: nat)
    ensures (forall begin: nat :: begin <= blockSize ==> WindowBegin(blockSize, begin) < blockSize) <==> blockSize >= 4
  {
    if blockSize < 4 {
      assert WindowBegin(blockSize, blockSize) == blockSize;
    }
  }

  /** What then happens: a read fills a block of one to three bytes, the next one gets the
      full block again, reads 0 bytes into it and brings nothing; and so does every read after
      it, since the window is where it was. */
  method FillSmallBlock(pool: MessageBlockPool, current: array<BlockRef>)
    returns (filled: BlockRef, brought: BlockRef)
    requires pool.Valid() && 1 <= pool.blockSize <= 3 && pool.maxLive == 0 && pool.counts == multiset{}
    requires current.Length == 1 && current[0] == Invalid
    modifies current, pool`live, pool`counts, pool`blocks
    ensures filled.blk != null && Size(filled) == pool.blockSize
    ensures current[0] == filled.(begin := filled.end) && filled.end == pool.blockSize
    ensures Kept(current[0], pool.blockSize) && brought == current[0] && Size(brought) == 0
    ensures forall refs :: Appended(refs, brought) == refs
  {
    var ok := StartRead(current, pool, multiset{}, []);
    filled := FinishRead(current, pool.blockSize, pool, multiset{}, []);
    ok := StartRead(current, pool, filled.Owned(), [filled]);
    brought := FinishRead(current, 0, pool, filled.Owned(), [filled]);
  }

  lemma BehindAppended(rs: seq<BlockRef>, r: BlockRef, c: BlockRef)
    requires Behind(rs, c) && Behind([r], c)
    ensures Behind(Appended(rs, r), c)
  {
    if c.blk != null {
      assert r in [r];
    }
  }

  lemma {:induction false} BehindDropped(rs: seq<BlockRef>, n: nat, c: BlockRef)
    requires Behind(rs, c)
    ensures Behind(Dropped(rs, n), c)
    decreases |rs|
  {
    if rs != [] && n != 0 {
      if n >= Size(rs[0]) {
        BehindDropped(rs[1..], n - Size(rs[0]), c);
      } else {
        assert rs[0] in rs;
      }
    }
  }

  lemma {:induction false} BehindTaken(rs: seq<BlockRef>, n: nat, c: BlockRef)
    requires Behind(rs, c) && Canonical(rs)
    ensures Behind(Taken(rs, n), c)
    decreases |rs|
  {
    if rs != [] && n != 0 {
      assert rs[0] in rs;
      if n > Size(rs[0]) {
        BehindTaken(rs[1..], n - Size(rs[0]), c);
      }
    }
  }

  lemma BehindConcat(a: seq<BlockRef>, b: seq<BlockRef>, c: BlockRef)
    ensures Behind(a + b, c) <==> Behind(a, c) && Behind(b, c)
  {
    if c.blk != null && Behind(a + b, c) {
      forall r | r in a || r in b
        ensures r in a + b
      {
      }
    }
  }
}
