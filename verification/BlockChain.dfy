/** The deque of block ranges of src/buffer/block_chain.cpp: two inline entries, then
    external storage that is compacted before it is doubled. */
module BlockChains {
  import Bytes
  import opened Blocks
  import opened Ranges

  const INLINE: nat := 2

  class BlockChain {
    var data: array<BlockRef>      // data.Length is the capacity; INLINE means the inline storage
    var head: nat
    var count: nat
    var size: nat
    ghost var refs: seq<BlockRef>  // the entries, front to back

    ghost predicate Valid()
      reads this, data
    {
      && Stored()
      && Canonical(refs)
      && size == Total(refs)
    }

    // The entries are data[head..head + count]; every other slot owns no reference.
    ghost predicate Stored()
      reads this, data
    {
      && INLINE <= data.Length && |refs| == count && head + count <= data.Length
      && (forall i :: 0 <= i < count ==> refs[i] == data[head + i])
      && (forall j :: 0 <= j < data.Length && !(head <= j < head + count) ==> data[j].blk == null)
    }

    // The objects this chain is made of.
    ghost function Repr(): set<object>
      reads this
    {
      {this, data}
    }

    constructor ()
      ensures Valid() && fresh(Repr()) && refs == []
    {
      data := new BlockRef[INLINE](_ => Invalid);
      head, count, size, refs := 0, 0, 0, [];
    }

    // Makes room at the back: first by moving the entries to the front, then by doubling.
    method Grow(pool: MessageBlockPool)
      requires Stored() && pool.Valid() && head + count == data.Length
      modifies this`head, this`data, data, pool`live, pool`counts, pool`blocks
      ensures Stored() && head + count < data.Length && head == 0
      ensures if old(head) > 0 then data == old(data) else fresh(data) && data.Length == 2 * old(data.Length)
      ensures pool.Valid() && pool.counts == old(pool.counts)
    {
      if head > 0 {
        MoveDown(data, head, count, pool);
        head := 0;
      } else {
        Double(pool);
      }
    }

    method Double(pool: MessageBlockPool)
      requires Stored() && pool.Valid() && head == 0 && count == data.Length
      modifies this`data, data, pool`live, pool`counts, pool`blocks
      ensures Stored() && count < data.Length && fresh(data) && data.Length == 2 * old(data.Length)
      ensures pool.Valid() && pool.counts == old(pool.counts)
    {
      var bigger := new BlockRef[2 * data.Length](_ => Invalid);
      MoveOut(bigger, data, 0, count, pool);
      data := bigger;
    }

    // The handle `ref`, with its reference, becomes the last entry.
    method PushBack(ref: BlockRef, pool: MessageBlockPool)
      requires Stored() && pool.Valid()
      modifies this`head, this`data, this`count, this`refs, data, pool`live, pool`counts, pool`blocks
      ensures Stored() && refs == old(refs) + [ref]
      ensures data == old(data) || fresh(data)
      ensures pool.Valid() && pool.counts == old(pool.counts)
    {
      if head + count == data.Length {
        Grow(pool);
      }
      Place(ref);
    }

    method Place(ref: BlockRef)
      requires Stored() && head + count < data.Length
      modifies this`count, this`refs, data
      ensures Stored() && refs == old(refs) + [ref]
    {
      data[head + count] := ref;               // the slot is empty: nothing to release
      count := count + 1;
      refs := refs + [ref];
    }

    // Appends `ref` and takes its reference: an empty or invalid one is ignored, one that
    // continues the last entry extends it, and either way its own reference is given up.
    // `rest` is what all others own.
    method Append(ref: BlockRef, pool: MessageBlockPool, ghost rest: multiset<DataBlock>)
      requires Valid() && pool.Valid() && (ref.blk == null || Fits(ref))
      requires pool.counts == rest + Held(refs) + ref.Owned()
      modifies this, data, pool`live, pool`counts, pool`blocks
      ensures Valid() && refs == Appended(old(refs), ref)
      ensures data == old(data) || fresh(data)
      ensures pool.Valid() && pool.counts == rest + Held(refs)
    {
      if ref.blk == null || ref.begin == ref.end {
        Discard(ref, pool, rest + Held(refs));
      } else if count > 0 && Mergeable(data[head + count - 1], ref) {
        ExtendWith(ref, pool, rest);
      } else {
        EnterWith(ref, pool, rest);
      }
    }

    method ExtendWith(ref: BlockRef, pool: MessageBlockPool, ghost rest: multiset<DataBlock>)
      requires Valid() && pool.Valid() && Fits(ref) && ref.begin < ref.end
      requires count > 0 && Mergeable(refs[count - 1], ref)
      requires pool.counts == rest + Held(refs) + ref.Owned()
      modifies this, data, pool`live, pool`counts, pool`blocks
      ensures Valid() && refs == Extended(old(refs), ref.end) && data == old(data)
      ensures pool.Valid() && pool.counts == rest + Held(refs)
    {
      ghost var kept := rest + Held(refs);
      Extend(ref);
      Discard(ref, pool, kept);
    }

    method Extend(ref: BlockRef)
      requires Valid() && count > 0 && Fits(ref) && ref.begin < ref.end && Mergeable(refs[count - 1], ref)
      modifies this`size, this`refs, data
      ensures Valid() && refs == Extended(old(refs), ref.end) && Held(refs) == Held(old(refs))
    {
      HeldExtended(refs, ref.end);
      LastExtended(refs, ref);
      size := size + (ref.end - ref.begin);
      data[head + count - 1] := data[head + count - 1].(end := ref.end);
      refs := Extended(refs, ref.end);
    }

    method Enter(ref: BlockRef, pool: MessageBlockPool)
      requires Valid() && pool.Valid() && Fits(ref) && ref.begin < ref.end
      requires count > 0 ==> !Mergeable(refs[count - 1], ref)
      modifies this, data, pool`live, pool`counts, pool`blocks
      ensures Valid() && refs == old(refs) + [ref]
      ensures data == old(data) || fresh(data)
      ensures pool.Valid() && pool.counts == old(pool.counts)
    {
      EntryAdded(refs, ref);
      size := size + (ref.end - ref.begin);
      PushBack(ref, pool);
    }

    method EnterWith(ref: BlockRef, pool: MessageBlockPool, ghost rest: multiset<DataBlock>)
      requires Valid() && pool.Valid() && Fits(ref) && ref.begin < ref.end
      requires count > 0 ==> !Mergeable(refs[count - 1], ref)
      requires pool.counts == rest + Held(refs) + ref.Owned()
      modifies this, data, pool`live, pool`counts, pool`blocks
      ensures Valid() && refs == old(refs) + [ref]
      ensures data == old(data) || fresh(data)
      ensures pool.Valid() && pool.counts == rest + Held(refs)
    {
      HeldSnocSum(refs, ref, rest);
      Enter(ref, pool);
    }

    // Drops n bytes, or all there are, from the front. `rest` is what all others own.
    method ConsumeFront(n: nat, pool: MessageBlockPool, ghost rest: multiset<DataBlock>)
      requires Valid() && pool.Valid() && pool.counts == rest + Held(refs)
      modifies this, data, pool`live, pool`counts, pool`blocks
      ensures Valid() && refs == Dropped(old(refs), n) && data == old(data)
      ensures pool.Valid() && pool.counts == rest + Held(refs)
    {
      var left := Bytes.Min(n, size);
      DroppedClamped(refs, n);
      size := size - left;
      while left > 0
        invariant Stored() && Canonical(refs) && data == old(data)
        invariant Total(refs) == size + left
        invariant Dropped(refs, left) == Dropped(old(refs), n)
        invariant pool.Valid() && pool.counts == rest + Held(refs)
      {
        left := ConsumeEntry(left, pool, rest);
      }
      if count == 0 {
        head := 0;
      }
    }

    // One iteration: a fully consumed entry gives its reference up, a straddled one is
    // trimmed in place.
    method ConsumeEntry(n: nat, pool: MessageBlockPool, ghost rest: multiset<DataBlock>) returns (left: nat)
      requires Stored() && Canonical(refs) && 0 < n <= Total(refs)
      requires pool.Valid() && pool.counts == rest + Held(refs)
      modifies data, this`refs, this`head, this`count, pool`live, pool`counts, pool`blocks
      ensures Stored() && Canonical(refs)
      ensures left < n && Total(refs) + n == Total(old(refs)) + left
      ensures Dropped(refs, left) == Dropped(old(refs), n)
      ensures pool.Valid() && pool.counts == rest + Held(refs)
    {
      var avail := Size(data[head]);
      if n < avail {
        FrontTrimmed(refs, n);
        TrimFront(n);
        left := 0;
      } else {
        FrontPopped(refs, n);
        PopFront(pool, rest);
        left := n - avail;
      }
    }

    method TrimFront(n: nat)
      requires Stored() && count > 0 && n < Size(refs[0])
      modifies data, this`refs
      ensures Stored() && refs == Trimmed(old(refs), n) && Held(refs) == Held(old(refs))
    {
      HeldTrimmed(refs, n);
      data[head] := data[head].(begin := data[head].begin + n);
      refs := Trimmed(refs, n);
    }

    method PopFront(pool: MessageBlockPool, ghost rest: multiset<DataBlock>)
      requires Stored() && pool.Valid() && count > 0 && pool.counts == rest + Held(refs)
      modifies data, this`refs, this`head, this`count, pool`live, pool`counts, pool`blocks
      ensures Stored() && refs == old(refs)[1..]
      ensures pool.Valid() && pool.counts == rest + Held(refs)
    {
      HeldPop(refs, rest);
      ReleaseFront(pool, rest + Held(refs[1..]));
    }

    method ReleaseFront(pool: MessageBlockPool, ghost rest: multiset<DataBlock>)
      requires Stored() && pool.Valid() && count > 0 && pool.counts == rest + refs[0].Owned()
      modifies data, this`refs, this`head, this`count, pool`live, pool`counts, pool`blocks
      ensures Stored() && refs == old(refs)[1..]
      ensures pool.Valid() && pool.counts == rest
    {
      Reset(data, head, pool, rest);
      head := head + 1;
      count := count - 1;
      refs := refs[1..];
    }

    // The entries, as begin() and end() give them to a loop.
    method Entries() returns (entries: seq<BlockRef>)
      requires Stored()
      ensures entries == refs
    {
      entries := data[head..head + count];
    }

    // A new chain over the first n bytes, or all there are, that shares the blocks.
    method First(n: nat, pool: MessageBlockPool) returns (out: BlockChain)
      requires Valid() && pool.Valid()
      requires forall i :: 0 <= i < |refs| ==> refs[i].blk in pool.counts
      modifies pool`live, pool`counts, pool`blocks
      ensures fresh(out.Repr()) && out.Valid() && out.refs == Taken(refs, n)
      ensures pool.Valid() && pool.counts == old(pool.counts) + Held(out.refs)
    {
      TakenClamped(refs, n);
      var entries := Entries();
      out := new BlockChain();
      out.ShareFirst(entries, Bytes.Min(n, size), pool, pool.counts);
    }

    // make_chain(first(n)): the result of first() is moved into a chain of its own.
    method MakeFirst(n: nat, pool: MessageBlockPool) returns (out: BlockChain)
      requires Valid() && pool.Valid()
      requires forall i :: 0 <= i < |refs| ==> refs[i].blk in pool.counts
      modifies pool`live, pool`counts, pool`blocks
      ensures fresh(out.Repr()) && out.Valid() && out.refs == Taken(refs, n)
      ensures pool.Valid() && pool.counts == old(pool.counts) + Held(out.refs)
    {
      var front := First(n, pool);
      out := new BlockChain();
      out.MoveFrom(front, pool, pool.counts);
    }

    // The loop of first(): shares pieces of the entries until len bytes are covered.
    method ShareFirst(entries: seq<BlockRef>, len: nat, pool: MessageBlockPool, ghost rest: multiset<DataBlock>)
      requires Valid() && refs == [] && Canonical(entries) && len <= Total(entries)
      requires pool.Valid() && pool.counts == rest
      requires forall i :: 0 <= i < |entries| ==> entries[i].blk in rest
      modifies this, data, pool`live, pool`counts, pool`blocks
      ensures Valid() && refs == Taken(entries, len)
      ensures data == old(data) || fresh(data)
      ensures pool.Valid() && pool.counts == rest + Held(refs)
    {
      var left := len;
      TakenTotal(entries, len);
      ghost var taken := Taken(entries, len);
      assert taken[0..] == taken;
      TotalTail(taken, 0);
      var i: nat := 0;
      while i < |entries| && left > 0
        invariant i <= |taken| <= |entries| && left == Total(taken[i..]) && (left == 0 <==> i == |taken|)
        invariant Valid() && refs == taken[..i]
        invariant data == old(data) || fresh(data)
        invariant pool.Valid() && pool.counts == rest + Held(refs)
      {
        left := SharePiece(entries, len, taken, i, left, pool, rest);
        i := i + 1;
      }
    }

    method SharePiece(entries: seq<BlockRef>, len: nat, ghost taken: seq<BlockRef>, i: nat, n: nat,
                      pool: MessageBlockPool, ghost rest: multiset<DataBlock>) returns (left: nat)
      requires Canonical(entries) && len <= Total(entries) && taken == Taken(entries, len)
      requires i < |taken| <= |entries| && n == Total(taken[i..])
      requires Valid() && refs == taken[..i]
      requires pool.Valid() && pool.counts == rest + Held(refs) && entries[i].blk in rest
      modifies this, data, pool`live, pool`counts, pool`blocks
      ensures left == Total(taken[i + 1..]) && (left == 0 <==> i + 1 == |taken|)
      ensures Valid() && refs == taken[..i + 1]
      ensures data == old(data) || fresh(data)
      ensures pool.Valid() && pool.counts == rest + Held(refs)
    {
      PieceTaken(entries, len, taken, i);
      TakenTotal(entries, len);
      TotalTail(taken, i + 1);
      var take := Bytes.Min(Size(entries[i]), n);
      Share(entries[i], take, pool, rest);
      left := n - take;
    }

    // Appends a copy of the handle r over its first `take` bytes.
    method Share(r: BlockRef, take: nat, pool: MessageBlockPool, ghost rest: multiset<DataBlock>)
      requires Valid() && pool.Valid() && pool.counts == rest + Held(refs) && r.blk in pool.counts
      requires Fits(r) && 0 < take <= Size(r)
      requires count > 0 ==> !Mergeable(refs[count - 1], r)
      modifies this, data, pool`live, pool`counts, pool`blocks
      ensures Valid() && refs == old(refs) + [r.(end := r.begin + take)]
      ensures data == old(data) || fresh(data)
      ensures pool.Valid() && pool.counts == rest + Held(refs)
    {
      var piece := Copy(r, pool);
      piece := piece.(end := r.begin + take);
      assert piece.Owned() == r.Owned();
      Append(piece, pool, rest);
    }

    // The copy constructor: every entry is shared, none is merged or copied.
    method CopyFrom(entries: seq<BlockRef>, total: nat, pool: MessageBlockPool, ghost rest: multiset<DataBlock>)
      requires Valid() && refs == [] && Canonical(entries) && total == Total(entries)
      requires pool.Valid() && pool.counts == rest
      requires forall i :: 0 <= i < |entries| ==> entries[i].blk in rest
      modifies this, data, pool`live, pool`counts, pool`blocks
      ensures Valid() && refs == entries
      ensures data == old(data) || fresh(data)
      ensures pool.Valid() && pool.counts == rest + Held(refs)
    {
      for i := 0 to |entries|
        invariant Stored() && refs == entries[..i]
        invariant data == old(data) || fresh(data)
        invariant pool.Valid() && pool.counts == rest + Held(refs)
      {
        assert entries[..i + 1] == entries[..i] + [entries[i]];
        PushCopy(entries[i], pool, rest);
      }
      assert entries[..|entries|] == entries;
      size := total;
    }

    method PushCopy(r: BlockRef, pool: MessageBlockPool, ghost rest: multiset<DataBlock>)
      requires Stored() && pool.Valid() && pool.counts == rest + Held(refs) && r.blk in pool.counts
      modifies this`head, this`data, this`count, this`refs, data, pool`live, pool`counts, pool`blocks
      ensures Stored() && refs == old(refs) + [r]
      ensures data == old(data) || fresh(data)
      ensures pool.Valid() && pool.counts == rest + Held(refs)
    {
      HeldSnocSum(refs, r, rest);
      var c := Copy(r, pool);
      PushBack(c, pool);
    }

    // Releases every entry; the storage stays.
    method Clear(pool: MessageBlockPool, ghost rest: multiset<DataBlock>)
      requires Stored() && pool.Valid() && pool.counts == rest + Held(refs)
      modifies this`head, this`count, this`size, this`refs, data, pool`live, pool`counts, pool`blocks
      ensures Valid() && refs == []
      ensures pool.Valid() && pool.counts == rest
    {
      while count > 0
        invariant Stored()
        invariant pool.Valid() && pool.counts == rest + Held(refs)
      {
        PopFront(pool, rest);
      }
      head, size := 0, 0;
    }

    // Move assignment, also onto itself.
    method MoveFrom(other: BlockChain, pool: MessageBlockPool, ghost rest: multiset<DataBlock>)
      requires Valid() && other.Valid() && pool.Valid() && (this != other ==> data != other.data)
      requires pool.counts == if this == other then rest else rest + Held(refs)
      modifies this, data, other, other.data, pool`live, pool`counts, pool`blocks
      ensures Valid() && refs == old(other.refs) && pool.Valid() && pool.counts == rest
      ensures this != other ==> other.Valid() && other.refs == [] && data != other.data
      ensures data == old(other.data) || data == old(data) || fresh(data)
      ensures other.data == old(other.data) || fresh(other.data)
    {
      if this != other {
        MoveApart(other, pool, rest);
      }
    }

    // `other` ends empty. Inline entries are moved one by one, external storage is taken as
    // it is.
    method MoveApart(other: BlockChain, pool: MessageBlockPool, ghost rest: multiset<DataBlock>)
      requires this != other && data != other.data && Valid() && other.Valid()
      requires pool.Valid() && pool.counts == rest + Held(refs)
      modifies this, data, other, other.data, pool`live, pool`counts, pool`blocks
      ensures Valid() && refs == old(other.refs)
      ensures other.Valid() && other.refs == []
      ensures data != other.data
      ensures data == old(other.data) || data == old(data) || fresh(data)
      ensures other.data == old(other.data) || fresh(other.data)
      ensures pool.Valid() && pool.counts == rest
    {
      Clear(pool, rest);
      ReleaseStorage();
      if other.data.Length == INLINE {
        MoveInline(other, pool);
      } else {
        TakeStorage(other);
      }
    }

    // Copy assignment: a copy is made, and takes the place of what was here.
    method AssignFrom(other: BlockChain, pool: MessageBlockPool, ghost rest: multiset<DataBlock>)
      requires Valid() && other.Valid() && (this != other ==> data != other.data)
      requires pool.Valid() && pool.counts == rest + Held(refs)
      requires forall i :: 0 <= i < |other.refs| ==> other.refs[i].blk in pool.counts
      modifies this, data, pool`live, pool`counts, pool`blocks
      ensures Valid() && refs == old(other.refs)
      ensures this != other ==> other.Valid() && other.refs == old(other.refs)
      ensures data == old(data) || fresh(data)
      ensures pool.Valid() && pool.counts == rest + Held(refs)
    {
      if this != other {
        var copy := other.Copied(pool);
        SumSwap(rest, Held(refs), Held(copy.refs));
        MoveApart(copy, pool, rest + Held(copy.refs));
      }
    }

    method Copied(pool: MessageBlockPool) returns (copy: BlockChain)
      requires Valid() && pool.Valid()
      requires forall i :: 0 <= i < |refs| ==> refs[i].blk in pool.counts
      modifies pool`live, pool`counts, pool`blocks
      ensures fresh(copy.Repr()) && copy.Valid() && copy.refs == refs
      ensures pool.Valid() && pool.counts == old(pool.counts) + Held(copy.refs)
    {
      var entries := Entries();
      copy := new BlockChain();
      copy.CopyFrom(entries, size, pool, pool.counts);
    }

    // Back to the inline storage.
    method ReleaseStorage()
      requires Valid() && refs == []
      modifies this`data, this`head
      ensures Valid() && data.Length == INLINE && (data == old(data) || fresh(data))
    {
      if data.Length != INLINE {
        data, head := new BlockRef[INLINE](_ => Invalid), 0;
      }
    }

    method MoveInline(other: BlockChain, pool: MessageBlockPool)
      requires this != other && data != other.data && Stored() && refs == [] && other.Valid()
      requires data.Length == other.data.Length == INLINE && pool.Valid()
      modifies this`head, this`count, this`size, this`refs, data
      modifies other`head, other`count, other`size, other`refs, other.data, pool`live, pool`counts, pool`blocks
      ensures Valid() && refs == old(other.refs)
      ensures other.Valid() && other.refs == []
      ensures pool.Valid() && pool.counts == old(pool.counts)
    {
      MoveOut(data, other.data, other.head, other.count, pool);
      head, count, size, refs := 0, other.count, other.size, other.refs;
      other.Forget();
    }

    // After every entry was moved from.
    method Forget()
      requires INLINE <= data.Length && forall j :: 0 <= j < data.Length ==> data[j].blk == null
      modifies this`head, this`count, this`size, this`refs
      ensures Valid() && refs == []
    {
      head, count, size, refs := 0, 0, 0, [];
    }

    method TakeStorage(other: BlockChain)
      requires this != other && other.Valid()
      modifies this, other
      ensures Valid() && refs == old(other.refs) && data == old(other.data)
      ensures other.Valid() && other.refs == [] && fresh(other.data)
    {
      data, head, count, size, refs := other.data, other.head, other.count, other.size, other.refs;
      other.data := new BlockRef[INLINE](_ => Invalid);
      other.head, other.count, other.size, other.refs := 0, 0, 0, [];
    }
  }

  // A new chain of one entry, which takes the reference of `ref`.
  method OneEntry(ref: BlockRef, pool: MessageBlockPool, ghost rest: multiset<DataBlock>) returns (out: BlockChain)
    requires pool.Valid() && Fits(ref) && ref.begin < ref.end && pool.counts == rest + ref.Owned()
    modifies pool`live, pool`counts, pool`blocks
    ensures fresh(out.Repr()) && out.Valid() && out.refs == [ref]
    ensures pool.Valid() && pool.counts == old(pool.counts)
  {
    out := new BlockChain();
    assert [] + [ref] == [ref];
    HeldSnoc([], ref);
    out.Append(ref, pool, rest);
  }
}
