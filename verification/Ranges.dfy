/** Runs of block ranges as values: what the entries of a BlockChain (src/buffer/block_chain.h)
    denote, and the bytes they stand for. */
module Ranges {
  import opened Bytes
  import opened Blocks

  function Size(r: BlockRef): nat {
    if r.begin <= r.end then r.end - r.begin else 0
  }

  function Total(rs: seq<BlockRef>): nat {
    if rs == [] then 0 else Size(rs[0]) + Total(rs[1..])
  }

  // A valid handle to a range inside its block.
  predicate Fits(r: BlockRef) {
    r.blk != null && r.begin <= r.end <= |r.blk.storage|
  }

  predicate Mergeable(a: BlockRef, b: BlockRef) {
    a.blk == b.blk && a.end == b.begin
  }

  // The entries of a chain: non-empty ranges, no two neighbours of which are contiguous
  // in one block.
  predicate Canonical(rs: seq<BlockRef>) {
    rs == [] ||
    (&& Fits(rs[0]) && rs[0].begin < rs[0].end
     && (|rs| > 1 ==> !Mergeable(rs[0], rs[1]))
     && Canonical(rs[1..]))
  }

  // The bytes of one range, and of a run of them in order.
  function Slice(mem: Memory, r: BlockRef): seq<Byte> {
    if Fits(r) then Payload(mem, r.blk)[r.begin..r.end] else []
  }

  function View(mem: Memory, rs: seq<BlockRef>): seq<Byte> {
    if rs == [] then [] else Slice(mem, rs[0]) + View(mem, rs[1..])
  }

  // The bytes of each range.
  function Slices(mem: Memory, rs: seq<BlockRef>): (parts: seq<seq<Byte>>)
    ensures |parts| == |rs| && forall i :: 0 <= i < |rs| ==> parts[i] == Slice(mem, rs[i])
  {
    if rs == [] then [] else [Slice(mem, rs[0])] + Slices(mem, rs[1..])
  }

  lemma {:induction false} SlicesAreView(mem: Memory, rs: seq<BlockRef>)
    ensures Concat(Slices(mem, rs)) == View(mem, rs)
  {
    if rs != [] {
      SlicesAreView(mem, rs[1..]);
      assert Slices(mem, rs)[1..] == Slices(mem, rs[1..]);
    }
  }

  // BlockChain::append on values: empty and invalid ranges are ignored, a range that
  // continues the last one extends it.
  function Appended(rs: seq<BlockRef>, r: BlockRef): seq<BlockRef> {
    if r.blk == null || r.begin == r.end then rs
    else if rs != [] && Mergeable(rs[|rs| - 1], r) then Extended(rs, r.end)
    else rs + [r]
  }

  // The last entry reaches further.
  function Extended(rs: seq<BlockRef>, end: nat): seq<BlockRef>
    requires rs != []
  {
    rs[..|rs| - 1] + [rs[|rs| - 1].(end := end)]
  }

  // BlockChain::consume_front on values.
  function Dropped(rs: seq<BlockRef>, n: nat): seq<BlockRef> {
    if rs == [] || n == 0 then rs
    else if n < Size(rs[0]) then Trimmed(rs, n)
    else Dropped(rs[1..], n - Size(rs[0]))
  }

  // The first entry starts later.
  function Trimmed(rs: seq<BlockRef>, n: nat): seq<BlockRef>
    requires rs != []
  {
    [rs[0].(begin := rs[0].begin + n)] + rs[1..]
  }

  // BlockChain::first on values.
  function Taken(rs: seq<BlockRef>, n: nat): seq<BlockRef> {
    if rs == [] || n == 0 then []
    else if n <= Size(rs[0]) then [rs[0].(end := rs[0].begin + n)]
    else [rs[0]] + Taken(rs[1..], n - Size(rs[0]))
  }

  // ---- concatenation ----

  lemma {:induction false} TotalConcat(a: seq<BlockRef>, b: seq<BlockRef>)
    ensures Total(a + b) == Total(a) + Total(b)
  {
    if a == [] {
      assert a + b == b;
    } else {
      assert (a + b)[1..] == a[1..] + b;
      TotalConcat(a[1..], b);
    }
  }

  lemma {:induction false} ViewConcat(mem: Memory, a: seq<BlockRef>, b: seq<BlockRef>)
    ensures View(mem, a + b) == View(mem, a) + View(mem, b)
  {
    if a == [] {
      assert a + b == b;
    } else {
      assert (a + b)[1..] == a[1..] + b;
      ViewConcat(mem, a[1..], b);
    }
  }

  lemma ViewCons(mem: Memory, r: BlockRef, rs: seq<BlockRef>)
    ensures View(mem, [r] + rs) == Slice(mem, r) + View(mem, rs)
  {
    assert ([r] + rs)[1..] == rs;
  }

  lemma ViewSnoc(mem: Memory, rs: seq<BlockRef>, r: BlockRef)
    ensures View(mem, rs + [r]) == View(mem, rs) + Slice(mem, r)
  {
    ViewConcat(mem, rs, [r]);
    assert View(mem, [r]) == Slice(mem, r) + View(mem, [r][1..]);
  }

  lemma TotalSnoc(rs: seq<BlockRef>, r: BlockRef)
    ensures Total(rs + [r]) == Total(rs) + Size(r)
  {
    TotalConcat(rs, [r]);
    assert Total([r]) == Size(r) + Total([r][1..]);
  }

  lemma HeldSnoc(rs: seq<BlockRef>, r: BlockRef)
    ensures Held(rs + [r]) == Held(rs) + r.Owned()
  {
    HeldAppend(rs, [r]);
    assert Held([r]) == r.Owned() + Held([r][1..]);
  }

  lemma HeldSnocSum(rs: seq<BlockRef>, r: BlockRef, rest: multiset<DataBlock>)
    ensures rest + Held(rs + [r]) == rest + Held(rs) + r.Owned()
  {
    HeldSnoc(rs, r);
  }

  lemma {:induction false} ViewLength(mem: Memory, rs: seq<BlockRef>)
    requires Canonical(rs)
    ensures |View(mem, rs)| == Total(rs)
  {
    if rs != [] {
      ViewLength(mem, rs[1..]);
    }
  }

  lemma {:induction false} CanonicalAt(rs: seq<BlockRef>, i: nat)
    requires Canonical(rs) && i < |rs|
    ensures Fits(rs[i]) && rs[i].begin < rs[i].end
    ensures i + 1 < |rs| ==> !Mergeable(rs[i], rs[i + 1])
    ensures Canonical(rs[i..])
  {
    if i > 0 {
      CanonicalAt(rs[1..], i - 1);
      assert rs[1..][i - 1..] == rs[i..];
    }
  }

  // ---- append ----

  lemma {:induction false} CanonicalSnoc(rs: seq<BlockRef>, r: BlockRef)
    requires Canonical(rs) && Fits(r) && r.begin < r.end
    requires rs != [] ==> !Mergeable(rs[|rs| - 1], r)
    ensures Canonical(rs + [r])
  {
    if rs == [] {
      assert [r][1..] == [];
    } else {
      assert (rs + [r])[1..] == rs[1..] + [r];
      CanonicalSnoc(rs[1..], r);
    }
  }

  lemma {:induction false} CanonicalInit(rs: seq<BlockRef>)
    requires Canonical(rs) && rs != []
    ensures Canonical(rs[..|rs| - 1])
  {
    if |rs| > 1 {
      CanonicalInit(rs[1..]);
      assert rs[..|rs| - 1][1..] == rs[1..][..|rs| - 2];
    }
  }

  // The shape and size after a new last entry.
  lemma EntryAdded(rs: seq<BlockRef>, r: BlockRef)
    requires Canonical(rs) && Fits(r) && r.begin < r.end
    requires rs != [] ==> !Mergeable(rs[|rs| - 1], r)
    ensures Canonical(rs + [r]) && Total(rs + [r]) == Total(rs) + (r.end - r.begin)
  {
    TotalSnoc(rs, r);
    CanonicalSnoc(rs, r);
  }

  // The shape and size after extending the last entry to r's end.
  lemma LastExtended(rs: seq<BlockRef>, r: BlockRef)
    requires Canonical(rs) && rs != [] && Fits(r) && r.begin < r.end && Mergeable(rs[|rs| - 1], r)
    ensures Canonical(Extended(rs, r.end)) && Total(Extended(rs, r.end)) == Total(rs) + (r.end - r.begin)
  {
    var init, last := rs[..|rs| - 1], rs[|rs| - 1];
    LastApart(rs);
    TotalSnoc(init, last);
    EntryAdded(init, last.(end := r.end));
  }

  lemma LastApart(rs: seq<BlockRef>)
    requires Canonical(rs) && rs != []
    ensures var init, last := rs[..|rs| - 1], rs[|rs| - 1];
            && rs == init + [last] && Canonical(init) && Fits(last) && last.begin < last.end
            && (init != [] ==> !Mergeable(init[|init| - 1], last))
  {
    CanonicalAt(rs, |rs| - 1);
    CanonicalInit(rs);
    if |rs| > 1 {
      CanonicalAt(rs, |rs| - 2);
    }
  }

  lemma ViewExtended(mem: Memory, rs: seq<BlockRef>, r: BlockRef)
    requires rs != [] && Fits(rs[|rs| - 1]) && Fits(r) && Mergeable(rs[|rs| - 1], r)
    ensures View(mem, Extended(rs, r.end)) == View(mem, rs) + Slice(mem, r)
  {
    var init, last := rs[..|rs| - 1], rs[|rs| - 1];
    assert rs == init + [last];
    ViewSnoc(mem, init, last);
    ViewSnoc(mem, init, last.(end := r.end));
    SliceExtended(mem, last, r);
    ConcatAssociative(View(mem, init), Slice(mem, last), Slice(mem, r));
  }

  lemma SliceExtended(mem: Memory, last: BlockRef, r: BlockRef)
    requires Fits(last) && Fits(r) && Mergeable(last, r)
    ensures Slice(mem, last.(end := r.end)) == Slice(mem, last) + Slice(mem, r)
  {
  }

  lemma HeldExtended(rs: seq<BlockRef>, end: nat)
    requires rs != []
    ensures Held(Extended(rs, end)) == Held(rs)
  {
    var init, last := rs[..|rs| - 1], rs[|rs| - 1];
    assert rs == init + [last];
    HeldSnoc(init, last);
    HeldSnoc(init, last.(end := end));
  }

  /** Appending concatenates, and keeps one entry per contiguous run. */
  lemma AppendedIsConcat(mem: Memory, rs: seq<BlockRef>, r: BlockRef)
    requires Canonical(rs) && (r.blk == null || Fits(r))
    ensures Canonical(Appended(rs, r))
    ensures View(mem, Appended(rs, r)) == View(mem, rs) + Slice(mem, r)
  {
    if r.blk != null && r.begin < r.end {
      if rs != [] && Mergeable(rs[|rs| - 1], r) {
        CanonicalAt(rs, |rs| - 1);
        LastExtended(rs, r);
        ViewExtended(mem, rs, r);
      } else {
        EntryAdded(rs, r);
        ViewSnoc(mem, rs, r);
      }
    }
  }

  // ---- consume_front ----

  lemma SliceTrim(mem: Memory, r: BlockRef, n: nat)
    requires Fits(r) && n <= Size(r)
    ensures Slice(mem, r.(begin := r.begin + n)) == Slice(mem, r)[n..]
  {
    assert Fits(r.(begin := r.begin + n));
  }

  lemma FrontTrimmed(rs: seq<BlockRef>, n: nat)
    requires Canonical(rs) && rs != [] && n < Size(rs[0])
    ensures Canonical(Trimmed(rs, n)) && Total(Trimmed(rs, n)) == Total(rs) - n
    ensures Dropped(rs, n) == Trimmed(rs, n)
  {
    var t := Trimmed(rs, n);
    assert t[1..] == rs[1..];
    if n == 0 {
      assert t == rs;
    }
  }

  lemma TrimmedIsSuffix(mem: Memory, rs: seq<BlockRef>, n: nat)
    requires rs != [] && Fits(rs[0]) && n < Size(rs[0])
    ensures n <= |View(mem, rs)| && View(mem, Trimmed(rs, n)) == View(mem, rs)[n..]
  {
    var trimmed := rs[0].(begin := rs[0].begin + n);
    assert Trimmed(rs, n) == [trimmed] + rs[1..];
    ViewCons(mem, trimmed, rs[1..]);
    SliceTrim(mem, rs[0], n);
    DropConcat(Slice(mem, rs[0]), View(mem, rs[1..]), n);
  }

  lemma FrontPopped(rs: seq<BlockRef>, n: nat)
    requires Canonical(rs) && rs != [] && n >= Size(rs[0])
    ensures Canonical(rs[1..]) && Total(rs[1..]) == Total(rs) - Size(rs[0]) && Size(rs[0]) > 0
    ensures Dropped(rs[1..], n - Size(rs[0])) == Dropped(rs, n)
  {
  }

  lemma HeldPop(rs: seq<BlockRef>, rest: multiset<DataBlock>)
    requires rs != []
    ensures rest + Held(rs) == rest + Held(rs[1..]) + rs[0].Owned()
  {
  }

  lemma HeldTrimmed(rs: seq<BlockRef>, n: nat)
    requires rs != []
    ensures Held(Trimmed(rs, n)) == Held(rs)
  {
    assert Trimmed(rs, n)[1..] == rs[1..];
  }

  lemma {:induction false} DroppedCanonical(rs: seq<BlockRef>, n: nat)
    requires Canonical(rs)
    ensures |Dropped(rs, n)| <= |rs| && Canonical(Dropped(rs, n))
  {
    if rs != [] && n != 0 {
      if n < Size(rs[0]) {
        FrontTrimmed(rs, n);
      } else {
        DroppedCanonical(rs[1..], n - Size(rs[0]));
      }
    }
  }

  lemma {:induction false} DroppedBytes(mem: Memory, rs: seq<BlockRef>, n: nat)
    requires Canonical(rs) && n <= Total(rs)
    ensures |View(mem, rs)| == Total(rs) && View(mem, Dropped(rs, n)) == View(mem, rs)[n..]
  {
    ViewLength(mem, rs);
    if rs != [] && n != 0 {
      if n < Size(rs[0]) {
        TrimmedIsSuffix(mem, rs, n);
      } else {
        var first, rest := Slice(mem, rs[0]), View(mem, rs[1..]);
        DroppedBytes(mem, rs[1..], n - Size(rs[0]));
        DropConcat(first, rest, n);
        assert |first| == n ==> first[n..] + rest == rest;
      }
    }
  }

  lemma {:induction false} DroppedAll(rs: seq<BlockRef>, n: nat)
    requires Canonical(rs) && n >= Total(rs)
    ensures Dropped(rs, n) == []
  {
    if rs != [] {
      DroppedAll(rs[1..], n - Size(rs[0]));
    }
  }

  lemma DroppedClamped(rs: seq<BlockRef>, n: nat)
    requires Canonical(rs)
    ensures Dropped(rs, Min(n, Total(rs))) == Dropped(rs, n)
  {
    if n > Total(rs) {
      DroppedAll(rs, n);
      DroppedAll(rs, Total(rs));
    }
  }

  /** Consuming drops a prefix of the bytes, clamped to what there is. */
  lemma DroppedIsSuffix(mem: Memory, rs: seq<BlockRef>, n: nat)
    requires Canonical(rs)
    ensures Canonical(Dropped(rs, n)) && |View(mem, rs)| == Total(rs)
    ensures View(mem, Dropped(rs, n)) == View(mem, rs)[Min(n, Total(rs))..]
  {
    DroppedCanonical(rs, n);
    DroppedClamped(rs, n);
    DroppedBytes(mem, rs, Min(n, Total(rs)));
  }

  // ---- first ----

  lemma SliceCut(mem: Memory, r: BlockRef, n: nat)
    requires Fits(r) && n <= Size(r)
    ensures Slice(mem, r.(end := r.begin + n)) == Slice(mem, r)[..n]
  {
    assert Fits(r.(end := r.begin + n));
    SliceOfSlice(Payload(mem, r.blk), r.begin, r.end, Slice(mem, r), 0, n);
  }

  lemma {:induction false} TakenCanonical(rs: seq<BlockRef>, n: nat)
    requires Canonical(rs)
    ensures Canonical(Taken(rs, n))
    ensures Taken(rs, n) != [] ==> rs != [] && Taken(rs, n)[0].blk == rs[0].blk && Taken(rs, n)[0].begin == rs[0].begin
  {
    if rs != [] && n != 0 {
      if n <= Size(rs[0]) {
        assert Taken(rs, n)[1..] == [];
      } else {
        var rest := Taken(rs[1..], n - Size(rs[0]));
        TakenCanonical(rs[1..], n - Size(rs[0]));
        assert ([rs[0]] + rest)[1..] == rest;
      }
    }
  }

  lemma {:induction false} TakenBytes(mem: Memory, rs: seq<BlockRef>, n: nat)
    requires Canonical(rs) && n <= Total(rs)
    ensures |View(mem, rs)| == Total(rs) && View(mem, Taken(rs, n)) == View(mem, rs)[..n]
  {
    ViewLength(mem, rs);
    if rs != [] && n != 0 {
      if n <= Size(rs[0]) {
        TakenInFirst(mem, rs, n);
      } else {
        TakenBytes(mem, rs[1..], n - Size(rs[0]));
        TakenBeyondFirst(mem, rs, n);
      }
    }
  }

  lemma TakenInFirst(mem: Memory, rs: seq<BlockRef>, n: nat)
    requires rs != [] && Fits(rs[0]) && 0 < n <= Size(rs[0])
    ensures n <= |View(mem, rs)| && View(mem, Taken(rs, n)) == View(mem, rs)[..n]
  {
    CutBytes(mem, rs[0], n);
    TakeConcat(Slice(mem, rs[0]), View(mem, rs[1..]), n);
  }

  lemma TakenBeyondFirst(mem: Memory, rs: seq<BlockRef>, n: nat)
    requires rs != [] && Fits(rs[0]) && Size(rs[0]) < n && n - Size(rs[0]) <= |View(mem, rs[1..])|
    requires View(mem, Taken(rs[1..], n - Size(rs[0]))) == View(mem, rs[1..])[..n - Size(rs[0])]
    ensures n <= |View(mem, rs)| && View(mem, Taken(rs, n)) == View(mem, rs)[..n]
  {
    ViewCons(mem, rs[0], Taken(rs[1..], n - Size(rs[0])));
    TakeConcat(Slice(mem, rs[0]), View(mem, rs[1..]), n);
  }

  lemma CutBytes(mem: Memory, r: BlockRef, n: nat)
    requires Fits(r) && n <= Size(r)
    ensures n <= |Slice(mem, r)| && View(mem, [r.(end := r.begin + n)]) == Slice(mem, r)[..n]
  {
    var cut := r.(end := r.begin + n);
    ViewSnoc(mem, [], cut);
    assert [] + [cut] == [cut];
    SliceCut(mem, r, n);
  }

  lemma {:induction false} TakenAll(rs: seq<BlockRef>, n: nat)
    requires Canonical(rs) && n >= Total(rs)
    ensures Taken(rs, n) == rs
  {
    if rs != [] {
      if n > Size(rs[0]) {
        TakenAll(rs[1..], n - Size(rs[0]));
      }
    }
  }

  lemma TakenClamped(rs: seq<BlockRef>, n: nat)
    requires Canonical(rs)
    ensures Taken(rs, Min(n, Total(rs))) == Taken(rs, n)
  {
    if n > Total(rs) {
      TakenAll(rs, n);
      TakenAll(rs, Total(rs));
    }
  }

  /** The first n bytes, clamped to what there is, as ranges of the same blocks. */
  lemma TakenIsPrefix(mem: Memory, rs: seq<BlockRef>, n: nat)
    requires Canonical(rs)
    ensures Canonical(Taken(rs, n)) && |View(mem, rs)| == Total(rs)
    ensures View(mem, Taken(rs, n)) == View(mem, rs)[..Min(n, Total(rs))]
  {
    TakenCanonical(rs, n);
    TakenClamped(rs, n);
    TakenBytes(mem, rs, Min(n, Total(rs)));
  }

  // The loop of BlockChain::first, seen from its result t: every piece starts where the
  // entry does, and only the last may end earlier.
  lemma {:induction false} TakenShape(rs: seq<BlockRef>, n: nat, t: seq<BlockRef>, i: nat)
    requires Canonical(rs) && n <= Total(rs) && t == Taken(rs, n) && i < |t|
    ensures |t| <= |rs|
    ensures Fits(rs[i]) && Fits(t[i]) && t[i] == rs[i].(end := t[i].end) && t[i].begin < t[i].end <= rs[i].end
    ensures i + 1 < |t| ==> t[i] == rs[i]
    ensures i > 0 ==> t[i - 1] == rs[i - 1] && !Mergeable(rs[i - 1], rs[i])
  {
    if n > Size(rs[0]) {
      var tail := Taken(rs[1..], n - Size(rs[0]));
      assert t == [rs[0]] + tail;
      TakenShape(rs[1..], n - Size(rs[0]), tail, if i == 0 then 0 else i - 1);
    }
  }

  lemma {:induction false} TakenTotal(rs: seq<BlockRef>, n: nat)
    requires Canonical(rs) && n <= Total(rs)
    ensures |Taken(rs, n)| <= |rs| && Total(Taken(rs, n)) == n
    ensures Canonical(Taken(rs, n))
  {
    TakenCanonical(rs, n);
    if rs != [] && n != 0 {
      if n <= Size(rs[0]) {
        assert Taken(rs, n)[1..] == [];
      } else {
        TakenTotal(rs[1..], n - Size(rs[0]));
        assert Taken(rs, n)[1..] == Taken(rs[1..], n - Size(rs[0]));
      }
    }
  }

  lemma TotalTail(t: seq<BlockRef>, i: nat)
    requires Canonical(t) && i <= |t|
    ensures i == |t| ==> Total(t[i..]) == 0
    ensures i < |t| ==> Total(t[i..]) == (t[i].end - t[i].begin) + Total(t[i + 1..]) && t[i].begin < t[i].end
    ensures i + 1 == |t| ==> Total(t[i + 1..]) == 0
  {
    if i < |t| {
      CanonicalAt(t, i);
      assert t[i..][1..] == t[i + 1..];
    }
  }

  lemma PieceTaken(rs: seq<BlockRef>, n: nat, t: seq<BlockRef>, i: nat)
    requires Canonical(rs) && n <= Total(rs) && t == Taken(rs, n) && i < |t| <= |rs|
    ensures var take := Min(Size(rs[i]), Total(t[i..]));
            && Fits(rs[i]) && 0 < take && t[i] == rs[i].(end := rs[i].begin + take)
            && Total(t[i..]) == take + Total(t[i + 1..])
    ensures i > 0 ==> !Mergeable(t[i - 1], rs[i])
    ensures t[..i + 1] == t[..i] + [t[i]]
  {
    TakenTotal(rs, n);
    TotalTail(t, i);
    TakenShape(rs, n, t, i);
  }

  lemma {:induction false} HeldNames(rs: seq<BlockRef>)
    requires Canonical(rs)
    ensures forall i :: 0 <= i < |rs| ==> rs[i].blk in Held(rs)
  {
    forall i | 0 <= i < |rs|
      ensures rs[i].blk in Held(rs)
    {
      CanonicalAt(rs, i);
      HeldAt(rs, i);
      assert rs[i].blk in rs[i].Owned();
    }
  }
}
