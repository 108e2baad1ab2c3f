/** The ways the bytes of a chain are read: the framer's cursor (src/message_framer.cpp),
    BlockChain::copy_to and taps::gather. A loop over a chain runs over its entries. */
module Readers {
  import opened Bytes
  import opened LengthCodec
  import opened Framing
  import opened Blocks
  import opened Ranges

  // Where entry i starts in the byte run.
  function Before(rs: seq<BlockRef>, i: nat): nat
    requires i <= |rs|
  {
    if i == 0 then 0 else Before(rs, i - 1) + Size(rs[i - 1])
  }

  lemma {:induction false} BeforeGrows(rs: seq<BlockRef>, i: nat, j: nat)
    requires i <= j <= |rs|
    ensures Before(rs, i) <= Before(rs, j)
    decreases j
  {
    if i < j {
      BeforeGrows(rs, i, j - 1);
    }
  }

  lemma {:induction false} TotalBefore(rs: seq<BlockRef>, i: nat)
    requires i <= |rs|
    ensures Total(rs) == Before(rs, i) + Total(rs[i..])
    ensures i == |rs| ==> Before(rs, i) == Total(rs)
    decreases i
  {
    if i == 0 {
      assert rs[0..] == rs;
    } else {
      TotalBefore(rs, i - 1);
      assert rs[i - 1..][1..] == rs[i..];
    }
  }

  lemma EntryPlace(rs: seq<BlockRef>, i: nat)
    requires Canonical(rs) && i < |rs|
    ensures Fits(rs[i]) && Size(rs[i]) > 0
    ensures Before(rs, i + 1) == Before(rs, i) + Size(rs[i]) <= Total(rs)
  {
    CanonicalAt(rs, i);
    TotalBefore(rs, i + 1);
  }

  // The bytes have `part` from `at` on.
  predicate Holds<T(==)>(bytes: seq<T>, at: nat, part: seq<T>) {
    at + |part| <= |bytes| && forall k :: 0 <= k < |part| ==> part[k] == bytes[at + k]
  }

  lemma HoldsMiddle<T>(a: seq<T>, b: seq<T>, c: seq<T>)
    ensures Holds(a + (b + c), |a|, b)
  {
    forall k | 0 <= k < |b|
      ensures b[k] == (a + (b + c))[|a| + k]
    {
    }
  }

  lemma SliceLength(mem: Memory, r: BlockRef)
    requires Fits(r)
    ensures |Slice(mem, r)| == Size(r)
  {
  }

  lemma {:induction false} BeforeIsLength(mem: Memory, rs: seq<BlockRef>, i: nat)
    requires Canonical(rs) && i <= |rs|
    ensures |View(mem, rs[..i])| == Before(rs, i)
    decreases i
  {
    if i > 0 {
      BeforeIsLength(mem, rs, i - 1);
      CanonicalAt(rs, i - 1);
      SliceLength(mem, rs[i - 1]);
      assert rs[..i] == rs[..i - 1] + [rs[i - 1]];
      ViewSnoc(mem, rs[..i - 1], rs[i - 1]);
    }
  }

  lemma Around<T>(s: seq<T>, i: nat)
    requires i < |s|
    ensures s == s[..i] + ([s[i]] + s[i + 1..])
  {
  }

  lemma ViewAround(mem: Memory, rs: seq<BlockRef>, i: nat)
    requires i < |rs|
    ensures View(mem, rs) == View(mem, rs[..i]) + (Slice(mem, rs[i]) + View(mem, rs[i + 1..]))
  {
    Around(rs, i);
    ViewConcat(mem, rs[..i], [rs[i]] + rs[i + 1..]);
    ViewCons(mem, rs[i], rs[i + 1..]);
  }

  lemma EntryBytes(mem: Memory, rs: seq<BlockRef>, i: nat)
    requires Canonical(rs) && i < |rs|
    ensures |View(mem, rs)| == Total(rs) && Holds(View(mem, rs), Before(rs, i), Slice(mem, rs[i]))
  {
    ViewLength(mem, rs);
    BeforeIsLength(mem, rs, i);
    ViewAround(mem, rs, i);
    HoldsMiddle(View(mem, rs[..i]), Slice(mem, rs[i]), View(mem, rs[i + 1..]));
  }

  // How many of `want` bytes from `off` on a run of `total` bytes has.
  function Available(total: nat, off: nat, want: nat): nat {
    if off >= total then 0 else Min(want, total - off)
  }

  // The first `done` slots of dst have the bytes from `off` on, the others are as they were.
  ghost predicate Copied(dst: array<Byte>, done: nat, bytes: seq<Byte>, off: nat, was: seq<Byte>)
    reads dst
  {
    && done <= dst.Length == |was| && (done > 0 ==> off + done <= |bytes|)
    && (forall k :: 0 <= k < done ==> dst[k] == bytes[off + k])
    && (forall k :: done <= k < dst.Length ==> dst[k] == was[k])
  }

  // How many bytes have been copied when the entries before `pos` have been seen.
  function Progress(pos: nat, off: nat): nat {
    if pos <= off then 0 else pos - off
  }

  // ReceiveCursor::copy_out: fills dst from `off` on, as far as there are bytes.
  method CopyOut(mem: Memory, entries: seq<BlockRef>, off: nat, dst: array<Byte>)
    requires Canonical(entries)
    modifies dst
    ensures |View(mem, entries)| == Total(entries)
    ensures Copied(dst, Available(Total(entries), off, dst.Length), View(mem, entries), off, old(dst[..]))
  {
    ViewLength(mem, entries);
    ghost var bytes, was := View(mem, entries), dst[..];
    var remaining: nat, pos: nat, i: nat := dst.Length, 0, 0;
    TotalBefore(entries, |entries|);
    while i < |entries|
      invariant 0 <= i <= |entries| && pos == Before(entries, i) <= |bytes|
      invariant remaining <= dst.Length && dst.Length - remaining == Progress(pos, off)
      invariant Copied(dst, dst.Length - remaining, bytes, off, was)
    {
      EntryPlace(entries, i);
      EntryBytes(mem, entries, i);
      var r := entries[i];
      if pos + Size(r) > off {
        remaining := CopyEntry(mem, r, pos, off, dst, remaining, bytes, was);
        if remaining == 0 {
          break;
        }
      }
      pos := pos + Size(r);
      i := i + 1;
    }
  }

  // Copies what the entry, which starts at `pos`, has of the bytes from `off` on.
  method CopyEntry(mem: Memory, r: BlockRef, pos: nat, off: nat, dst: array<Byte>, left: nat,
                   ghost bytes: seq<Byte>, ghost was: seq<Byte>)
    returns (remaining: nat)
    requires Fits(r) && left <= dst.Length && Holds(bytes, pos, Slice(mem, r))
    requires off < pos + Size(r) && dst.Length - left == Progress(pos, off)
    requires Copied(dst, dst.Length - left, bytes, off, was)
    modifies dst
    ensures remaining <= left && Copied(dst, dst.Length - remaining, bytes, off, was)
    ensures if remaining == 0 then dst.Length <= Progress(pos + Size(r), off)
            else dst.Length - remaining == Progress(pos + Size(r), off)
  {
    var local := if off > pos then off - pos else 0;
    var take := Min(Size(r) - local, left);
    var src, out := Payload(mem, r.blk), dst.Length - left;
    forall k | 0 <= k < take { dst[out + k] := src[r.begin + local + k]; }
    forall k | out <= k < out + take
      ensures dst[k] == bytes[off + k]
    {
      assert dst[k] == src[r.begin + local + (k - out)] == Slice(mem, r)[local + (k - out)];
    }
    remaining := left - take;
  }

  // [off, off + len) reaches over the border between two entries.
  ghost predicate Straddles(rs: seq<BlockRef>, off: nat, len: nat) {
    exists i :: 0 < i < |rs| && off < Before(rs, i) < off + len
  }

  /** ReceiveCursor::try_contiguous: a view of [off, off + len) inside one block. Of a
      non-empty request in range there is one exactly when it does not straddle entries, and
      beyond the range there is none. Both as long as the sum fits std::size_t: where it
      wraps, a view can be returned although the bytes are not there. */
  method TryContiguous(mem: Memory, entries: seq<BlockRef>, off: nat, len: nat) returns (span: Option<BlockRef>)
    requires Canonical(entries)
    ensures |View(mem, entries)| == Total(entries)
    ensures len == 0 ==> span.Some? && Slice(mem, span.value) == []
    ensures 0 < len && off + len < SIZE_MODULUS && off + len <= Total(entries) ==>
              (span.None? <==> Straddles(entries, off, len))
    ensures 0 < len && off + len < SIZE_MODULUS && off + len > Total(entries) ==> span.None?
    ensures 0 < len && off + len < SIZE_MODULUS && span.Some? ==>
              Slice(mem, span.value) == View(mem, entries)[off..off + len]
    ensures 0 < len && entries != [] && off < Size(entries[0]) ==>
              (span.Some? <==> SizeAdd(off, len) <= Size(entries[0]))
  {
    ViewLength(mem, entries);
    if len == 0 {
      return Some(Invalid);
    }
    var pos: nat, i: nat := 0, 0;
    TotalBefore(entries, |entries|);
    while i < |entries| && pos + Size(entries[i]) <= off
      invariant i <= |entries| && pos == Before(entries, i) <= off
      invariant i > 0 ==> Size(entries[0]) <= off
    {
      EntryPlace(entries, i);
      pos := pos + Size(entries[i]);
      i := i + 1;
    }
    ViewLength(mem, entries);
    if i == |entries| {
      return None;
    }
    span := SpanIn(mem, entries, i, off - pos, len);
  }

  // The request starts `local` bytes into entry i.
  method SpanIn(mem: Memory, entries: seq<BlockRef>, i: nat, local: nat, len: nat) returns (span: Option<BlockRef>)
    requires Canonical(entries) && i < |entries| && local < Size(entries[i]) && len > 0
    ensures |View(mem, entries)| == Total(entries)
    ensures span.Some? <==> SizeAdd(local, len) <= Size(entries[i])
    ensures var off := Before(entries, i) + local;
            off + len < SIZE_MODULUS ==>
            && (off + len <= Total(entries) ==> (span.None? <==> Straddles(entries, off, len)))
            && (off + len > Total(entries) ==> span.None?)
            && (span.Some? ==>
                  off + len <= Total(entries) && Slice(mem, span.value) == View(mem, entries)[off..off + len])
  {
    ViewLength(mem, entries);
    EntryPlace(entries, i);
    var r := entries[i];
    if SizeAdd(local, len) <= Size(r) {
      span := Some(Span(r, local, len));
      if local + len < SIZE_MODULUS {
        NotStraddling(entries, i, Before(entries, i) + local, len);
        SpanBytes(mem, entries, i, local, len);
      }
    } else {
      span := None;
      if local + len < SIZE_MODULUS {
        SpanOutside(entries, i, local, len);
      }
    }
  }

  lemma SpanBytes(mem: Memory, rs: seq<BlockRef>, i: nat, local: nat, len: nat)
    requires Canonical(rs) && i < |rs| && local + len <= Size(rs[i])
    ensures Before(rs, i) + local + len <= |View(mem, rs)|
    ensures Slice(mem, Span(rs[i], local, len)) == View(mem, rs)[Before(rs, i) + local..Before(rs, i) + local + len]
  {
    CanonicalAt(rs, i);
    EntryBytes(mem, rs, i);
    SpanOf(mem, View(mem, rs), Before(rs, i), rs[i], local, len);
  }

  function Span(r: BlockRef, from: nat, n: nat): BlockRef {
    r.(begin := r.begin + from, end := r.begin + from + n)
  }

  lemma NotStraddling(rs: seq<BlockRef>, i: nat, off: nat, len: nat)
    requires i < |rs| && Before(rs, i) <= off && off + len <= Before(rs, i + 1)
    ensures !Straddles(rs, off, len)
  {
    forall j | 0 < j < |rs|
      ensures !(off < Before(rs, j) < off + len)
    {
      if j <= i {
        BeforeGrows(rs, j, i);
      } else {
        BeforeGrows(rs, i + 1, j);
      }
    }
  }

  lemma SpanOf(mem: Memory, bytes: seq<Byte>, at: nat, r: BlockRef, from: nat, n: nat)
    requires Fits(r) && from + n <= Size(r) && Holds(bytes, at, Slice(mem, r))
    ensures at + from + n <= |bytes|
    ensures Slice(mem, Span(r, from, n)) == bytes[at + from..at + from + n]
  {
    SliceSpan(mem, r, from, n);
    PartOfHeld(bytes, at, Slice(mem, r), from, n);
  }

  lemma SliceSpan(mem: Memory, r: BlockRef, from: nat, n: nat)
    requires Fits(r) && from + n <= Size(r)
    ensures |Slice(mem, r)| == Size(r) && Slice(mem, Span(r, from, n)) == Slice(mem, r)[from..from + n]
  {
    assert Fits(Span(r, from, n));
    SliceOfSlice(Payload(mem, r.blk), r.begin, r.end, Slice(mem, r), from, n);
  }

  lemma PartOfHeld<T>(bytes: seq<T>, at: nat, part: seq<T>, from: nat, n: nat)
    requires Holds(bytes, at, part) && from + n <= |part|
    ensures bytes[at + from..at + from + n] == part[from..from + n]
  {
    var x, y := bytes[at + from..at + from + n], part[from..from + n];
    forall k | 0 <= k < n
      ensures x[k] == y[k]
    {
      assert y[k] == part[from + k] == bytes[at + (from + k)];
    }
  }

  lemma SpanOutside(rs: seq<BlockRef>, i: nat, local: nat, len: nat)
    requires Canonical(rs) && i < |rs| && local < Size(rs[i]) && local + len > Size(rs[i])
    ensures var off := Before(rs, i) + local; off + len <= Total(rs) ==> Straddles(rs, off, len)
  {
    var off := Before(rs, i) + local;
    EntryPlace(rs, i);
    if i + 1 < |rs| {
      assert off < Before(rs, i + 1) < off + len;
    } else {
      TotalBefore(rs, i + 1);
    }
  }

  /** BlockChain::copy_to and taps::gather: all segments one after the other; the number of
      bytes written is the size of the run. */
  method CopyTo(mem: Memory, entries: seq<BlockRef>, out: array<Byte>) returns (written: nat)
    requires Canonical(entries) && Total(entries) <= out.Length
    modifies out
    ensures written == Total(entries) == |View(mem, entries)|
    ensures out[..written] == View(mem, entries) && out[written..] == old(out[written..])
  {
    ViewLength(mem, entries);
    written := 0;
    ghost var bytes := View(mem, entries);
    TotalBefore(entries, |entries|);
    for i := 0 to |entries|
      invariant written == Before(entries, i) <= |bytes|
      invariant forall k :: 0 <= k < written ==> out[k] == bytes[k]
      invariant forall k :: written <= k < out.Length ==> out[k] == old(out[k])
    {
      EntryPlace(entries, i);
      EntryBytes(mem, entries, i);
      CopySegment(mem, entries[i], out, written, bytes);
      written := written + Size(entries[i]);
    }
    assert out[..written] == bytes;
  }

  method CopySegment(mem: Memory, r: BlockRef, out: array<Byte>, at: nat, ghost bytes: seq<Byte>)
    requires Fits(r) && at + Size(r) <= out.Length && Holds(bytes, at, Slice(mem, r))
    modifies out
    ensures forall k :: at <= k < at + Size(r) ==> out[k] == bytes[k]
    ensures forall k :: 0 <= k < out.Length && !(at <= k < at + Size(r)) ==> out[k] == old(out[k])
  {
    var src := Payload(mem, r.blk);
    forall k | 0 <= k < Size(r) { out[at + k] := src[r.begin + k]; }
    forall k | at <= k < at + Size(r)
      ensures out[k] == bytes[k]
    {
      assert out[k] == src[r.begin + (k - at)] == Slice(mem, r)[k - at];
    }
  }

  /** LengthPrefixedFramer::parse through a cursor: the header may lie in several blocks. */
  method ParseRecordAt(mem: Memory, entries: seq<BlockRef>, avail: nat, width: nat, order: Endian, atEof: bool,
                       native: Endian)
    returns (pr: ParseResult)
    requires Canonical(entries) && avail == Total(entries) && 1 <= width <= 8
    ensures pr == ParseRecord(width, order, View(mem, entries), atEof)
  {
    ViewLength(mem, entries);
    if avail < width {
      return NeedMore(width);
    }
    var length := ReadLength(mem, entries, width, order, native);
    ViewLength(mem, entries);
    var total := SizeAdd(width, length);
    if avail < total {
      if atEof && avail > width {
        return Emit(width, avail - width, false, false);
      }
      return NeedMore(total);
    }
    pr := Emit(width, length, true, false);
  }

  method ReadLength(mem: Memory, entries: seq<BlockRef>, width: nat, order: Endian, native: Endian) returns (length: nat)
    requires Canonical(entries) && 1 <= width <= 8 && width <= Total(entries)
    ensures width <= |View(mem, entries)| && length == Announced(width, order, View(mem, entries))
  {
    ViewLength(mem, entries);
    ghost var bytes := View(mem, entries);
    var hdr := new Byte[width];
    CopyOut(mem, entries, 0, hdr);
    assert hdr[..width] == bytes[..width];
    length := DecodeLength(hdr, width, order, native);
  }

  // The bytes of a run in one piece.
  method Gathered(mem: Memory, entries: seq<BlockRef>, total: nat) returns (bytes: seq<Byte>)
    requires Canonical(entries) && total == Total(entries)
    ensures bytes == View(mem, entries)
  {
    ghost var view := View(mem, entries);
    var out := new Byte[total];
    var written := CopyTo(mem, entries, out);
    assert View(mem, entries) == view;
    bytes := out[..written];
  }
}
