/** Message framers on values (include/taps/message_framer.h, src/message_framer.cpp):
    what parse() decides from the bytes behind the cursor, and what write_header() adds. */
module Framing {
  import opened Bytes
  import opened LengthCodec

  datatype ParseResult =
    | NeedMore(minBytesNeeded: nat)
    | Emit(discardBefore: nat, deliver: nat, endOfMessage: bool, gather: bool)

  // Custom is any other framer whose answers depend on the cursor and the EOF flag, and on
  // the Message, only.
  datatype Framer =
    | LengthPrefixed(width: nat, order: Endian)
    | Passthrough(gather: bool)
    | Custom(parse: (seq<Byte>, bool) -> ParseResult, header: seq<Byte> -> seq<Byte>)

  // The constructor of LengthPrefixedFramer clamps the width to 1..8.
  function MakeLengthPrefixed(width: nat, order: Endian): (f: Framer)
    ensures width == 0 ==> f == LengthPrefixed(1, order)
    ensures 1 <= width <= 8 ==> f == LengthPrefixed(width, order)
    ensures width > 8 ==> f == LengthPrefixed(8, order)
  {
    LengthPrefixed(if width < 1 then 1 else if width > 8 then 8 else width, order)
  }

  predicate Usable(f: Framer) {
    f.LengthPrefixed? ==> 1 <= f.width <= 8
  }

  function Parse(f: Framer, buf: seq<Byte>, atEof: bool): ParseResult
    requires Usable(f)
  {
    match f
    case LengthPrefixed(width, order) => ParseRecord(width, order, buf, atEof)
    case Passthrough(gather) =>
      if !atEof || buf == [] then NeedMore(0) else Emit(0, |buf|, true, gather)
    case Custom(parse, _) => parse(buf, atEof)
  }

  // The body length a record announces.
  function Announced(width: nat, order: Endian, buf: seq<Byte>): nat
    requires width <= |buf|
  {
    Value(order, buf[..width])
  }

  // LengthPrefixedFramer::parse. The record size is a std::size_t sum, which wraps.
  function ParseRecord(width: nat, order: Endian, buf: seq<Byte>, atEof: bool): ParseResult {
    if |buf| < width then NeedMore(width)
    else
      var length := Announced(width, order, buf);
      var total := SizeAdd(width, length);
      if |buf| < total then
        if atEof && |buf| > width then Emit(width, |buf| - width, false, false) else NeedMore(total)
      else Emit(width, length, true, false)
  }

  // What a length-prefixed record means when sizes are not bounded: a record is emitted
  // when the whole of it is there, or at the end of the stream with the part that is.
  function IdealRecord(width: nat, order: Endian, buf: seq<Byte>, atEof: bool): ParseResult {
    if |buf| < width then NeedMore(width)
    else
      var length := Announced(width, order, buf);
      if width + length <= |buf| then Emit(width, length, true, false)
      else if atEof && |buf| > width then Emit(width, |buf| - width, false, false)
      else NeedMore(width + length)
  }

  // The announced record is larger than std::size_t can say: only an 8-byte field can.
  predicate Overflows(width: nat, order: Endian, buf: seq<Byte>) {
    width <= |buf| && width + Announced(width, order, buf) >= SIZE_MODULUS
  }

  /** parse() decides as it should exactly when the announced record size fits std::size_t.
      `buf` is in memory, so its size fits. */
  lemma ParseIsIdealUnlessOverflow(width: nat, order: Endian, buf: seq<Byte>, atEof: bool)
    requires 1 <= width <= 8 && |buf| < SIZE_MODULUS
    ensures ParseRecord(width, order, buf, atEof) == IdealRecord(width, order, buf, atEof)
            <==> !Overflows(width, order, buf)
  {
    if width <= |buf| {
      var length := Announced(width, order, buf);
      FieldFits(width);
      if Overflows(width, order, buf) {
        assert SizeAdd(width, length) == width + length - SIZE_MODULUS < width;
      }
    }
  }

  /** Only an 8-byte length field can announce such a record. */
  lemma NarrowFieldsNeverOverflow(width: nat, order: Endian, buf: seq<Byte>)
    requires 1 <= width <= 7
    ensures !Overflows(width, order, buf)
  {
    if width <= |buf| {
      Pow256Monotone(width, 7);
      FieldFits(8);
    }
  }

  /** The failing family is not empty: nine bytes announcing 2^64 - 1 are taken for a
      complete record, although almost all of it has yet to arrive. */
  lemma OverflowExample(buf: seq<Byte>)
    requires |buf| == 9 && forall i :: 0 <= i < 8 ==> buf[i] == 255
    ensures ParseRecord(8, Little, buf, false) == Emit(8, 0xFFFF_FFFF_FFFF_FFFF, true, false)
    ensures IdealRecord(8, Little, buf, false) == NeedMore(0x1_0000_0000_0000_0007)
  {
    LargestValue(buf[..8]);
    FieldFits(8);
  }

  lemma {:induction false} LargestValue(s: seq<Byte>)
    requires forall i :: 0 <= i < |s| ==> s[i] == 255
    ensures LittleValue(s) == Pow256(|s|) - 1
  {
    if s != [] {
      LargestValue(s[1..]);
    }
  }

  // LengthPrefixedFramer::write_header for a Message of `size` bytes.
  function Header(width: nat, order: Endian, size: nat): (h: seq<Byte>)
    ensures |h| == width
  {
    Digits(order, size, width)
  }

  // What send() puts on the wire for one Message.
  function Record(width: nat, order: Endian, body: seq<Byte>): seq<Byte> {
    Header(width, order, |body|) + body
  }

  // What a sequence of sends puts on the wire.
  function Wire(width: nat, order: Endian, bodies: seq<seq<Byte>>): seq<Byte> {
    if bodies == [] then [] else Record(width, order, bodies[0]) + Wire(width, order, bodies[1..])
  }

  /** The bytes of a record: the size, in base 256 with the most significant digit first or
      last, and then the Message. */
  lemma RecordBytes(width: nat, order: Endian, body: seq<Byte>, i: nat)
    requires i < width
    ensures Record(width, order, body)[i] == (|body| / Pow256(if order == Big then width - 1 - i else i)) % 256
    ensures Record(width, order, body)[width..] == body
  {
    DigitAt(order, |body|, width, i);
  }

  // On the wire a Message of 3 bytes in network order is 0, 0, 0, 3 and the bytes.
  lemma RecordOfThree(body: seq<Byte>)
    requires |body| == 3
    ensures Record(4, Big, body) == [0, 0, 0, 3] + body
  {
    assert Pow256(0) == 1 && Pow256(1) == 256 && Pow256(2) == 65536 && Pow256(3) == 16777216;
    forall i | 0 <= i < 4
      ensures Record(4, Big, body)[i] == [0, 0, 0, 3][i]
    {
      RecordBytes(4, Big, body, i);
    }
  }

  // What send() is to put on the wire for one Message: its record, or just its bytes.
  predicate Framed(f: Option<Framer>, payload: seq<Byte>, wire: seq<Byte>) {
    && (f.None? || f.value.Passthrough? ==> wire == payload)
    && (f.Some? && f.value.LengthPrefixed? ==> wire == Record(f.value.width, f.value.order, payload))
    && (f.Some? && f.value.Custom? ==> wire == f.value.header(payload) + payload)
  }

  /** The size a record announces is the Message's size modulo 256^width, hence the size
      itself exactly when the field is wide enough. */
  lemma AnnouncedByRecord(width: nat, order: Endian, body: seq<Byte>, more: seq<Byte>)
    ensures |Record(width, order, body) + more| >= width
    ensures Announced(width, order, Record(width, order, body) + more) == |body| % Pow256(width)
    ensures Announced(width, order, Record(width, order, body) + more) == |body| <==> |body| < Pow256(width)
  {
    var h := Header(width, order, |body|);
    assert (Record(width, order, body) + more)[..width] == h;
    DecodeEncode(order, |body|, width);
    LengthSurvives(order, |body|, width);
  }
}
