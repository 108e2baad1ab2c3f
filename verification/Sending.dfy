/** The sending side (src/TCPConnection.cpp): the framing header of a Message and its payload
    as they are, without a copy. */
module Sending {
  import opened Bytes
  import opened LengthCodec
  import opened Framing
  import opened Messages
  import BufferSequence

  const HEADER_ROOM: nat := 64

  // framer_->write_header() into the header on the coroutine frame.
  method WriteHeader(f: Option<Framer>, message: Message, native: Endian) returns (header: seq<Byte>)
    requires message.Valid() && (f.Some? ==> Usable(f.value))
    ensures Framed(f, message.Payload(), header + message.Payload())
  {
    ghost var payload := message.Payload();
    assert [] + payload == payload;
    match f {
      case Some(LengthPrefixed(width, order)) => header := LengthField(message, width, order, native);
      case Some(Custom(_, write)) =>
        var bytes := PayloadOf(message);
        header := write(bytes);
      case _ => header := [];
    }
  }

  method LengthField(message: Message, width: nat, order: Endian, native: Endian) returns (header: seq<Byte>)
    requires message.Valid() && 1 <= width <= 8
    ensures header == Header(width, order, |message.Payload()|)
  {
    var size := message.Size();
    header := FieldOf(size, width, order, native);
  }

  method FieldOf(size: nat, width: nat, order: Endian, native: Endian) returns (header: seq<Byte>)
    requires 1 <= width <= 8
    ensures header == Header(width, order, size)
  {
    var out := new Byte[HEADER_ROOM];
    EncodeLength(size, out, width, order, native);
    header := out[..width];
  }

  method PayloadOf(message: Message) returns (bytes: seq<Byte>)
    requires message.Valid()
    ensures bytes == message.Payload()
  {
    match message.backing {
      case Chained(chain, pool) =>
        var entries := chain.Entries();
        bytes := Readers.Gathered(pool.memory, entries, chain.size);
      case _ => bytes := message.backing.bytes;
    }
  }

  /** What one send() gives to the socket is the Message's record: its header, then its
      payload, whatever it is made of. */
  method BytesToWrite(f: Option<Framer>, message: Message, native: Endian) returns (wire: seq<Byte>)
    requires message.Valid() && (f.Some? ==> Usable(f.value))
    ensures Framed(f, message.Payload(), wire)
  {
    ghost var payload := message.Payload();
    var header := WriteHeader(f, message, native);
    wire := Sent(header, message);
  }

  method Sent(header: seq<Byte>, message: Message) returns (wire: seq<Byte>)
    requires message.Valid()
    ensures wire == header + message.Payload()
  {
    var buffers := new BufferSequence.ConstBufferSequence(header, message);
    var count;
    wire, count := BufferSequence.Written(buffers);
  }
}
