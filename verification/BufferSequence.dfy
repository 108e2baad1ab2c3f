/** The buffers of a write (src/transport/const_buffer_sequence.h): the framing header, if any,
    and behind it the payload. None of them is empty. */
module BufferSequence {
  import opened Bytes
  import opened Blocks
  import opened Ranges
  import BlockChains
  import opened Messages

  class ConstBufferSequence {
    const header: seq<Byte>
    const body: seq<Byte>
    const chain: BlockChains.BlockChain?
    const pool: MessageBlockPool?     // of the chain's blocks

    // The payload of a received Message is its chain, that of any other one run of bytes.
    constructor (header: seq<Byte>, message: Message)
      requires message.Valid()
      ensures this.header == header && Valid() && Body() == message.Payload()
      ensures if message.backing.Chained? then chain == message.backing.chain && pool == message.backing.pool
              else chain == null
    {
      this.header := header;
      match message.backing {
        case Chained(c, p) => chain, pool, body := c, p, [];
        case OwnedBytes(bytes) => chain, pool, body := null, null, bytes;
        case ViewedBytes(bytes) => chain, pool, body := null, null, bytes;
      }
    }

    ghost predicate Valid()
      reads if chain == null then {} else {chain, chain.data}
    {
      chain != null ==> chain.Valid() && pool != null && body == []
    }

    ghost function Entries(): seq<BlockRef>
      reads if chain == null then {} else {chain}
    {
      if chain == null then [] else chain.refs
    }

    ghost function Body(): seq<Byte>
      reads chain, pool
    {
      if chain == null || pool == null then body else View(pool.memory, chain.refs)
    }
  }

  datatype Stage = InHeader | InBody | InChain | AtEnd

  function After(stage: Stage): Stage
    requires stage != AtEnd
  {
    match stage
    case InHeader => InBody
    case InBody => InChain
    case InChain => AtEnd
  }

  // const_iterator
  class Position {
    const buffers: ConstBufferSequence
    var stage: Stage
    var ref: nat                // the entry of the chain, while in it

    /** It stands at a non-empty buffer, or at the end. */
    ghost predicate Valid()
      reads this, if buffers.chain == null then {} else {buffers.chain, buffers.chain.data}
    {
      && buffers.Valid()
      && ref <= |buffers.Entries()| && (stage == InHeader || stage == InBody ==> ref == 0)
      && (stage == InHeader ==> buffers.header != [])
      && (stage == InBody ==> buffers.chain == null && buffers.body != [])
      && (stage == InChain ==> ref < |buffers.Entries()|)
    }

    // The bytes of the buffers from here on.
    ghost function Rest(): seq<Byte>
      requires ref <= |buffers.Entries()|
      reads this, buffers.chain, buffers.pool
    {
      match stage
      case InHeader => buffers.header + buffers.Body()
      case InBody => buffers.Body()
      case InChain => if buffers.pool == null then [] else View(buffers.pool.memory, buffers.Entries()[ref..])
      case AtEnd => []
    }

    ghost function Steps(): nat
      requires ref <= |buffers.Entries()|
      reads this, if buffers.chain == null then {} else {buffers.chain}
    {
      match stage
      case InHeader => |buffers.Entries()| + 3
      case InBody => |buffers.Entries()| + 2
      case InChain => |buffers.Entries()| - ref + 1
      case AtEnd => 0
    }

    // The buffer it stands at.
    ghost function Here(): seq<Byte>
      requires ref <= |buffers.Entries()|
      reads this, buffers.chain, buffers.pool
    {
      if stage == InHeader then buffers.header
      else if stage == InBody then buffers.body
      else if stage == InChain && ref < |buffers.Entries()| && buffers.pool != null then
        Slice(buffers.pool.memory, buffers.Entries()[ref])
      else []
    }

    // begin()
    constructor (buffers: ConstBufferSequence)
      requires buffers.Valid()
      ensures this.buffers == buffers && Valid()
      ensures Rest() == buffers.header + buffers.Body()
    {
      this.buffers, stage, ref := buffers, InHeader, 0;
      new;
      SkipEmpty();
    }

    // Moves past empty parts.
    method SkipEmpty()
      requires buffers.Valid() && ref <= |buffers.Entries()|
      requires stage == InHeader || stage == InBody ==> ref == 0
      modifies this
      ensures Valid() && Rest() == old(Rest()) && Steps() <= old(Steps())
    {
      if stage == InHeader && buffers.header == [] {
        stage := InBody;
      }
      if stage == InBody && (buffers.chain != null || buffers.body == []) {
        stage, ref := InChain, 0;
      }
      if stage == InChain && (buffers.chain == null || ref == buffers.chain.count) {
        stage := AtEnd;
      }
    }

    // operator*
    method Buffer() returns (bytes: seq<Byte>)
      requires Valid() && stage != AtEnd
      ensures bytes == Here() && bytes != [] && bytes <= Rest()
    {
      match stage {
        case InHeader => bytes := buffers.header;
        case InBody => bytes := buffers.body;
        case InChain =>
          CanonicalAt(buffers.chain.refs, ref);
          bytes := Slice(buffers.pool.memory, buffers.chain.data[buffers.chain.head + ref]);
      }
    }

    // operator++
    method Advance()
      requires Valid() && stage != AtEnd
      modifies this
      ensures Valid() && old(Rest()) == old(Here()) + Rest() && Steps() < old(Steps())
    {
      Step();
      SkipEmpty();
    }

    // *it++
    method Take() returns (bytes: seq<Byte>)
      requires Valid() && stage != AtEnd
      modifies this
      ensures Valid() && bytes != [] && old(Rest()) == bytes + Rest() && Steps() < old(Steps())
    {
      bytes := Buffer();
      Advance();
    }

    // To the next part, which may be empty.
    method Step()
      requires Valid() && stage != AtEnd
      modifies this
      ensures ref <= |buffers.Entries()| && (stage == InHeader || stage == InBody ==> ref == 0)
      ensures old(Rest()) == old(Here()) + Rest() && Steps() < old(Steps())
    {
      if stage == InChain {
        ghost var entries := buffers.Entries();
        assert entries[ref..][1..] == entries[ref + 1..];
        ref := ref + 1;
      } else {
        assert buffers.body + [] == buffers.body;
        stage := After(stage);
      }
    }
  }

  /** A write consumes the range from begin() to end(): the bytes are the header followed by
      the whole body, no buffer on the way is empty, and the range ends. */
  method Written(buffers: ConstBufferSequence) returns (wire: seq<Byte>, count: nat)
    requires buffers.Valid()
    ensures wire == buffers.header + buffers.Body()
    ensures count <= |wire| && (wire == [] <==> count == 0)
  {
    var it := new Position(buffers);
    wire, count := [], 0;
    ghost var all := it.Rest();
    while it.stage != AtEnd
      invariant it.Valid() && it.buffers == buffers && fresh(it)
      invariant all == wire + it.Rest()
      invariant count <= |wire| && (wire == [] <==> count == 0)
      decreases it.Steps()
    {
      var bytes := it.Take();
      ConcatAssociative(wire, bytes, it.Rest());
      wire, count := wire + bytes, count + 1;
    }
  }
}
