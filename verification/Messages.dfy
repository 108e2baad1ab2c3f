/** Messages (src/Message.cpp): one payload and the ways to read it. */
module Messages {
  import opened Bytes
  import opened Blocks
  import opened Ranges
  import BlockChains
  import Readers

  // What a Message is made of: a vector it owns, a view of the caller's bytes, or the
  // chain of a received Message, whose blocks are of a pool.
  datatype Backing =
    | OwnedBytes(bytes: seq<Byte>)
    | ViewedBytes(bytes: seq<Byte>)
    | Chained(chain: BlockChains.BlockChain, pool: MessageBlockPool)

  class Message {
    const backing: Backing
    const endOfMessage: bool
    var gathered: array?<Byte>     // the contiguous copy of a chain, once made

    ghost predicate Valid()
      reads this, if gathered == null then {} else {gathered}
      reads if backing.Chained? then {backing.chain, backing.chain.data, backing.pool} else {}
    {
      && (backing.Chained? ==> backing.chain.Valid())
      && (gathered != null ==> backing.Chained? && gathered[..] == Payload())
    }

    ghost function Payload(): seq<Byte>
      reads if backing.Chained? then {backing.chain, backing.pool} else {}
    {
      match backing
      case OwnedBytes(bytes) => bytes
      case ViewedBytes(bytes) => bytes
      case Chained(chain, pool) => View(pool.memory, chain.refs)
    }

    // The contiguous runs the payload consists of.
    ghost function Segments(): (s: seq<seq<Byte>>)
      reads if backing.Chained? then {backing.chain, backing.pool} else {}
    {
      match backing
      case OwnedBytes(bytes) => [bytes]
      case ViewedBytes(bytes) => [bytes]
      case Chained(chain, pool) => Slices(pool.memory, chain.refs)
    }

    constructor (backing: Backing, endOfMessage: bool)
      requires backing.Chained? ==> backing.chain.Valid()
      ensures Valid() && this.backing == backing && this.endOfMessage == endOfMessage && gathered == null
    {
      this.backing, this.endOfMessage, gathered := backing, endOfMessage, null;
    }

    method Size() returns (n: nat)
      requires Valid()
      ensures n == |Payload()|
    {
      match backing {
        case OwnedBytes(bytes) => n := |bytes|;
        case ViewedBytes(bytes) => n := |bytes|;
        case Chained(chain, pool) =>
          ViewLength(pool.memory, chain.refs);
          n := chain.size;
      }
    }

    method SegmentCount() returns (n: nat)
      requires Valid()
      ensures n == |Segments()|
    {
      n := if backing.Chained? then backing.chain.count else 1;
    }

    method Segment(i: nat) returns (bytes: seq<Byte>)
      requires Valid() && i < |Segments()|
      ensures bytes == Segments()[i]
    {
      match backing {
        case OwnedBytes(b) => bytes := b;
        case ViewedBytes(b) => bytes := b;
        case Chained(chain, pool) => bytes := BlockBytes(chain, pool, i);
      }
    }

    method BlockBytes(chain: BlockChains.BlockChain, pool: MessageBlockPool, i: nat) returns (bytes: seq<Byte>)
      requires chain.Stored() && i < |chain.refs|
      ensures bytes == Slices(pool.memory, chain.refs)[i]
    {
      var r := chain.data[chain.head + i];
      assert chain.refs[i] == r;
      bytes := Slice(pool.memory, r);
    }

    // blocks(): the segments, front to back.
    method Blocks() returns (segments: seq<seq<Byte>>)
      requires Valid()
      ensures segments == Segments() && Concat(segments) == Payload()
    {
      var n := SegmentCount();
      segments := [];
      for i := 0 to n
        invariant segments == Segments()[..i]
      {
        var bytes := Segment(i);
        segments := segments + [bytes];
      }
      SegmentsArePayload();
    }

    /** blocks() one after the other are the payload. */
    lemma SegmentsArePayload()
      requires Valid()
      ensures Concat(Segments()) == Payload()
    {
      match backing {
        case OwnedBytes(bytes) => OneSegment(bytes);
        case ViewedBytes(bytes) => OneSegment(bytes);
        case Chained(chain, pool) => SlicesAreView(pool.memory, chain.refs);
      }
    }

    lemma OneSegment(bytes: seq<Byte>)
      ensures Concat([bytes]) == bytes
    {
      assert Concat([bytes]) == bytes + Concat([bytes][1..]);
    }

    /** as_bytes(): the payload in one piece. It is copied once at most, and only when it
        lies in several blocks. */
    method AsBytes() returns (bytes: seq<Byte>)
      requires Valid()
      modifies this`gathered
      ensures Valid() && bytes == Payload()
      ensures gathered != old(gathered) ==> old(gathered) == null && fresh(gathered) && |Segments()| >= 2
      ensures |Segments()| >= 2 ==> gathered != null
    {
      match backing {
        case OwnedBytes(b) => bytes := b;
        case ViewedBytes(b) => bytes := b;
        case Chained(chain, pool) => bytes := EnsureGathered(chain, pool);
      }
    }

    method EnsureGathered(chain: BlockChains.BlockChain, pool: MessageBlockPool) returns (bytes: seq<Byte>)
      requires Valid() && backing == Chained(chain, pool)
      modifies this`gathered
      ensures Valid() && bytes == Payload()
      ensures gathered != old(gathered) ==> old(gathered) == null && fresh(gathered) && |chain.refs| >= 2
      ensures |chain.refs| >= 2 ==> gathered != null
    {
      if chain.count == 0 {
        bytes := [];
      } else if chain.count == 1 {
        var r := chain.data[chain.head];
        bytes := Slice(pool.memory, r);                // viewed in place
        assert chain.refs == [] + [r];
        ViewSnoc(pool.memory, [], r);
      } else {
        if gathered == null {
          var copy := new Byte[chain.size];
          var entries := chain.Entries();
          var written := Readers.CopyTo(pool.memory, entries, copy);
          gathered := copy;
        }
        bytes := gathered[..];
      }
    }
  }

  /** taps::gather: copies the segments into the caller's buffer, and returns how many bytes
      they are. */
  method Gather(out: array<Byte>, message: Message) returns (written: nat)
    requires message.Valid() && message.gathered != out && |message.Payload()| <= out.Length
    modifies out
    ensures written == |message.Payload()| && out[..written] == message.Payload()
    ensures out[written..] == old(out[written..])
  {
    match message.backing {
      case Chained(chain, pool) =>
        ViewLength(pool.memory, chain.refs);
        var entries := chain.Entries();
        written := Readers.CopyTo(pool.memory, entries, out);
      case _ =>
        var bytes := message.backing.bytes;
        forall i | 0 <= i < |bytes| { out[i] := bytes[i]; }
        written := |bytes|;
    }
  }
}
