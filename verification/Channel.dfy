/** The message channel under common/stream.c and common/block.c: an SCTP association,
    which keeps the order and the boundaries of messages (sections 1.5.2 and 6.6 of
    RFC 4960), and the words of the stream protocol. */
module Channel {
  type Bytes = seq<bv8>

  datatype Format = Raw | Lzo

  /** CLARA_MSG_STREAM_START, CLARA_MSG_BLOCK, a piece of a block, CLARA_MSG_STREAM_END. */
  datatype Message =
    | Start(format: Format, blockSize: nat)
    | Block(length: nat)
    | Data(bytes: Bytes)
    | End

  /** Messages under way from one end to the other. */
  class Channel {
    var queue: seq<Message>

    constructor ()
      ensures queue == []
    {
      queue := [];
    }

    /** clara_sendmsg, common/net.c:151-176. */
    method SendMessage(m: Message)
      modifies this
      ensures queue == old(queue) + [m]
    {
      queue := queue + [m];
    }

    /** clara_send, common/net.c:133-144: accepts at least one byte, perhaps not all. */
    method Send(data: array<bv8>, at: nat, len: nat) returns (accepted: nat)
      requires 0 < len && at + len <= data.Length
      modifies this
      ensures 0 < accepted <= len && queue == old(queue) + [Data(data[at..at + accepted])]
    {
      accepted :| 0 < accepted <= len;
      queue := queue + [Data(data[at..at + accepted])];
    }

    /** clara_recvmsg, common/net.c:223-280. */
    method ReceiveMessage() returns (m: Message)
      requires queue != [] && !queue[0].Data?
      modifies this
      ensures m == old(queue[0]) && queue == old(queue[1..])
    {
      m := queue[0];
      queue := queue[1..];
    }

    /** clara_recv, common/net.c:184-216.  The next piece must fit: line 208 complains of
        one that does not. */
    method Receive(data: array<bv8>, at: nat, len: nat) returns (received: nat)
      requires queue != [] && queue[0].Data? && |queue[0].bytes| <= len && at + len <= data.Length
      modifies this, data
      ensures received == |old(queue[0].bytes)| && queue == old(queue[1..])
      ensures data[..] == old(data[..at]) + old(queue[0].bytes) + old(data[at + |queue[0].bytes|..])
    {
      var bytes := queue[0].bytes;
      forall i | 0 <= i < |bytes| {
        data[at + i] := bytes[i];
      }
      received := |bytes|;
      queue := queue[1..];
    }
  }

  // ---------- What a stream looks like on the wire ----------

  function Concat(s: seq<Bytes>): Bytes {
    if s == [] then [] else s[0] + Concat(s[1..])
  }

  lemma {:induction false} ConcatAppend(s: seq<Bytes>, x: Bytes)
    ensures Concat(s + [x]) == Concat(s) + x
  {
    if s == [] {
      assert s + [x] == [x] && Concat([x]) == x + Concat([]);
    } else {
      ConcatAppend(s[1..], x);
      assert (s + [x])[1..] == s[1..] + [x];
    }
  }

  /** The pieces of a block, as messages. */
  function Pieces(chunks: seq<Bytes>): seq<Message> {
    seq(|chunks|, i requires 0 <= i < |chunks| => Data(chunks[i]))
  }

  /** BLOCKSIZE, common/block.c:28. */
  const BLOCKSIZE: nat := 1024

  predicate Small(chunks: seq<Bytes>) {
    forall i | 0 <= i < |chunks| :: 0 < |chunks[i]| <= BLOCKSIZE
  }

  function BlockWire(chunks: seq<Bytes>): seq<Message> {
    [Block(|Concat(chunks)|)] + Pieces(chunks)
  }

  function BlocksWire(plan: seq<seq<Bytes>>): seq<Message> {
    if plan == [] then [] else BlockWire(plan[0]) + BlocksWire(plan[1..])
  }

  lemma {:induction false} BlocksWireAppend(plan: seq<seq<Bytes>>, chunks: seq<Bytes>)
    ensures BlocksWire(plan + [chunks]) == BlocksWire(plan) + BlockWire(chunks)
  {
    if plan == [] {
      assert plan + [chunks] == [chunks];
      assert BlocksWire([chunks]) == BlockWire(chunks) + BlocksWire([]);
    } else {
      BlocksWireAppend(plan[1..], chunks);
      assert (plan + [chunks])[1..] == plan[1..] + [chunks];
    }
  }

  predicate AllSmall(plan: seq<seq<Bytes>>) {
    forall i | 0 <= i < |plan| :: Small(plan[i])
  }

  /** The contents of the blocks. */
  function Payload(plan: seq<seq<Bytes>>): (blocks: seq<Bytes>)
    ensures |blocks| == |plan| && forall i | 0 <= i < |plan| :: blocks[i] == Concat(plan[i])
  {
    seq(|plan|, i requires 0 <= i < |plan| => Concat(plan[i]))
  }

  function StreamWire(format: Format, blockSize: nat, plan: seq<seq<Bytes>>): seq<Message> {
    [Start(format, blockSize)] + BlocksWire(plan) + [End]
  }

  /** w carries exactly these blocks, in pieces of at most BLOCKSIZE bytes. */
  ghost predicate Carries(w: seq<Message>, format: Format, blockSize: nat, blocks: seq<Bytes>) {
    exists plan :: w == StreamWire(format, blockSize, plan) && AllSmall(plan) && Payload(plan) == blocks
  }
}
