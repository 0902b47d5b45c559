/** common/block.c. */
module Block {
  import opened Channel

  /** One more piece on the wire. */
  lemma AddPiece(q: seq<Message>, chunks: seq<Bytes>, piece: Bytes)
    ensures q + Pieces(chunks) + [Data(piece)] == q + Pieces(chunks + [piece])
    ensures Concat(chunks + [piece]) == Concat(chunks) + piece
  {
    ConcatAppend(chunks, piece);
    assert Pieces(chunks + [piece]) == Pieces(chunks) + [Data(piece)];
  }

  /** The piece at the head of the queue. */
  lemma FirstPiece(q: seq<Message>, todo: seq<Bytes>, rest: seq<Message>)
    requires q == Pieces(todo) + rest && Small(todo) && Concat(todo) != []
    ensures todo != [] && q != [] && q[0] == Data(todo[0]) && q[1..] == Pieces(todo[1..]) + rest
    ensures Concat(todo) == todo[0] + Concat(todo[1..]) && 0 < |todo[0]| <= BLOCKSIZE && Small(todo[1..])
  {
    assert Pieces(todo)[1..] == Pieces(todo[1..]);
  }

  lemma NoPiece(q: seq<Message>, todo: seq<Bytes>, rest: seq<Message>)
    requires q == Pieces(todo) + rest && Small(todo) && Concat(todo) == []
    ensures q == rest
  {
    assert todo == [];
  }

  /** block_send, lines 30-67. */
  method BlockSend(ch: Channel, data: array<bv8>, at: nat, len: nat) returns (bytesSent: nat, ghost chunks: seq<Bytes>)
    requires at + len <= data.Length
    modifies ch
    ensures bytesSent == len && Small(chunks) && Concat(chunks) == data[at..at + len]
    ensures ch.queue == old(ch.queue) + BlockWire(chunks)
  {
    bytesSent, chunks := 0, [];
    ch.SendMessage(Message.Block(len));
    var remaining, blockSize, ptr := len, BLOCKSIZE, at;
    ghost var q := ch.queue;
    while remaining > 0
      invariant ptr + remaining == at + len && ptr == at + bytesSent && 0 < blockSize <= BLOCKSIZE
      invariant Small(chunks) && Concat(chunks) == data[at..ptr]
      invariant ch.queue == q + Pieces(chunks)
    {
      if blockSize > remaining { blockSize := remaining; }
      var sent := ch.Send(data, ptr, blockSize);
      AddPiece(q, chunks, data[ptr..ptr + sent]);
      chunks := chunks + [data[ptr..ptr + sent]];
      bytesSent := bytesSent + sent;
      ptr := ptr + sent;
      remaining := remaining - sent;
    }
    assert ptr == at + len;
  }

  /** Writing piece after what has been received. */
  lemma Written(was: Bytes, now: Bytes, at: nat, got: Bytes, piece: Bytes, next: Bytes)
    requires at + |got| + |piece| <= |was| && now == was[..at] + got + was[at + |got|..]
    requires next == now[..at + |got|] + piece + now[at + |got| + |piece|..]
    ensures next == was[..at] + (got + piece) + was[at + |got| + |piece|..]
  {
    assert now[..at + |got|] == was[..at] + got;
    assert now[at + |got| + |piece|..] == was[at + |got| + |piece|..];
  }

  /** block_recv, lines 69-100: length is blp->length, and the pieces of the block are the
      next messages.  The caller's buffer suffices, so line 78 never aborts. */
  method BlockRecv(ch: Channel, data: array<bv8>, at: nat, len: nat, length: nat,
                   ghost chunks: seq<Bytes>, ghost rest: seq<Message>)
    returns (bytesReceived: nat)
    requires length <= len && at + len <= data.Length
    requires ch.queue == Pieces(chunks) + rest && Small(chunks) && length == |Concat(chunks)|
    modifies ch, data
    ensures bytesReceived == length && ch.queue == rest
    ensures data[..] == old(data[..at]) + Concat(chunks) + old(data[at + length..])
  {
    hide *;
    bytesReceived := 0;
    var remaining, ptr := length, at;
    ghost var todo, was, got: Bytes := chunks, data[..], [];
    while remaining > 0
      invariant ptr + remaining == at + length && ptr == at + bytesReceived
      invariant remaining == |Concat(todo)| && bytesReceived == |got|
      invariant Small(todo) && ch.queue == Pieces(todo) + rest && Concat(chunks) == got + Concat(todo)
      invariant data[..] == was[..at] + got + was[ptr..]
    {
      FirstPiece(ch.queue, todo, rest);
      ghost var now, piece := data[..], todo[0];
      var received := ch.Receive(data, ptr, remaining);
      Written(was, now, at, got, piece, data[..]);
      got, todo := got + piece, todo[1..];
      bytesReceived := bytesReceived + received;
      ptr := ptr + received;
      remaining := remaining - received;
    }
    NoPiece(ch.queue, todo, rest);
    assert Concat(chunks) == got;
  }

  /** The inner loop of block_forward, lines 132-145: the bytes of buf go on, in as many
      pieces as the channel likes. */
  method PassOn(ch: Channel, buf: array<bv8>, n: nat, ghost q: seq<Message>, ghost chunks: seq<Bytes>)
    returns (passed: nat, ghost chunks': seq<Bytes>)
    requires n <= buf.Length <= BLOCKSIZE && ch.queue == q + Pieces(chunks) && Small(chunks)
    modifies ch
    ensures passed == n && ch.queue == q + Pieces(chunks') && Small(chunks')
    ensures Concat(chunks') == Concat(chunks) + buf[..n]
  {
    var received, ptr := n, 0;
    passed, chunks' := 0, chunks;
    while received > 0
      invariant ptr + received == n && passed == ptr
      invariant ch.queue == q + Pieces(chunks') && Small(chunks') && Concat(chunks') == Concat(chunks) + buf[..ptr]
    {
      var sent := ch.Send(buf, ptr, received);
      AddPiece(q, chunks', buf[ptr..ptr + sent]);
      assert buf[..ptr] + buf[ptr..ptr + sent] == buf[..ptr + sent];
      chunks' := chunks' + [buf[ptr..ptr + sent]];
      passed := passed + sent;
      ptr := ptr + sent;
      received := received - sent;
    }
  }

  /** block_forward, lines 102-151.  Every incoming piece fits the buffer of BLOCKSIZE
      bytes. */
  method BlockForward(chIn: Channel, chOut: Channel, length: nat, ghost chunks: seq<Bytes>, ghost rest: seq<Message>)
    returns (bytesForwarded: nat, ghost chunks': seq<Bytes>)
    requires chIn != chOut && chIn.queue == Pieces(chunks) + rest && Small(chunks) && length == |Concat(chunks)|
    modifies chIn, chOut
    ensures bytesForwarded == length && chIn.queue == rest
    ensures Small(chunks') && Concat(chunks') == Concat(chunks)
    ensures chOut.queue == old(chOut.queue) + BlockWire(chunks')
  {
    Begin(length, chunks, chOut.queue);
    hide *;
    bytesForwarded, chunks' := 0, [];
    chOut.SendMessage(Message.Block(length));
    var remaining, blockSize: nat := length, 1024;
    var buf := new bv8[blockSize];
    ghost var todo, q := chunks, chOut.queue;
    while remaining > 0
      invariant bytesForwarded + remaining == length && remaining == |Concat(todo)|
      invariant 0 < blockSize <= 1024 && (blockSize == 1024 || blockSize >= remaining)
      invariant Small(todo) && chIn.queue == Pieces(todo) + rest
      invariant Small(chunks') && Concat(chunks') + Concat(todo) == Concat(chunks)
      invariant chOut.queue == q + Pieces(chunks')
      decreases remaining
    {
      if blockSize > remaining { blockSize := remaining; }
      FirstPiece(chIn.queue, todo, rest);
      ghost var piece := todo[0];
      var received := chIn.Receive(buf, 0, blockSize);
      assert buf[..received] == piece;
      todo := todo[1..];
      ghost var before := chunks';
      var passed;
      passed, chunks' := PassOn(chOut, buf, received, q, chunks');
      assert Concat(before) + (piece + Concat(todo)) == (Concat(before) + piece) + Concat(todo);
      bytesForwarded := bytesForwarded + passed;
      remaining := remaining - passed;
    }
    NoPiece(chIn.queue, todo, rest);
    assert Concat(chunks') == Concat(chunks);
    Finish(length, chunks', q, old(chOut.queue));
  }

  lemma Begin(length: nat, chunks: seq<Bytes>, q: seq<Message>)
    ensures Concat([]) == [] && Small([]) && BLOCKSIZE == 1024
    ensures q + [Message.Block(length)] + Pieces([]) == q + [Message.Block(length)]
  {
  }

  lemma Finish(length: nat, chunks: seq<Bytes>, q: seq<Message>, q0: seq<Message>)
    requires q == q0 + [Message.Block(length)] && length == |Concat(chunks)|
    ensures q + Pieces(chunks) == q0 + BlockWire(chunks)
  {
  }
}
