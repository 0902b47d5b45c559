/** common/stream.c: sending a buffer as a stream of blocks, receiving it, and relaying a
    stream.  LZO is a parameter of which only two laws are used. */
module Stream {
  import opened Block
  import opened Channel

  /** lzo1x_1_compress and lzo1x_decompress. */
  datatype Codec = Codec(compress: Bytes -> Bytes, decompress: Bytes -> Bytes) {
    /** Decompressing undoes compressing, and the output buffer that stream_send allocates
        on line 69 is large enough. */
    ghost predicate Good() {
      forall x: Bytes :: decompress(compress(x)) == x && |compress(x)| <= Bound(|x|)
    }
  }

  /** Lines 69 and 151: the size of the buffer for an encoded block. */
  function Bound(blockSize: nat): nat {
    blockSize + blockSize / 16 + 64 + 3
  }

  /** struct stream_options. */
  datatype Options = Options(format: Format, blockSize: nat)

  datatype MaybeOptions = Default | Given(options: Options)

  /** The blocks into which data is cut; with a block size of zero only no data can be.  All but
      the last are full. */
  function Cut(data: Bytes, blockSize: nat): (blocks: seq<Bytes>)
    ensures blockSize > 0 || data == [] ==> Concat(blocks) == data
    ensures forall i | 0 <= i < |blocks| :: 0 < |blocks[i]| <= blockSize
    ensures forall i | 0 <= i < |blocks| - 1 :: |blocks[i]| == blockSize
    decreases |data|
  {
    if data == [] || blockSize == 0 then []
    else
      var n := if blockSize > |data| then |data| else blockSize;
      [data[..n]] + Cut(data[n..], blockSize)
  }

  function Encode(codec: Codec, format: Format, blocks: seq<Bytes>): (e: seq<Bytes>)
    ensures |e| == |blocks|
  {
    if blocks == [] then []
    else [if format == Lzo then codec.compress(blocks[0]) else blocks[0]] + Encode(codec, format, blocks[1..])
  }

  /** What stream_send puts on the wire for data. */
  ghost predicate Sent(w: seq<Message>, codec: Codec, o: Options, data: Bytes)
  {
    Carries(w, o.format, o.blockSize, Encode(codec, o.format, Cut(data, o.blockSize)))
  }

  lemma {:induction false} BlocksFit(codec: Codec, format: Format, blocks: seq<Bytes>, blockSize: nat, i: nat)
    requires codec.Good() && i < |blocks| && forall j | 0 <= j < |blocks| :: |blocks[j]| <= blockSize
    ensures |Encode(codec, format, blocks)[i]| <= if format == Lzo then blockSize + blockSize / 16 + 67 else blockSize
  {
    if i > 0 {
      BlocksFit(codec, format, blocks[1..], blockSize, i - 1);
      assert Encode(codec, format, blocks)[1..] == Encode(codec, format, blocks[1..]);
    }
  }

  /** lzo1x_1_compress, line 84. */
  method Compress(codec: Codec, src: array<bv8>, at: nat, n: nat, dst: array<bv8>) returns (size: nat)
    requires codec.Good() && at + n <= src.Length && Bound(n) <= dst.Length && src != dst
    modifies dst
    ensures size <= dst.Length && dst[..size] == codec.compress(src[at..at + n])
  {
    ghost var x := src[at..at + n];
    var e := codec.compress(src[at..at + n]);
    forall i | 0 <= i < |e| {
      dst[i] := e[i];
    }
    size := |e|;
    assert dst[..size] == e && src[at..at + n] == x;
  }

  /** lzo1x_decompress, line 186. */
  method Decompress(codec: Codec, src: array<bv8>, n: nat, dst: array<bv8>, at: nat) returns (size: nat)
    requires n <= src.Length && at + |codec.decompress(src[..n])| <= dst.Length && src != dst
    modifies dst
    ensures size == |codec.decompress(old(src[..n]))|
    ensures dst[..] == old(dst[..at]) + codec.decompress(old(src[..n])) + old(dst[at + size..])
  {
    var d := codec.decompress(src[..n]);
    forall i | 0 <= i < |d| {
      dst[at + i] := d[i];
    }
    size := |d|;
  }

  // ---------- stream_send ----------

  /** How many bytes the next block takes. */
  function Take(blockSize: nat, remaining: nat): nat {
    if blockSize > remaining then remaining else blockSize
  }

  lemma CutNext(codec: Codec, o: Options, left: Bytes)
    requires o.blockSize > 0 && left != []
    ensures var n := Take(o.blockSize, |left|);
      && 0 < n <= |left|
      && Encode(codec, o.format, Cut(left, o.blockSize)) ==
         [if o.format == Lzo then codec.compress(left[..n]) else left[..n]]
         + Encode(codec, o.format, Cut(left[n..], o.blockSize))
  {
    var n := Take(o.blockSize, |left|);
    var rest := Cut(left[n..], o.blockSize);
    assert ([left[..n]] + rest)[1..] == rest;
  }

  /** The blocks so far and the blocks of what is left. */
  ghost predicate Halfway(codec: Codec, o: Options, data: Bytes, plan: seq<seq<Bytes>>, left: Bytes)
  {
    && AllSmall(plan)
    && Encode(codec, o.format, Cut(data, o.blockSize)) == Payload(plan) + Encode(codec, o.format, Cut(left, o.blockSize))
  }

  lemma HalfwayIs(codec: Codec, o: Options, data: Bytes, plan: seq<seq<Bytes>>, left: Bytes)
    ensures Halfway(codec, o, data, plan, left) <==>
      && AllSmall(plan)
      && Encode(codec, o.format, Cut(data, o.blockSize)) == Payload(plan) + Encode(codec, o.format, Cut(left, o.blockSize))
  {
  }

  lemma AddToPlan(plan: seq<seq<Bytes>>, chunks: seq<Bytes>)
    ensures Payload(plan + [chunks]) == Payload(plan) + [Concat(chunks)]
    ensures AllSmall(plan + [chunks]) <==> AllSmall(plan) && Small(chunks)
  {
    if AllSmall(plan + [chunks]) {
      assert (plan + [chunks])[|plan|] == chunks;
      assert forall i | 0 <= i < |plan| :: (plan + [chunks])[i] == plan[i];
    }
  }

  lemma HalfwayStep(codec: Codec, o: Options, data: Bytes, plan: seq<seq<Bytes>>, left: Bytes, chunks: seq<Bytes>)
    requires o.blockSize > 0 && Halfway(codec, o, data, plan, left) && left != [] && Small(chunks)
    requires var n := Take(o.blockSize, |left|);
      Concat(chunks) == if o.format == Lzo then codec.compress(left[..n]) else left[..n]
    ensures Halfway(codec, o, data, plan + [chunks], left[Take(o.blockSize, |left|)..])
  {
    hide *;
    CutNext(codec, o, left);
    AddToPlan(plan, chunks);
    var rest := Encode(codec, o.format, Cut(left[Take(o.blockSize, |left|)..], o.blockSize));
    assert Payload(plan) + ([Concat(chunks)] + rest) == (Payload(plan) + [Concat(chunks)]) + rest;
    HalfwayIs(codec, o, data, plan, left);
    HalfwayIs(codec, o, data, plan + [chunks], left[Take(o.blockSize, |left|)..]);
  }

  /** The blocks of plan carry the first ptr bytes of data. */
  ghost predicate HalfwayAt(codec: Codec, o: Options, data: Bytes, plan: seq<seq<Bytes>>, ptr: nat)
  {
    ptr <= |data| && Halfway(codec, o, data, plan, data[ptr..])
  }

  lemma HalfwayAtStep(codec: Codec, o: Options, data: Bytes, plan: seq<seq<Bytes>>, ptr: nat, n: nat, chunks: seq<Bytes>)
    requires o.blockSize > 0 && HalfwayAt(codec, o, data, plan, ptr) && ptr < |data| && Small(chunks)
    requires n == Take(o.blockSize, |data| - ptr)
    requires Concat(chunks) == if o.format == Lzo then codec.compress(data[ptr..ptr + n]) else data[ptr..ptr + n]
    ensures HalfwayAt(codec, o, data, plan + [chunks], ptr + n)
  {
    hide Halfway, Encode, Cut, Concat, AllSmall, Payload;
    assert data[ptr..][..n] == data[ptr..ptr + n] && data[ptr..][n..] == data[ptr + n..];
    HalfwayStep(codec, o, data, plan, data[ptr..], chunks);
  }

  lemma HalfwayEnd(codec: Codec, o: Options, data: Bytes, plan: seq<seq<Bytes>>)
    requires HalfwayAt(codec, o, data, plan, |data|)
    ensures Sent(StreamWire(o.format, o.blockSize, plan), codec, o, data)
  {
    assert data[|data|..] == [];
    assert Payload(plan) + [] == Payload(plan);
  }

  /** The queue q with the blocks of plan after it. */
  function After(q: seq<Message>, plan: seq<seq<Bytes>>): seq<Message> {
    q + BlocksWire(plan)
  }

  lemma WireGrows(q: seq<Message>, plan: seq<seq<Bytes>>, chunks: seq<Bytes>)
    ensures After(q, plan) + BlockWire(chunks) == After(q, plan + [chunks])
  {
    BlocksWireAppend(plan, chunks);
  }

  lemma WireBegins(codec: Codec, o: Options, data: Bytes, q: seq<Message>)
    ensures HalfwayAt(codec, o, data, [], 0) && After(q, []) == q
  {
    assert Payload([]) == [] && data[0..] == data;
  }

  lemma WireEnds(q: seq<Message>, o: Options, plan: seq<seq<Bytes>>)
    ensures After(q + [Start(o.format, o.blockSize)], plan) + [End] == q + StreamWire(o.format, o.blockSize, plan)
  {
  }

  lemma BoundGrows(n: nat, m: nat)
    requires n <= m
    ensures Bound(n) <= Bound(m)
  {
  }

  /** Lines 82-96: one block. */
  method SendBlock(ch: Channel, data: array<bv8>, ptr: nat, rawSize: nat, o: Options, codec: Codec, blkbuf: array<bv8>,
                   ghost x: Bytes)
    returns (ghost chunks: seq<Bytes>)
    requires ptr + rawSize <= data.Length && x == data[ptr..ptr + rawSize] && codec.Good() && blkbuf != data
    requires Bound(rawSize) <= blkbuf.Length
    modifies ch, blkbuf
    ensures Small(chunks) && ch.queue == old(ch.queue) + BlockWire(chunks)
    ensures Concat(chunks) == if o.format == Lzo then codec.compress(x) else x
  {
    hide *;
    var sent;
    if o.format == Lzo {
      var encSize := Compress(codec, data, ptr, rawSize, blkbuf);
      sent, chunks := BlockSend(ch, blkbuf, 0, encSize);
      assert blkbuf[0..0 + encSize] == blkbuf[..encSize];
      assert sent == encSize;
    } else {
      sent, chunks := BlockSend(ch, data, ptr, rawSize);
      assert sent == rawSize;
    }
  }

  /** stream_send, lines 33-124: len bytes of data go out as one stream in the format and with
      the block size that the caller asks for, RAW and 1 MiB when it gives no options; len is
      what it returns. */
  method StreamSend(ch: Channel, data: array<bv8>, len: nat, opts: MaybeOptions, codec: Codec)
    returns (bytesEncoded: nat, ghost w: seq<Message>)
    requires len <= data.Length && (opts.Given? && opts.options.blockSize == 0 ==> len == 0) && codec.Good()
    modifies ch
    ensures bytesEncoded == len && ch.queue == old(ch.queue) + w && w != []
    ensures opts.Given? ==>
      w[0] == Start(opts.options.format, opts.options.blockSize) && Sent(w, codec, opts.options, data[..len])
    ensures opts.Default? ==>
      w[0] == Start(Raw, 0x10_0000) && Sent(w, codec, Options(Raw, 0x10_0000), data[..len])
  {
    hide *;
    var o := if opts.Given? then opts.options else Options(Raw, 0x10_0000);
    var blkbuf := new bv8[Bound(o.blockSize)];
    ch.SendMessage(Start(o.format, o.blockSize));
    bytesEncoded := 0;
    var rawSize: nat, remaining: nat, ptr: nat := o.blockSize, len, 0;
    ghost var all, q, plan: seq<seq<Bytes>> := data[..len], ch.queue, [];
    WireBegins(codec, o, all, q);
    while remaining > 0
      invariant ptr + remaining == len && bytesEncoded == ptr
      invariant rawSize <= o.blockSize && (rawSize == o.blockSize || rawSize >= remaining)
      invariant remaining > 0 ==> rawSize > 0
      invariant ch.queue == After(q, plan) && HalfwayAt(codec, o, all, plan, ptr)
    {
      if rawSize > remaining { rawSize := remaining; }
      RightSize(o.blockSize, rawSize, remaining);
      BoundGrows(rawSize, o.blockSize);
      ghost var x := all[ptr..ptr + rawSize];
      assert data[..len] == all;
      assert data[..len][ptr..ptr + rawSize] == data[ptr..ptr + rawSize];
      ghost var chunks := SendBlock(ch, data, ptr, rawSize, o, codec, blkbuf, x);
      WireGrows(q, plan, chunks);
      HalfwayAtStep(codec, o, all, plan, ptr, rawSize, chunks);
      plan := plan + [chunks];
      bytesEncoded := bytesEncoded + rawSize;
      ptr := ptr + rawSize;
      remaining := remaining - rawSize;
    }
    ch.SendMessage(End);
    w := StreamWire(o.format, o.blockSize, plan);
    WireEnds(old(ch.queue), o, plan);
    HalfwayEnd(codec, o, all, plan);
    WireHead(o.format, o.blockSize, plan);
  }

  lemma WireHead(format: Format, blockSize: nat, plan: seq<seq<Bytes>>)
    ensures StreamWire(format, blockSize, plan) != [] && StreamWire(format, blockSize, plan)[0] == Start(format, blockSize)
  {
  }

  lemma RightSize(blockSize: nat, rawSize: nat, remaining: nat)
    requires 0 < rawSize <= remaining && rawSize <= blockSize && (rawSize == blockSize || rawSize >= remaining)
    ensures rawSize == Take(blockSize, remaining)
  {
  }

  // ---------- stream_recv ----------

  /** What is still on the wire: the blocks todo, the end of the stream, and what follows. */
  function Rest(todo: seq<seq<Bytes>>, after: seq<Message>): seq<Message> {
    BlocksWire(todo) + [End] + after
  }

  /** The blocks still to come carry the data from ptr on. */
  ghost predicate Coming(codec: Codec, o: Options, data: Bytes, todo: seq<seq<Bytes>>, ptr: nat)
  {
    ptr <= |data| && AllSmall(todo) && Payload(todo) == Encode(codec, o.format, Cut(data[ptr..], o.blockSize))
  }

  lemma Opens(w: seq<Message>, codec: Codec, o: Options, data: Bytes, after: seq<Message>) returns (plan: seq<seq<Bytes>>)
    requires Sent(w, codec, o, data)
    ensures (w + after) != [] && (w + after)[0] == Start(o.format, o.blockSize)
    ensures (w + after)[1..] == Rest(plan, after) && Coming(codec, o, data, plan, 0)
  {
    plan :| w == StreamWire(o.format, o.blockSize, plan) && AllSmall(plan)
            && Payload(plan) == Encode(codec, o.format, Cut(data, o.blockSize));
    assert data[0..] == data;
  }

  /** The message at the head: a block that announces the length of its pieces, or the end. */
  lemma HeadMessage(todo: seq<seq<Bytes>>, after: seq<Message>)
    ensures Rest(todo, after) != []
    ensures todo == [] ==> Rest(todo, after)[0] == End && Rest(todo, after)[1..] == after
    ensures todo != [] ==>
      && Rest(todo, after)[0] == Message.Block(|Concat(todo[0])|)
      && Rest(todo, after)[1..] == Pieces(todo[0]) + Rest(todo[1..], after)
  {
  }

  lemma ComingNext(codec: Codec, o: Options, data: Bytes, todo: seq<seq<Bytes>>, ptr: nat)
    requires (o.blockSize > 0 || data == []) && codec.Good() && Coming(codec, o, data, todo, ptr)
    ensures todo == [] <==> ptr == |data|
    ensures todo != [] ==>
      var n := Take(o.blockSize, |data| - ptr);
      && 0 < n && ptr + n <= |data| && Small(todo[0]) && Coming(codec, o, data, todo[1..], ptr + n)
      && Concat(todo[0]) == (if o.format == Lzo then codec.compress(data[ptr..ptr + n]) else data[ptr..ptr + n])
      && (o.format == Lzo ==> codec.decompress(Concat(todo[0])) == data[ptr..ptr + n] && |Concat(todo[0])| <= Bound(o.blockSize))
  {
    hide Encode, Cut, Concat, BlocksWire, Payload, Bound;
    var left := data[ptr..];
    PayloadHead(todo);
    if left != [] {
      CutNext(codec, o, left);
      var n := Take(o.blockSize, |left|);
      assert left[..n] == data[ptr..ptr + n] && left[n..] == data[ptr + n..];
      BoundGrows(n, o.blockSize);
    } else {
      NothingToCut(codec, o);
    }
  }

  lemma NothingToCut(codec: Codec, o: Options)
    ensures Encode(codec, o.format, Cut([], o.blockSize)) == []
  {
  }

  lemma PayloadHead(todo: seq<seq<Bytes>>)
    ensures todo == [] <==> Payload(todo) == []
    ensures todo != [] ==> Payload(todo) == [Concat(todo[0])] + Payload(todo[1..])
    ensures todo != [] ==> Payload(todo)[0] == Concat(todo[0]) && Payload(todo)[1..] == Payload(todo[1..])
  {
  }

  /** Lines 182-196: one block, into data at ptr.  False stands for a failing assert, or for
      a block that decompresses beyond the end of the buffer. */
  method ReceiveBlock(ch: Channel, data: array<bv8>, ptr: nat, rawSize: nat, remaining: nat, o: Options, codec: Codec,
                      blkbuf: array<bv8>, length: nat, ghost chunks: seq<Bytes>, ghost after: seq<Message>, ghost x: Bytes)
    returns (ok: bool, size: nat)
    requires ch.queue == Pieces(chunks) + after && Small(chunks) && length == |Concat(chunks)|
    requires rawSize <= remaining && ptr + remaining <= data.Length && blkbuf != data
    requires o.format == Lzo ==> codec.decompress(Concat(chunks)) == x && length <= blkbuf.Length
    requires o.format == Raw ==> Concat(chunks) == x
    modifies ch, data, blkbuf
    ensures ok <==> if o.format == Lzo then |x| <= remaining else |x| == rawSize
    ensures ok ==> ch.queue == after && size == |x| && data[..] == Spliced(old(data[..]), ptr, x)
  {
    hide *;
    ghost var was := data[..];
    size := 0;
    if o.format == Lzo {
      var received := BlockRecv(ch, blkbuf, 0, blkbuf.Length, length, chunks, after);
      assert blkbuf[..received] == Concat(chunks);
      if |codec.decompress(blkbuf[..received])| > remaining {
        return false, 0;
      }
      size := Decompress(codec, blkbuf, received, data, ptr);
    } else {
      if length > rawSize {
        return false, 0;
      }
      var received := BlockRecv(ch, data, ptr, rawSize, length, chunks, after);
      if received != rawSize {
        return false, 0;
      }
      size := rawSize;
    }
    ok := true;
    SplicedIs(was, ptr, x);
  }

  /** was with x written at ptr. */
  function Spliced(was: Bytes, ptr: nat, x: Bytes): (r: Bytes)
    requires ptr + |x| <= |was|
    ensures |r| == |was|
  {
    was[..ptr] + x + was[ptr + |x|..]
  }

  lemma SplicedIs(was: Bytes, ptr: nat, x: Bytes)
    requires ptr + |x| <= |was|
    ensures Spliced(was, ptr, x) == was[..ptr] + x + was[ptr + |x|..]
  {
  }

  /** The first ptr bytes of the buffer are those of sent, the others are as they were. */
  ghost predicate Got(now: Bytes, was: Bytes, sent: Bytes, ptr: nat) {
    ptr <= |sent| && ptr <= |was| && now == sent[..ptr] + was[ptr..]
  }

  lemma GotNothing(was: Bytes, sent: Bytes)
    ensures Got(was, was, sent, 0)
  {
    assert was[0..] == was;
  }

  lemma GotMore(was: Bytes, now: Bytes, sent: Bytes, ptr: nat, n: nat)
    requires Got(now, was, sent, ptr) && ptr + n <= |sent| && ptr + n <= |was|
    ensures |now| == |was|
    ensures Got(Spliced(now, ptr, sent[ptr..ptr + n]), was, sent, ptr + n)
  {
  }

  lemma GotAll(was: Bytes, now: Bytes, sent: Bytes)
    requires Got(now, was, sent, |sent|)
    ensures now == sent + was[|sent|..]
  {
    assert sent[..|sent|] == sent;
  }

  function Times(k: nat, blockSize: nat): nat {
    k * blockSize
  }

  /** n bytes make full blocks only. */
  ghost predicate Full(n: nat, blockSize: nat) {
    exists k: nat :: n == Times(k, blockSize)
  }

  /** A buffer of len bytes suits n bytes of data: it has their length, or it is larger and
      the last block is a full one, or its size does not matter. */
  ghost predicate Suits(o: Options, n: nat, len: nat) {
    len == n || (len > n && (o.format == Lzo || Full(n, o.blockSize)))
  }

  /** All blocks so far have suited the buffer. */
  ghost predicate SuitsSoFar(o: Options, ptr: nat, len: nat) {
    ptr <= len && (o.format == Lzo || ptr == len || Full(ptr, o.blockSize))
  }

  /** The next block is taken. */
  predicate Taken(o: Options, n: nat, len: nat, ptr: nat)
    requires ptr <= len && ptr <= n
  {
    if o.format == Lzo then Take(o.blockSize, n - ptr) <= len - ptr
    else Take(o.blockSize, n - ptr) == Take(o.blockSize, len - ptr)
  }

  lemma OneBlockMore(ptr: nat, blockSize: nat)
    requires Full(ptr, blockSize)
    ensures Full(ptr + blockSize, blockSize)
  {
    var k: nat :| ptr == Times(k, blockSize);
    assert ptr + blockSize == Times(k + 1, blockSize);
  }

  lemma {:induction false} TimesGrows(a: nat, b: nat, blockSize: nat)
    requires a < b
    ensures Times(a, blockSize) + blockSize <= Times(b, blockSize)
  {
    assert Times(b, blockSize) == Times(b - 1, blockSize) + blockSize;
    if a < b - 1 {
      TimesGrows(a, b - 1, blockSize);
    }
  }

  lemma FullBlocks(n: nat, ptr: nat, blockSize: nat)
    requires ptr < n && Full(n, blockSize) && Full(ptr, blockSize)
    ensures n - ptr >= blockSize
  {
    hide Times;
    var a: nat, b: nat :| n == Times(a, blockSize) && ptr == Times(b, blockSize);
    if a < b {
      TimesGrows(a, b, blockSize);
    } else if b < a {
      TimesGrows(b, a, blockSize);
    }
  }

  lemma SuitsNext(o: Options, n: nat, len: nat, ptr: nat)
    requires o.blockSize > 0 && SuitsSoFar(o, ptr, len) && ptr < n
    ensures Taken(o, n, len, ptr) ==> SuitsSoFar(o, ptr + Take(o.blockSize, n - ptr), len)
    ensures !Taken(o, n, len, ptr) ==> !Suits(o, n, len)
  {
    hide Full;
    if Full(ptr, o.blockSize) {
      OneBlockMore(ptr, o.blockSize);
      if Full(n, o.blockSize) {
        FullBlocks(n, ptr, o.blockSize);
      }
    }
  }

  lemma SuitsAtEnd(o: Options, n: nat, len: nat)
    requires SuitsSoFar(o, n, len)
    ensures Suits(o, n, len)
  {
  }

  /** stream_recv, lines 126-226: given a buffer that suits, it rebuilds the data, returns
      its length, and leaves on the channel what followed the stream.  With any other
      buffer an assert fails, or a block goes beyond the end. */
  method StreamRecv(ch: Channel, data: array<bv8>, len: nat, codec: Codec,
                    ghost w: seq<Message>, ghost after: seq<Message>, ghost o: Options, ghost sent: Bytes)
    returns (ok: bool, bytesDecoded: nat)
    requires (o.blockSize > 0 || sent == []) && codec.Good() && ch.queue == w + after && Sent(w, codec, o, sent)
    requires len <= data.Length
    modifies ch, data
    ensures ok <==> Suits(o, |sent|, len)
    ensures ok ==> bytesDecoded == |sent| && ch.queue == after && data[..] == sent + old(data[|sent|..])
  {
    hide *;
    bytesDecoded := 0;
    ghost var todo := Opens(w, codec, o, sent, after);
    var start := ch.ReceiveMessage();
    var p := Options(start.format, start.blockSize);
    var remaining: nat, ptr: nat, rawSize: nat := len, 0, p.blockSize;
    var blkbuf := new bv8[Bound(p.blockSize)];
    ghost var was := data[..];
    GotNothing(was, sent);
    NothingYet(p, len);
    while true
      invariant ptr + remaining == len && bytesDecoded == ptr <= |sent|
      invariant rawSize == p.blockSize || ptr == |sent|
      invariant ch.queue == Rest(todo, after) && Coming(codec, o, sent, todo, ptr)
      invariant Got(data[..], was, sent, ptr) && SuitsSoFar(p, ptr, len)
      decreases |todo|
    {
      HeadMessage(todo, after);
      ComingNext(codec, o, sent, todo, ptr);
      var m := ch.ReceiveMessage();
      if m == End {
        assert todo == [];
        break;
      }
      if rawSize > remaining { rawSize := remaining; }
      TakeIs(p.blockSize, remaining);
      TakeIs(p.blockSize, |sent| - ptr);
      SuitsNext(p, |sent|, len, ptr);
      TakenIs(p, |sent|, len, ptr);
      ghost var now, x := data[..], sent[ptr..ptr + Take(p.blockSize, |sent| - ptr)];
      ok, rawSize := ReceiveBlock(ch, data, ptr, rawSize, remaining, p, codec, blkbuf, m.length, todo[0], Rest(todo[1..], after), x);
      if !ok {
        return;
      }
      GotMore(was, now, sent, ptr, rawSize);
      todo := todo[1..];
      bytesDecoded := bytesDecoded + rawSize;
      ptr := ptr + rawSize;
      remaining := remaining - rawSize;
    }
    ok := true;
    SuitsAtEnd(p, |sent|, len);
    GotAll(was, data[..], sent);
  }

  lemma NothingYet(o: Options, len: nat)
    ensures SuitsSoFar(o, 0, len)
  {
    assert Times(0, o.blockSize) == 0;
  }

  lemma TakeIs(blockSize: nat, n: nat)
    ensures Take(blockSize, n) == if blockSize > n then n else blockSize
  {
  }

  lemma TakenIs(o: Options, n: nat, len: nat, ptr: nat)
    requires ptr <= len && ptr <= n
    ensures Taken(o, n, len, ptr) <==>
      if o.format == Lzo then Take(o.blockSize, n - ptr) <= len - ptr
      else Take(o.blockSize, n - ptr) == Take(o.blockSize, len - ptr)
  {
  }

  // ---------- stream_forward ----------

  lemma ForwardOpens(w: seq<Message>, format: Format, blockSize: nat, blocks: seq<Bytes>, after: seq<Message>)
    returns (plan: seq<seq<Bytes>>)
    requires Carries(w, format, blockSize, blocks)
    ensures (w + after) != [] && (w + after)[0] == Start(format, blockSize)
    ensures (w + after)[1..] == Rest(plan, after) && AllSmall(plan) && Payload(plan) == blocks
  {
    plan :| w == StreamWire(format, blockSize, plan) && AllSmall(plan) && Payload(plan) == blocks;
  }

  /** The blocks already relayed and the blocks to come are the blocks that were sent. */
  ghost predicate Relaying(done: seq<seq<Bytes>>, todo: seq<seq<Bytes>>, blocks: seq<Bytes>) {
    AllSmall(done) && AllSmall(todo) && Payload(done) + Payload(todo) == blocks
  }

  function Total(blocks: seq<Bytes>): nat {
    |Concat(blocks)|
  }

  lemma RelayStep(done: seq<seq<Bytes>>, todo: seq<seq<Bytes>>, blocks: seq<Bytes>, chunks: seq<Bytes>)
    requires Relaying(done, todo, blocks) && todo != [] && Small(chunks) && Concat(chunks) == Concat(todo[0])
    ensures Relaying(done + [chunks], todo[1..], blocks)
    ensures Total(Payload(done + [chunks])) == Total(Payload(done)) + |Concat(todo[0])|
  {
    hide Concat, Payload;
    AddToPlan(done, chunks);
    ConcatAppend(Payload(done), Concat(chunks));
    PayloadHead(todo);
    assert Payload(done) + Payload(todo) == (Payload(done) + [Concat(chunks)]) + Payload(todo[1..]);
  }

  lemma RelayBounds(done: seq<seq<Bytes>>, todo: seq<seq<Bytes>>, blocks: seq<Bytes>)
    requires Relaying(done, todo, blocks)
    ensures todo != [] ==> Small(todo[0])
    ensures todo == [] ==> Payload(done) == blocks && AllSmall(done)
  {
    if todo == [] {
      assert Payload(todo) == [];
      assert Payload(done) + [] == Payload(done);
    }
  }

  lemma RelayBegins(plan: seq<seq<Bytes>>, blocks: seq<Bytes>, q: seq<Message>)
    requires AllSmall(plan) && Payload(plan) == blocks
    ensures Relaying([], plan, blocks) && After(q, []) == q && Total(Payload([])) == 0
  {
    assert Payload([]) == [];
    assert [] + Payload(plan) == Payload(plan);
  }

  lemma RelayEnds(q: seq<Message>, format: Format, blockSize: nat, done: seq<seq<Bytes>>, blocks: seq<Bytes>)
    requires AllSmall(done) && Payload(done) == blocks
    ensures After(q + [Start(format, blockSize)], done) + [End] == q + StreamWire(format, blockSize, done)
    ensures Carries(StreamWire(format, blockSize, done), format, blockSize, blocks)
  {
  }

  /** stream_forward, lines 228-288: the relay changes neither the parameters nor the
      blocks of the stream, whatever the outgoing channel does to the pieces, and returns
      the number of bytes in the blocks. */
  method StreamForward(chIn: Channel, chOut: Channel, ghost w: seq<Message>, ghost after: seq<Message>,
                       ghost format: Format, ghost blockSize: nat, ghost blocks: seq<Bytes>)
    returns (bytesForwarded: nat, ghost w': seq<Message>)
    requires chIn != chOut && chIn.queue == w + after && Carries(w, format, blockSize, blocks)
    modifies chIn, chOut
    ensures bytesForwarded == Total(blocks) && chIn.queue == after
    ensures chOut.queue == old(chOut.queue) + w' && Carries(w', format, blockSize, blocks)
  {
    hide *;
    bytesForwarded := 0;
    ghost var todo := ForwardOpens(w, format, blockSize, blocks, after);
    var start := chIn.ReceiveMessage();
    chOut.SendMessage(start);
    ghost var done: seq<seq<Bytes>>, q := [], chOut.queue;
    RelayBegins(todo, blocks, q);
    var m := start;
    while true
      invariant chIn.queue == Rest(todo, after) && chOut.queue == After(q, done)
      invariant Relaying(done, todo, blocks) && bytesForwarded == Total(Payload(done))
      decreases |todo|
    {
      HeadMessage(todo, after);
      RelayBounds(done, todo, blocks);
      m := chIn.ReceiveMessage();
      if m == End {
        break;
      }
      var n;
      ghost var chunks;
      n, chunks := BlockForward(chIn, chOut, m.length, todo[0], Rest(todo[1..], after));
      RelayStep(done, todo, blocks, chunks);
      WireGrows(q, done, chunks);
      done, todo := done + [chunks], todo[1..];
      bytesForwarded := bytesForwarded + n;
    }
    chOut.SendMessage(m);
    w' := StreamWire(format, blockSize, done);
    RelayEnds(old(chOut.queue), format, blockSize, done, blocks);
  }

  // ---------- End to end ----------

  /** Sending, any number of relays, receiving: the receiver has what the sender gave. */
  method Transfer(data: array<bv8>, len: nat, opts: MaybeOptions, codec: Codec, hops: nat)
    returns (out: array<bv8>, sent: nat, received: nat)
    requires len <= data.Length && (opts.Given? && opts.options.blockSize == 0 ==> len == 0) && codec.Good()
    ensures sent == received == len && out[..] == data[..len]
  {
    hide *;
    var ch := new Channel();
    ghost var o := if opts.Given? then opts.options else Options(Raw, 0x10_0000);
    ghost var all, w := data[..len], [];
    sent, w := StreamSend(ch, data, len, opts, codec);
    ghost var blocks := Encode(codec, o.format, Cut(all, o.blockSize));
    SentIs(w, codec, o, all);
    for i := 0 to hops
      invariant ch.queue == w && Carries(w, o.format, o.blockSize, blocks) && fresh(ch)
    {
      var next := new Channel();
      assert w + [] == w;
      ghost var w';
      var forwarded;
      forwarded, w' := StreamForward(ch, next, w, [], o.format, o.blockSize, blocks);
      ch, w := next, w';
    }
    SentIs(w, codec, o, all);
    out := new bv8[len];
    assert w + [] == w;
    var ok;
    SameLength(o, len);
    ok, received := StreamRecv(ch, out, len, codec, w, [], o, all);
    assert ok;
  }

  lemma SameLength(o: Options, n: nat)
    ensures Suits(o, n, n)
  {
  }

  lemma SentIs(w: seq<Message>, codec: Codec, o: Options, data: Bytes)
    ensures Sent(w, codec, o, data) <==> Carries(w, o.format, o.blockSize, Encode(codec, o.format, Cut(data, o.blockSize)))
  {
  }
}
