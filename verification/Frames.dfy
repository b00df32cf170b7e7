/** Length-prefixed frames over a reliable byte stream, and the two forwarding loops of a proxied
    connection. */
module Frames {
  import opened ByteStreams
  import opened Bincode

  const MAX_FRAME: nat := 65535
  const READ_BUFFER: nat := 60000
  const MAX_PADDING: nat := 128

  predicate Sendable(f: Frame) { |EncodeFrame(f)| <= MAX_FRAME }

  /** The bytes of one frame on the stream. */
  function Wire(f: Frame): Bytes {
    BigEndian(2, |EncodeFrame(f)|) + EncodeFrame(f)
  }

  function WireAll(fs: seq<Frame>): Bytes {
    if fs == [] then [] else Wire(fs[0]) + WireAll(fs[1..])
  }

  // ---------------------------------------------------------------- receiving from a byte string

  datatype Reception = Received(frame: Frame) | Ended | Malformed

  /** What one receive makes of the bytes that will ever come, and what it leaves of them. */
  function Receive(s: Bytes): (Reception, Bytes) {
    if |s| < 2 then (Ended, [])
    else
      var n := FromBigEndian(s[..2]);
      if |s| < 2 + n then (Ended, [])
      else
        match Deserialize(s[2..2 + n])
        case None => (Malformed, s[2 + n..])
        case Some(f) => (Received(f), s[2 + n..])
  }

  lemma WireShape(f: Frame)
    requires Sendable(f)
    ensures |Wire(f)| == 2 + |EncodeFrame(f)|
    ensures Wire(f)[..2] == BigEndian(2, |EncodeFrame(f)|) && Wire(f)[2..] == EncodeFrame(f)
    ensures FromBigEndian(Wire(f)[..2]) == |EncodeFrame(f)|
  {
    Widths();
    BigEndianRoundTrip(2, |EncodeFrame(f)|);
  }

  /** The length stands in front of a frame, its high byte first. */
  lemma WireLayout(f: Frame)
    requires Sendable(f)
    ensures Wire(f) == [|EncodeFrame(f)| / 256, |EncodeFrame(f)| % 256] + EncodeFrame(f)
  {
    hide EncodeFrame;
    HeaderBytes(|EncodeFrame(f)|);
  }

  /** A sent frame is received as it was, and the bytes behind it stay where they are. */
  lemma ReceiveSent(f: Frame, rest: Bytes)
    requires Sendable(f)
    ensures Receive(Wire(f) + rest) == (Received(f), rest)
  {
    hide EncodeFrame, Deserialize, BigEndian, FromBigEndian, Wire;
    WireShape(f);
    var s, n := Wire(f) + rest, |EncodeFrame(f)|;
    assert s[..2] == Wire(f)[..2];
    assert s[2..2 + n] == EncodeFrame(f) && s[2 + n..] == rest;
    DeserializeExactly(EncodeFrame(f), f);
  }

  /** The length the first two bytes announce, the high one first. */
  function Announced(s: Bytes): nat
    requires 2 <= |s|
  {
    var hi: int, lo: int := s[0], s[1];
    256 * hi + lo
  }

  /** A receive ends with the stream exactly when fewer bytes come than the length announces, and
      leaves nothing then; otherwise it leaves what stands behind that length, frame or no frame. */
  lemma ReceiveEndsExactly(s: Bytes)
    ensures var (r, rest) := Receive(s);
            if 2 <= |s| && 2 + Announced(s) <= |s| then r != Ended && rest == s[2 + Announced(s)..]
            else r == Ended && rest == []
  {
    hide Deserialize, FromBigEndian;
    if 2 <= |s| {
      HeaderValue(s[0], s[1]);
      assert s[..2] == [s[0], s[1]];
    }
  }

  /** A frame of which only a part arrives is never mistaken for anything: the stream ends. */
  lemma ReceiveCut(f: Frame, s: Bytes)
    requires Sendable(f) && s < Wire(f)
    ensures Receive(s) == (Ended, [])
  {
    hide EncodeFrame, Deserialize, BigEndian, FromBigEndian, Wire;
    WireShape(f);
    if 2 <= |s| {
      assert s[..2] == Wire(f)[..2];
    }
  }

  /** Exactly which byte strings are received as a frame: the length field may cover more than the
      frame, and what it covers beyond the frame is dropped. */
  lemma ReceiveExactly(s: Bytes, f: Frame, rest: Bytes)
    ensures Receive(s) == (Received(f), rest)
            <==> exists junk: Bytes :: |EncodeFrame(f)| + |junk| <= MAX_FRAME
                                       && s == BigEndian(2, |EncodeFrame(f)| + |junk|) + (EncodeFrame(f) + junk) + rest
  {
    hide EncodeFrame, Deserialize, BigEndian, FromBigEndian, Receive;
    if Receive(s) == (Received(f), rest) {
      var junk := JunkFound(s, f, rest);
    }
    if junk: Bytes :| |EncodeFrame(f)| + |junk| <= MAX_FRAME
                      && s == BigEndian(2, |EncodeFrame(f)| + |junk|) + (EncodeFrame(f) + junk) + rest {
      JunkDropped(f, junk, rest);
    }
  }

  lemma JunkFound(s: Bytes, f: Frame, rest: Bytes) returns (junk: Bytes)
    requires Receive(s) == (Received(f), rest)
    ensures |EncodeFrame(f)| + |junk| <= MAX_FRAME
    ensures s == BigEndian(2, |EncodeFrame(f)| + |junk|) + (EncodeFrame(f) + junk) + rest
  {
    hide EncodeFrame, Deserialize, BigEndian, FromBigEndian;
    Widths();
    BigEndianCanonical(s[..2]);
    var n := FromBigEndian(s[..2]);
    var body := s[2..2 + n];
    DeserializeExactly(body, f);
    junk := body[|EncodeFrame(f)|..];
    assert body == EncodeFrame(f) + junk;
    assert s == s[..2] + body + rest;
  }

  lemma JunkDropped(f: Frame, junk: Bytes, rest: Bytes)
    requires |EncodeFrame(f)| + |junk| <= MAX_FRAME
    ensures Receive(BigEndian(2, |EncodeFrame(f)| + |junk|) + (EncodeFrame(f) + junk) + rest) == (Received(f), rest)
  {
    hide EncodeFrame, Deserialize, BigEndian, FromBigEndian, Receive;
    var body := EncodeFrame(f) + junk;
    assert EncodeFrame(f) <= body;
    BodyReceived(body, rest);
    DeserializeExactly(body, f);
  }

  lemma BodyReceived(body: Bytes, rest: Bytes)
    requires |body| <= MAX_FRAME
    ensures Receive(BigEndian(2, |body|) + body + rest)
            == (match Deserialize(body) case None => Malformed case Some(f) => Received(f), rest)
  {
    hide Deserialize, BigEndian, FromBigEndian;
    Widths();
    var n := |body|;
    BigEndianRoundTrip(2, n);
    var s := BigEndian(2, n) + body + rest;
    assert s[..2] == BigEndian(2, n);
    assert s[2..2 + n] == body;
    assert s[2 + n..] == rest;
  }

  // ---------------------------------------------------------------- whole streams

  lemma {:induction false} WireAllConcat(a: seq<Frame>, b: seq<Frame>)
    ensures WireAll(a + b) == WireAll(a) + WireAll(b)
  {
    hide Wire;
    if a == [] {
      assert a + b == b;
    } else {
      assert (a + b)[0] == a[0] && (a + b)[1..] == a[1..] + b;
      WireAllConcat(a[1..], b);
      assert WireAll(a + b) == Wire(a[0]) + WireAll(a[1..] + b);
    }
  }

  /** Receiving `n` times in a row; `None` as soon as one receive fails. */
  function ReceiveMany(n: nat, s: Bytes): Option<(seq<Frame>, Bytes)> {
    if n == 0 then Some(([], s))
    else match Receive(s)
      case (Received(f), rest) =>
        (match ReceiveMany(n - 1, rest)
         case None => None
         case Some((fs, end)) => Some(([f] + fs, end)))
      case _ => None
  }

  /** Any sequence of sent frames comes back as it was, in order, and nothing behind it is touched. */
  lemma {:induction false} StreamRoundTrip(fs: seq<Frame>, tail: Bytes)
    requires forall f :: f in fs ==> Sendable(f)
    ensures ReceiveMany(|fs|, WireAll(fs) + tail) == Some((fs, tail))
  {
    hide Wire, Receive, Sendable;
    if fs == [] {
      assert [] + tail == tail;
    } else {
      assert WireAll(fs) + tail == Wire(fs[0]) + (WireAll(fs[1..]) + tail);
      ReceiveSent(fs[0], WireAll(fs[1..]) + tail);
      StreamRoundTrip(fs[1..], tail);
      assert [fs[0]] + fs[1..] == fs;
    }
  }

  /** A receive on any front part of a stream of frames gives the first frame when it is complete,
      and otherwise reports the end of the stream; a malformed frame cannot come up. */
  lemma ReceiveFront(fs: seq<Frame>, s: Bytes)
    requires forall f :: f in fs ==> Sendable(f)
    requires s <= WireAll(fs)
    ensures if fs != [] && |Wire(fs[0])| <= |s|
            then Receive(s) == (Received(fs[0]), s[|Wire(fs[0])|..])
                 && s[|Wire(fs[0])|..] <= WireAll(fs[1..]) && s == Wire(fs[0]) + s[|Wire(fs[0])|..]
            else Receive(s) == (Ended, [])
  {
    hide Wire, EncodeFrame, Deserialize, FromBigEndian;
    if fs != [] {
      var w := Wire(fs[0]);
      if |w| <= |s| {
        var rest := s[|w|..];
        assert s[..|w|] == WireAll(fs)[..|w|] == w;
        assert s == w + rest;
        assert WireAll(fs)[|w|..] == WireAll(fs[1..]);
        assert rest == WireAll(fs)[|w|..|s|] == WireAll(fs[1..])[..|rest|];
        ReceiveSent(fs[0], rest);
      } else {
        assert s == WireAll(fs)[..|s|] == w[..|s|];
        ReceiveCut(fs[0], s);
      }
    }
  }

  // ---------------------------------------------------------------- streams as objects

  /** The part of `data` that is written before a sink with `room` left fails. */
  function Fitting(data: Bytes, room: nat): (r: Bytes)
    ensures r <= data && |r| <= room && (|data| <= room ==> r == data)
  {
    if |data| <= room then data else data[..room]
  }

  /** The writing side of a stream, which takes `room` more bytes before it fails. */
  class Sink {
    var written: Bytes
    var room: nat

    constructor (room: nat)
      ensures written == [] && this.room == room
    {
      written, this.room := [], room;
    }

    method WriteAll(data: Bytes) returns (ok: bool)
      modifies this
      ensures ok <==> |data| <= old(room)
      ensures written == old(written) + Fitting(data, old(room))
      ensures room == old(room) - |Fitting(data, old(room))|
    {
      var fits := Fitting(data, room);
      ok := |data| <= room;
      written := written + fits;
      room := room - |fits|;
    }
  }

  /** The reading side of a reliable stream, cut into the fragments its reads will see. */
  class Source {
    var fragments: seq<Bytes>

    constructor (fragments: seq<Bytes>)
      ensures this.fragments == fragments
    {
      this.fragments := fragments;
    }

    ghost function Stream(): Bytes
      reads this
    {
      Flatten(fragments)
    }

    /** A read that returns nothing means the end of the stream, so no fragment is empty. */
    ghost predicate Valid()
      reads this
    {
      forall i :: 0 <= i < |fragments| ==> fragments[i] != []
    }

    /** What the next read into `room` bytes returns: as much of the first fragment as fits. */
    ghost function Next(room: nat): Bytes
      reads this
    {
      if fragments == [] then [] else Fitting(fragments[0], room)
    }

    /** One read into the rest of `buf`: at most one fragment, possibly only a part of it. */
    method Read(buf: array<Byte>, at: nat) returns (n: nat)
      requires Valid() && at < buf.Length
      modifies this, buf
      ensures Valid() && at + n <= buf.Length
      ensures n == 0 <==> old(fragments) == []
      ensures buf[at..at + n] == old(Next(buf.Length - at))
      ensures n == 0 ==> Stream() == [] == old(Stream())
      ensures old(Stream()) == buf[at..at + n] + Stream()
      ensures buf[..at] == old(buf[..at])
    {
      if fragments == [] {
        return 0;
      }
      var first := fragments[0];
      var room := buf.Length - at;
      n := if |first| <= room then |first| else room;
      forall i | 0 <= i < n {
        buf[at + i] := first[i];
      }
      assert buf[at..at + n] == first[..n];
      if n == |first| {
        fragments := fragments[1..];
      } else {
        assert first == first[..n] + first[n..];
        fragments := [first[n..]] + fragments[1..];
      }
    }

    /** Reads until `buf` is full; fails when the stream ends before that. */
    method ReadExact(buf: array<Byte>) returns (ok: bool)
      requires Valid()
      modifies this, buf
      ensures Valid()
      ensures ok <==> buf.Length <= |old(Stream())|
      ensures if ok then buf[..] == old(Stream())[..buf.Length] && Stream() == old(Stream())[buf.Length..]
              else Stream() == []
    {
      hide Flatten;
      ghost var s := Stream();
      var filled := 0;
      while filled < buf.Length
        invariant Valid() && filled <= buf.Length
        invariant s == buf[..filled] + Stream()
      {
        ghost var before := buf[..filled];
        var n := Read(buf, filled);
        if n == 0 {
          return false;
        }
        assert buf[..filled + n] == before + buf[filled..filled + n];
        filled := filled + n;
      }
      assert buf[..filled] == buf[..];
      ok := true;
    }
  }

  datatype Sending = Sent | Refused | Broken

  /** Refuses a frame whose encoding does not fit the length field, and writes nothing then. */
  method Send(f: Frame, conn: Sink) returns (r: Sending)
    modifies conn
    ensures r == if !Sendable(f) then Refused else if |Wire(f)| <= old(conn.room) then Sent else Broken
    ensures var out := if Sendable(f) then Fitting(Wire(f), old(conn.room)) else [];
            conn.written == old(conn.written) + out && conn.room == old(conn.room) - |out|
  {
    var buf := EncodeFrame(f);
    var len := |buf|;
    if len > MAX_FRAME {
      return Refused;
    }
    HeaderBytes(len);
    var cast := len % 0x1_0000;
    var header: Bytes := [cast / 256, cast % 256];
    var msg := header + buf;
    var ok := conn.WriteAll(msg);
    r := if ok then Sent else Broken;
  }

  /** The cast to sixteen bits loses nothing, and the two bytes of the header read back as it. */
  lemma HeaderBytes(len: nat)
    requires len <= MAX_FRAME
    ensures len % 0x1_0000 == len
    ensures BigEndian(2, len) == [len / 256, len % 256]
    ensures FromBigEndian([len / 256, len % 256]) == len
  {
    assert len / 256 < 256;
    assert BigEndian(2, len) == BigEndian(1, len / 256) + [len % 256];
    assert BigEndian(1, len / 256) == BigEndian(0, len / 256 / 256) + [len / 256 % 256];
    Widths();
    BigEndianRoundTrip(2, len);
  }

  /** Receives one frame from a stream however it is cut into fragments. */
  method Recv(conn: Source) returns (r: Reception)
    requires conn.Valid()
    modifies conn
    ensures conn.Valid()
    ensures (r, conn.Stream()) == Receive(old(conn.Stream()))
  {
    hide Deserialize, FromBigEndian, Flatten;
    ghost var s := conn.Stream();
    var header := new Byte[2];
    var ok := conn.ReadExact(header);
    if !ok {
      return Ended;
    }
    HeaderValue(header[0], header[1]);
    assert header[..] == [header[0], header[1]];
    var hi: int, lo: int := header[0], header[1];
    var len := 256 * hi + lo;
    var buf := new Byte[len];
    ok := conn.ReadExact(buf);
    if !ok {
      return Ended;
    }
    assert s[2..][..len] == s[2..2 + len] && s[2..][len..] == s[2 + len..];
    match Deserialize(buf[..]) {
      case None => r := Malformed;
      case Some(f) => r := Received(f);
    }
  }

  lemma HeaderValue(hi: Byte, lo: Byte)
    ensures FromBigEndian([hi, lo]) == 256 * hi + lo
  {
    var high: Bytes := [hi];
    assert [hi, lo][..1] == high && high[..0] == [];
    assert FromBigEndian(high) == 256 * FromBigEndian([]) + hi;
  }

  // ---------------------------------------------------------------- forwarding

  function DataFrame(id: U128, payload: Blob, padding: nat): Frame
    requires padding <= MAX_PADDING
  {
    Frame(TcpData(id, payload), seq(padding, _ => 0))
  }

  /** A chunk the size of the read buffer always fits a frame, whatever the padding. */
  lemma DataFrameFits(id: U128, payload: Blob, padding: nat)
    requires |payload| <= READ_BUFFER && padding <= MAX_PADDING
    ensures |EncodeFrame(DataFrame(id, payload, padding))| <= 60164
    ensures Sendable(DataFrame(id, payload, padding))
  {
    DataFrameSize(id, payload, seq(padding, _ => 0));
  }

  /** What the near socket's reads return, each with the padding drawn for its frame. */
  datatype Chunk = Chunk(data: Bytes, padding: nat)

  predicate ValidChunk(c: Chunk) { |c.data| <= READ_BUFFER && 1 <= c.padding <= MAX_PADDING }

  function DataFrames(id: U128, chunks: seq<Chunk>): seq<Frame>
    requires forall c :: c in chunks ==> ValidChunk(c)
  {
    if chunks == [] then []
    else DataFrames(id, chunks[..|chunks| - 1])
         + (var c := chunks[|chunks| - 1]; assert ValidChunk(c); [DataFrame(id, c.data, c.padding)])
  }

  function ChunkData(chunks: seq<Chunk>): seq<Bytes> {
    if chunks == [] then [] else ChunkData(chunks[..|chunks| - 1]) + [chunks[|chunks| - 1].data]
  }

  lemma NoChunks(id: U128)
    ensures WireAll(DataFrames(id, [])) == [] && Flatten(ChunkData([])) == []
  {
  }

  lemma {:induction false} FramePerChunk(id: U128, chunks: seq<Chunk>)
    requires forall c :: c in chunks ==> ValidChunk(c)
    ensures |DataFrames(id, chunks)| == |chunks|
  {
    if chunks != [] {
      FramePerChunk(id, chunks[..|chunks| - 1]);
    }
  }

  lemma ChunksSnoc(id: U128, chunks: seq<Chunk>, c: Chunk)
    requires (forall d :: d in chunks ==> ValidChunk(d)) && ValidChunk(c)
    ensures WireAll(DataFrames(id, chunks + [c]))
            == WireAll(DataFrames(id, chunks)) + Wire(DataFrame(id, c.data, c.padding))
    ensures Flatten(ChunkData(chunks + [c])) == Flatten(ChunkData(chunks)) + c.data
  {
    hide Wire, Sendable;
    assert (chunks + [c])[..|chunks|] == chunks;
    var frame := DataFrame(id, c.data, c.padding);
    WireAllConcat(DataFrames(id, chunks), [frame]);
    assert WireAll([frame]) == Wire(frame) + WireAll([]);
    FlattenSnoc(ChunkData(chunks), c.data);
  }

  /** What was written fits, and so does more of it, up to the room there was in the beginning. */
  lemma FittingGrows(done: Bytes, more: Bytes, rest: Bytes, room: nat)
    requires |done| <= room
    ensures |more| <= room - |done| ==> Fitting(done + more, room) == done + more
    ensures room - |done| < |more| ==> Fitting(done + more + rest, room) == done + Fitting(more, room - |done|)
  {
  }

  /** A chunk is empty only once the input has ended, with nothing `left` to read. */
  predicate EmptyAtEnd(chunks: seq<Chunk>, left: Bytes) {
    forall i :: 0 <= i < |chunks| && chunks[i].data == [] ==>
      left == [] && forall j :: i <= j < |chunks| ==> chunks[j].data == []
  }

  lemma NoneEmpty(left: Bytes)
    ensures EmptyAtEnd([], left)
  {
  }

  lemma StillEmptyAtEnd(chunks: seq<Chunk>, c: Chunk, before: Bytes, left: Bytes)
    requires EmptyAtEnd(chunks, before) && before == c.data + left && (c.data == [] <==> before == [])
    ensures EmptyAtEnd(chunks + [c], left)
  {
  }

  /** How the upward loop stops: the session's deadline has passed, the near socket fails, the
      stream fails, or a frame is too large. */
  datatype UpExit = UpExpired | NearReadFailed | LinkFailed | FrameRefused

  /** One turn of the upward loop: a read of the near socket becomes one data frame. */
  method UpTurn(id: U128, conn: Source, buf: array<Byte>, padding: nat, relconn: Sink)
    returns (sending: Sending, ghost c: Chunk)
    requires conn.Valid() && buf.Length == READ_BUFFER && 1 <= padding <= MAX_PADDING
    modifies conn, buf, relconn
    ensures conn.Valid() && ValidChunk(c) && c.padding == padding
    ensures old(conn.Stream()) == c.data + conn.Stream()
    ensures c.data == old(conn.Next(READ_BUFFER))
    ensures c.data == [] <==> old(conn.Stream()) == []
    ensures var out := Wire(DataFrame(id, c.data, padding));
            && sending == (if |out| <= old(relconn.room) then Sent else Broken)
            && relconn.written == old(relconn.written) + Fitting(out, old(relconn.room))
            && relconn.room == old(relconn.room) - |Fitting(out, old(relconn.room))|
  {
    hide EncodeFrame, Wire, Sendable, Flatten;
    var size := conn.Read(buf, 0);
    c := Chunk(buf[..size], padding);
    assert buf[0..size] == buf[..size];
    DataFrameFits(id, c.data, padding);
    var frame := DataFrame(id, buf[..size], padding);
    sending := Send(frame, relconn);
  }

  /** The upward loop: every read of the near socket becomes one data frame, padded as drawn.  The
      deadline, if there is one, is seen to have passed after `expiry` turns, and the near socket
      fails when all paddings are used up; a frame too large is never met.  After the end of its
      input the near socket returns empty chunks for ever. */
  method UpLoop(id: U128, expiry: Option<nat>, conn: Source, paddings: seq<nat>, relconn: Sink)
    returns (exit: UpExit, ghost chunks: seq<Chunk>)
    requires conn.Valid() && forall p :: p in paddings ==> 1 <= p <= MAX_PADDING
    modifies conn, relconn
    ensures conn.Valid() && (forall c :: c in chunks ==> ValidChunk(c))
    ensures |chunks| <= |paddings| && forall i :: 0 <= i < |chunks| ==> chunks[i].padding == paddings[i]
    ensures old(conn.Stream()) == Flatten(ChunkData(chunks)) + conn.Stream()
    ensures EmptyAtEnd(chunks, conn.Stream())
    ensures relconn.written == old(relconn.written) + Fitting(WireAll(DataFrames(id, chunks)), old(relconn.room))
    ensures exit != FrameRefused
    ensures exit == LinkFailed <==> old(relconn.room) < |WireAll(DataFrames(id, chunks))|
    ensures exit == LinkFailed ==>
              chunks != [] && |WireAll(DataFrames(id, chunks[..|chunks| - 1]))| <= old(relconn.room)
    ensures expiry.Some? ==> |chunks| <= expiry.value
    ensures exit == UpExpired <==> exit != LinkFailed && expiry == Some(|chunks|)
    ensures exit == NearReadFailed ==> |chunks| == |paddings|
  {
    hide EncodeFrame, Wire, WireAll, DataFrames, DataFrame, ChunkData, Fitting, Sendable, Flatten,
         EmptyAtEnd, Source.Next;
    NoneEmpty(conn.Stream());
    ghost var s, start, room := conn.Stream(), relconn.written, relconn.room;
    var buf := new Byte[READ_BUFFER];
    chunks := [];
    NoChunks(id);
    assert start + [] == start && [] + s == s;
    var i := 0;
    while true
      invariant i == |chunks| <= |paddings| && conn.Valid()
      invariant forall c :: c in chunks ==> ValidChunk(c)
      invariant forall j :: 0 <= j < i ==> chunks[j].padding == paddings[j]
      invariant expiry.Some? ==> i <= expiry.value
      invariant s == Flatten(ChunkData(chunks)) + conn.Stream()
      invariant EmptyAtEnd(chunks, conn.Stream())
      invariant var out := WireAll(DataFrames(id, chunks));
                relconn.written == start + out && |out| <= room && relconn.room == room - |out|
      decreases |paddings| - i
    {
      if expiry == Some(i) {
        return UpExpired, chunks;
      }
      if i == |paddings| {
        return NearReadFailed, chunks;
      }
      assert paddings[i] in paddings;
      ghost var before := conn.Stream();
      var sending, c := UpTurn(id, conn, buf, paddings[i], relconn);
      ghost var out, more := WireAll(DataFrames(id, chunks)), Wire(DataFrame(id, c.data, c.padding));
      ChunksSnoc(id, chunks, c);
      ConcatAssociates(Flatten(ChunkData(chunks)), c.data, conn.Stream());
      FittingGrows(out, more, [], room);
      ConcatAssociates(start, out, Fitting(more, room - |out|));
      assert out + more + [] == out + more;
      StillEmptyAtEnd(chunks, c, before, conn.Stream());
      assert (chunks + [c])[..i] == chunks;
      chunks := chunks + [c];
      if sending != Sent {
        return if sending == Refused then FrameRefused else LinkFailed, chunks;
      }
      i := i + 1;
    }
  }

  /** How the downward loop stops: the stream failed, one of its two panics was reached, the deadline
      has passed, or the near socket does not take what is written. */
  datatype DownExit = StreamFailed | WrongId | NotData | DownExpired | NearWriteFailed

  /** What the downward loop has for the near socket before it stops, if that takes everything. */
  function Forwarded(id: U128, s: Bytes, expiry: Option<nat>): (Bytes, DownExit)
    decreases |s|
  {
    if expiry == Some(0) then ([], DownExpired)
    else
      match Receive(s)
      case (Received(f), rest) =>
        if !f.protocol.TcpData? then ([], NotData)
        else if f.protocol.id != id then ([], WrongId)
        else
          var (more, exit) := Forwarded(id, rest, Sooner(expiry));
          (f.protocol.payload + more, exit)
      case _ => ([], StreamFailed)
  }

  /** One turn less until the deadline is seen to have passed. */
  function Sooner(expiry: Option<nat>): Option<nat>
    requires expiry != Some(0)
  {
    if expiry.Some? then Some(expiry.value - 1) else None
  }

  /** The downward loop writes the payload of every frame it receives, until it stops or the near
      socket fails. */
  method DownLoop(id: U128, expiry: Option<nat>, relconn: Source, conn: Sink) returns (exit: DownExit)
    requires relconn.Valid()
    modifies relconn, conn
    ensures var (out, end) := Forwarded(id, old(relconn.Stream()), expiry);
            && conn.written == old(conn.written) + Fitting(out, old(conn.room))
            && exit == if |out| <= old(conn.room) then end else NearWriteFailed
  {
    hide Receive, Flatten;
    ghost var s, start, room := relconn.Stream(), conn.written, conn.room;
    ghost var done: Bytes := [];
    assert start + [] == start && [] + Forwarded(id, s, expiry).0 == Forwarded(id, s, expiry).0;
    var left := expiry;
    while true
      invariant relconn.Valid()
      invariant conn.written == start + done && |done| <= room && conn.room == room - |done|
      invariant var (out, end) := Forwarded(id, relconn.Stream(), left);
                Forwarded(id, s, expiry) == (done + out, end)
      decreases |relconn.Stream()|
    {
      if left == Some(0) {
        assert done + [] == done;
        return DownExpired;
      }
      ReceiveShrinks(relconn.Stream());
      var r := Recv(relconn);
      if !r.Received? {
        assert done + [] == done;
        return StreamFailed;
      }
      match r.frame.protocol {
        case TcpData(got, payload) =>
          if got != id {
            assert done + [] == done;
            return WrongId;
          }
          left := Sooner(left);
          ghost var out := Forwarded(id, relconn.Stream(), left).0;
          ConcatAssociates(done, payload, out);
          FittingGrows(done, payload, out, room);
          ConcatAssociates(start, done, Fitting(payload, room - |done|));
          var ok := conn.WriteAll(payload);
          if !ok {
            return NearWriteFailed;
          }
          done := done + payload;
        case _ =>
          assert done + [] == done;
          return NotData;
      }
    }
  }

  lemma ReceiveShrinks(s: Bytes)
    ensures Receive(s).0.Received? ==> |Receive(s).1| < |s|
  {
  }

  /** Tunnel transport.  Whatever part of the frames made from `chunks` has arrived, and however
      soon the deadline passes, the far side has a prefix of the bytes read at the near side to
      write, all of them once every frame has been received; it stops only because the stream or
      its time ends. */
  lemma TunnelTransport(id: U128, chunks: seq<Chunk>, arrived: Bytes, expiry: Option<nat>)
    requires forall c :: c in chunks ==> ValidChunk(c)
    requires arrived <= WireAll(DataFrames(id, chunks))
    ensures var (out, exit) := Forwarded(id, arrived, expiry);
            && (exit == StreamFailed || (exit == DownExpired && expiry.Some? && expiry.value <= |chunks|))
            && out <= Flatten(ChunkData(chunks))
            && (arrived == WireAll(DataFrames(id, chunks)) && exit == StreamFailed ==>
                  out == Flatten(ChunkData(chunks)))
  {
    hide Forwarded, Wire, WireAll, Flatten, Sendable, DataFrames, ChunkData;
    FramesOfChunks(id, chunks);
    FramePerChunk(id, chunks);
    TransportFrames(id, DataFrames(id, chunks), arrived, expiry);
  }

  function Later(expiry: Option<nat>, n: nat): Option<nat>
    requires expiry.Some? ==> n <= expiry.value
  {
    if expiry.Some? then Some(expiry.value - n) else None
  }

  /** Exactly what the downward loop makes of data frames of its own connection with anything at all
      behind them: their payloads, in order, up to the deadline; and if that is not reached, what
      it makes of the rest. */
  lemma {:induction false} ForwardedExactly(id: U128, fs: seq<Frame>, rest: Bytes, expiry: Option<nat>)
    requires AllData(id, fs)
    ensures Forwarded(id, WireAll(fs) + rest, expiry)
            == if expiry.Some? && expiry.value <= |fs| then (Flatten(Payloads(fs[..expiry.value])), DownExpired)
               else var (out, exit) := Forwarded(id, rest, Later(expiry, |fs|)); (Flatten(Payloads(fs)) + out, exit)
    decreases |fs|
  {
    hide Wire, Receive, Sendable, Flatten;
    FlattenEmpty();
    if expiry == Some(0) {
      assert fs[..0] == [];
    } else if fs == [] {
      assert WireAll(fs) + rest == rest;
      assert [] + Forwarded(id, rest, expiry).0 == Forwarded(id, rest, expiry).0;
    } else {
      var f, tail := fs[0], fs[1..];
      assert WireAll(fs) + rest == Wire(f) + (WireAll(tail) + rest);
      ReceiveSent(f, WireAll(tail) + rest);
      ForwardedExactly(id, tail, rest, Sooner(expiry));
      PayloadsFirst(fs);
      if expiry.Some? && expiry.value <= |fs| {
        PayloadsFirst(fs[..expiry.value]);
        assert fs[..expiry.value][1..] == tail[..expiry.value - 1];
      } else {
        ConcatAssociates(f.protocol.payload, Flatten(Payloads(tail)), Forwarded(id, rest, Later(expiry, |fs|)).0);
      }
    }
  }

  lemma FlattenEmpty()
    ensures Flatten([]) == []
  {
  }

  lemma PayloadsFirst(fs: seq<Frame>)
    requires fs != [] && forall f :: f in fs ==> f.protocol.TcpData?
    ensures Flatten(Payloads(fs)) == fs[0].protocol.payload + Flatten(Payloads(fs[1..]))
  {
    assert Payloads(fs)[1..] == Payloads(fs[1..]);
  }

  /** The deadline honoured: when every frame of `chunks` has arrived, the far side writes the chunks
      whose turn comes before the deadline, and stops there. */
  lemma DeadlineCutsOff(id: U128, chunks: seq<Chunk>, n: nat)
    requires forall c :: c in chunks ==> ValidChunk(c)
    ensures Forwarded(id, WireAll(DataFrames(id, chunks)), Some(n))
            == if n <= |chunks| then (Flatten(ChunkData(chunks[..n])), DownExpired)
               else (Flatten(ChunkData(chunks)), StreamFailed)
  {
    hide Wire, Receive, Sendable, Flatten, Forwarded;
    var fs := DataFrames(id, chunks);
    FramesOfChunks(id, chunks);
    FramePerChunk(id, chunks);
    ForwardedExactly(id, fs, [], Some(n));
    assert WireAll(fs) + [] == WireAll(fs);
    if n <= |chunks| {
      FirstFrames(id, chunks, n);
      FramesOfChunks(id, chunks[..n]);
    } else {
      NothingArrived(id, Some(n - |fs|));
      assert Flatten(Payloads(fs)) + [] == Flatten(Payloads(fs));
    }
  }

  lemma NothingArrived(id: U128, expiry: Option<nat>)
    requires expiry != Some(0)
    ensures Forwarded(id, [], expiry) == ([], StreamFailed)
  {
  }

  lemma {:induction false} FirstFrames(id: U128, chunks: seq<Chunk>, n: nat)
    requires (forall c :: c in chunks ==> ValidChunk(c)) && n <= |chunks|
    ensures n <= |DataFrames(id, chunks)| && DataFrames(id, chunks)[..n] == DataFrames(id, chunks[..n])
    decreases |chunks|
  {
    FramePerChunk(id, chunks);
    if n == |chunks| {
      assert chunks[..n] == chunks;
    } else {
      var before := chunks[..|chunks| - 1];
      FirstFrames(id, before, n);
      FramePerChunk(id, before);
      assert before[..n] == chunks[..n];
    }
  }

  /** A frame that is not data of this connection stops the downward loop behind the data before it,
      in the panic that is its due; nothing behind it is written. */
  lemma StrangerStops(id: U128, fs: seq<Frame>, f: Frame, rest: Bytes)
    requires AllData(id, fs) && Sendable(f) && !(f.protocol.TcpData? && f.protocol.id == id)
    ensures Forwarded(id, WireAll(fs) + (Wire(f) + rest), None)
            == (Flatten(Payloads(fs)), if f.protocol.TcpData? then WrongId else NotData)
  {
    hide Wire, WireAll, Receive, Sendable, Flatten;
    ForwardedExactly(id, fs, Wire(f) + rest, None);
    ReceiveSent(f, rest);
    assert Flatten(Payloads(fs)) + [] == Flatten(Payloads(fs));
  }

  function NonEmpty(chunks: seq<Chunk>): (r: seq<Chunk>)
    ensures forall c :: c in r ==> c in chunks && c.data != []
  {
    if chunks == [] then []
    else
      var c := chunks[|chunks| - 1];
      NonEmpty(chunks[..|chunks| - 1]) + if c.data == [] then [] else [c]
  }

  lemma {:induction false} NonEmptyData(chunks: seq<Chunk>)
    ensures Flatten(ChunkData(NonEmpty(chunks))) == Flatten(ChunkData(chunks))
  {
    if chunks != [] {
      hide Flatten;
      var before, c := chunks[..|chunks| - 1], chunks[|chunks| - 1];
      NonEmptyData(before);
      FlattenSnoc(ChunkData(before), c.data);
      var kept := NonEmpty(before);
      if c.data == [] {
        assert kept + [] == kept;
        assert Flatten(ChunkData(before)) + [] == Flatten(ChunkData(before));
      } else {
        assert (kept + [c])[..|kept|] == kept;
        FlattenSnoc(ChunkData(kept), c.data);
      }
    }
  }

  /** The frames of empty chunks, which a socket yields without end after its input has ended,
      change nothing at the far side, however many they are and wherever they stand. */
  lemma EmptyChunksIgnored(id: U128, chunks: seq<Chunk>)
    requires forall c :: c in chunks ==> ValidChunk(c)
    ensures Forwarded(id, WireAll(DataFrames(id, chunks)), None)
            == Forwarded(id, WireAll(DataFrames(id, NonEmpty(chunks))), None)
  {
    TunnelTransport(id, chunks, WireAll(DataFrames(id, chunks)), None);
    TunnelTransport(id, NonEmpty(chunks), WireAll(DataFrames(id, NonEmpty(chunks))), None);
    NonEmptyData(chunks);
  }

  predicate AllData(id: U128, fs: seq<Frame>) {
    forall f :: f in fs ==> Sendable(f) && f.protocol.TcpData? && f.protocol.id == id
  }

  function Payloads(fs: seq<Frame>): seq<Bytes>
    requires forall f :: f in fs ==> f.protocol.TcpData?
  {
    if fs == [] then [] else [fs[0].protocol.payload] + Payloads(fs[1..])
  }

  lemma {:induction false} PayloadsConcat(a: seq<Frame>, b: seq<Frame>)
    requires (forall f :: f in a ==> f.protocol.TcpData?) && forall f :: f in b ==> f.protocol.TcpData?
    ensures forall f :: f in a + b ==> f.protocol.TcpData?
    ensures Payloads(a + b) == Payloads(a) + Payloads(b)
  {
    if a == [] {
      assert a + b == b;
    } else {
      assert (a + b)[0] == a[0] && (a + b)[1..] == a[1..] + b;
      PayloadsConcat(a[1..], b);
      ConcatAssociates([a[0].protocol.payload], Payloads(a[1..]), Payloads(b));
    }
  }

  lemma {:induction false} FramesOfChunks(id: U128, chunks: seq<Chunk>)
    requires forall c :: c in chunks ==> ValidChunk(c)
    ensures AllData(id, DataFrames(id, chunks))
    ensures Payloads(DataFrames(id, chunks)) == ChunkData(chunks)
  {
    hide Sendable;
    if chunks != [] {
      var c := chunks[|chunks| - 1];
      FramesOfChunks(id, chunks[..|chunks| - 1]);
      assert ValidChunk(c);
      DataFrameFits(id, c.data, c.padding);
      PayloadsConcat(DataFrames(id, chunks[..|chunks| - 1]), [DataFrame(id, c.data, c.padding)]);
    }
  }

  lemma {:induction false} TransportFrames(id: U128, fs: seq<Frame>, arrived: Bytes, expiry: Option<nat>)
    requires AllData(id, fs) && arrived <= WireAll(fs)
    ensures var (out, exit) := Forwarded(id, arrived, expiry);
            && (exit == StreamFailed || (exit == DownExpired && expiry.Some? && expiry.value <= |fs|))
            && out <= Flatten(Payloads(fs))
            && (arrived == WireAll(fs) && exit == StreamFailed ==> out == Flatten(Payloads(fs)))
    decreases |fs|
  {
    hide Wire, Receive, Sendable;
    ReceiveFront(fs, arrived);
    if expiry != Some(0) && fs != [] && |Wire(fs[0])| <= |arrived| {
      var rest := arrived[|Wire(fs[0])|..];
      TransportFrames(id, fs[1..], rest, Sooner(expiry));
      assert Payloads(fs)[1..] == Payloads(fs[1..]);
    }
  }
}
