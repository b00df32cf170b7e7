/** Two endpoints joined by one websocket, under every interleaving of their callers, their
    background loops and the network.  A run is a sequence of events from the initial state. */
module PipeSystem {
  import opened ByteStreams
  import opened PipeSpec

  datatype Side = Left | Right {
    function Peer(): Side { if this == Left then Right else Left }
  }

  /** A write that was answered with success, and whether the channel really took it. */
  datatype Offer = Offer(msg: Bytes, queued: bool)

  /** What a read took from the inbox: reported to its caller, or not. */
  datatype Chunk = Delivered(data: Bytes) | Lost(data: Bytes)

  function Queued(offers: seq<Offer>): seq<Bytes> {
    if offers == [] then []
    else Queued(offers[..|offers| - 1]) + (var o := offers[|offers| - 1]; if o.queued then [o.msg] else [])
  }

  function Answered(offers: seq<Offer>): seq<Bytes> {
    if offers == [] then [] else Answered(offers[..|offers| - 1]) + [offers[|offers| - 1].msg]
  }

  function TakenBytes(chunks: seq<Chunk>): Bytes {
    if chunks == [] then [] else TakenBytes(chunks[..|chunks| - 1]) + chunks[|chunks| - 1].data
  }

  function DeliveredBytes(chunks: seq<Chunk>): Bytes {
    if chunks == [] then []
    else DeliveredBytes(chunks[..|chunks| - 1]) + (var c := chunks[|chunks| - 1]; if c.Delivered? then c.data else [])
  }

  function LostBytes(chunks: seq<Chunk>): Bytes {
    if chunks == [] then []
    else LostBytes(chunks[..|chunks| - 1]) + (var c := chunks[|chunks| - 1]; if c.Lost? then c.data else [])
  }

  /** Everything between the writer of one endpoint and the reader of the other.  `strand` holds
      messages that can no longer arrive; `offers`, `dequeued` and `chunks` are histories. */
  datatype Direction = Direction(
    offers: seq<Offer>, sendQ: seq<Bytes>, sendPc: SendPc,
    wire: seq<Item>, cut: bool, strand: seq<Bytes>,
    recvPc: RecvPc, recvQ: seq<Bytes>, recvBuf: Bytes,
    dequeued: seq<Bytes>, chunks: seq<Chunk>)
  {
    function Upstream(): seq<Bytes> { strand + (sendPc.Held() + sendQ) }
    function Downstream(): seq<Bytes> { dequeued + recvQ + (recvPc.Held() + Payloads(wire)) }
    function GetInbox(): Inbox { Inbox(recvBuf, recvQ) }
  }

  const IdleDirection := Direction([], [], SendCheck, [], false, [], RecvCheck, [], [], [], [])

  /** Of one endpoint: closed by anyone, its loops dropped, its last handle dropped. */
  datatype Flags = Flags(closed: bool, cancelled: bool, dropped: bool)

  const Fresh := Flags(false, false, false)

  datatype System = System(left: Flags, right: Flags, fromLeft: Direction, fromRight: Direction) {
    function Flag(p: Side): Flags { if p == Left then left else right }
    function From(p: Side): Direction { if p == Left then fromLeft else fromRight }
    function To(p: Side): Direction { From(p.Peer()) }
    function WithFlag(p: Side, f: Flags): System {
      if p == Left then this.(left := f) else this.(right := f)
    }
    function WithFrom(p: Side, d: Direction): System {
      if p == Left then this.(fromLeft := d) else this.(fromRight := d)
    }
    /** The race between the two loops of an endpoint is over as soon as one has returned. */
    predicate RaceOver(p: Side) { From(p).sendPc == SendDone || To(p).recvPc == RecvDone }
  }

  const Start := System(Fresh, Fresh, IdleDirection, IdleDirection)

  datatype Event =
    | Write(p: Side, msg: Bytes)
    | Close(p: Side)
    | ReadInto(p: Side, k: nat)
    | SendStep(p: Side, tx: TxEvent)
    | RecvStep(p: Side, rx: RxEvent)
    | Cancel(p: Side, reached: bool)
    | Drop(p: Side)
    | Inject(p: Side, at: nat, item: Item)
    | CutWire(p: Side, at: nat)

  // ---------------------------------------------------------------- steps of one direction

  function Offered(d: Direction, f: Flags, msg: Bytes): Direction {
    if f.closed then d
    else
      var queued := !f.cancelled && |d.sendQ| < QUEUE_CAP;
      d.(offers := d.offers + [Offer(msg, queued)], sendQ := d.sendQ + if queued then [msg] else [])
  }

  function Emit(d: Direction, out: Emission): Direction {
    match out
    case Silent => d
    case OnWire(m) => if d.cut then d.(strand := d.strand + [m]) else d.(wire := d.wire + [Binary(m)])
    case Vanished(m) => d.(strand := d.strand + [m])
  }

  function AfterSend(d: Direction, t: Tx, out: Emission): Direction {
    Emit(d.(sendQ := t.queue, sendPc := t.pc), out)
  }

  /** The network hands over the first item on the wire; it reports the end behind the last. */
  predicate NetworkAllows(d: Direction, e: RxEvent) {
    && (e.NextItem? ==> d.wire != [] && d.wire[0] == e.item)
    && (e == NextEnd ==> d.wire == [] && d.cut)
  }

  /** What becomes of the message in the sender's hand when the loop is dropped: its send may
      already have reached the websocket. */
  function Farewell(pc: SendPc, reached: bool): Emission {
    if !pc.SendHold? then Silent else if reached then OnWire(pc.msg) else Vanished(pc.msg)
  }

  /** Dropping the sending loop: what was queued for it goes nowhere. */
  function SenderDropped(d: Direction, reached: bool): Direction {
    var e := Emit(d.(sendPc := SendDone), Farewell(d.sendPc, reached));
    e.(strand := e.strand + d.sendQ, sendQ := [])
  }

  /** Dropping the receiving loop: nothing on the wire will be read any more. */
  function ReceiverDropped(d: Direction): Direction {
    d.(strand := d.recvPc.Held() + Payloads(d.wire) + d.strand, wire := [], cut := true, recvPc := RecvDone)
  }

  function AfterReceive(d: Direction, r: Rx, e: RxEvent): Direction
    requires NetworkAllows(d, e)
  {
    if e == FailPush then ReceiverDropped(d)
    else d.(recvQ := r.queue, recvPc := r.pc, wire := if e.NextItem? then d.wire[1..] else d.wire)
  }

  function Recorded(o: ReadOutcome): seq<Chunk> {
    match o
    case Got(data) => [Delivered(data)]
    case NotReady(lost) => if lost != [] then [Lost(lost)] else []
  }

  function AfterRead(d: Direction, k: nat): Direction {
    var (x, o) := Read(d.GetInbox(), k);
    d.(recvBuf := x.residual, recvQ := x.queue,
       dequeued := d.dequeued + d.recvQ[..|d.recvQ| - |x.queue|],
       chunks := d.chunks + Recorded(o))
  }

  function Severed(d: Direction, at: nat): Direction
    requires at <= |d.wire|
  {
    d.(strand := Payloads(d.wire[at..]) + d.strand, wire := d.wire[..at], cut := true)
  }

  function Injected(d: Direction, at: nat, item: Item): Direction
    requires at <= |d.wire|
  {
    d.(wire := d.wire[..at] + [item] + d.wire[at..])
  }

  // ---------------------------------------------------------------- steps of the system

  function Step(s: System, e: Event): Option<System> {
    match e
    case Write(p, msg) =>
      if s.Flag(p).dropped then None else Some(s.WithFrom(p, Offered(s.From(p), s.Flag(p), msg)))
    case Close(p) =>
      if s.Flag(p).dropped then None else Some(s.WithFlag(p, s.Flag(p).(closed := true)))
    case ReadInto(p, k) =>
      if s.Flag(p).dropped then None else Some(s.WithFrom(p.Peer(), AfterRead(s.To(p), k)))
    case Drop(p) =>
      if s.Flag(p).dropped then None else Some(s.WithFlag(p, s.Flag(p).(dropped := true)))
    case SendStep(p, tx) =>
      var d, f := s.From(p), s.Flag(p);
      if s.RaceOver(p) then None
      else (match TxStep(Tx(d.sendQ, d.sendPc, f.closed, f.dropped), tx)
            case None => None
            case Some((t, out)) => Some(s.WithFrom(p, AfterSend(d, t, out)).WithFlag(p, f.(closed := t.closed))))
    case RecvStep(p, rx) =>
      var d, f := s.To(p), s.Flag(p);
      if s.RaceOver(p) || !NetworkAllows(d, rx) then None
      else (match RxStep(Rx(d.recvQ, d.recvPc, f.closed, f.dropped), rx)
            case None => None
            case Some(r) => Some(s.WithFrom(p.Peer(), AfterReceive(d, r, rx)).WithFlag(p, f.(closed := r.closed))))
    case Cancel(p, reached) =>
      if !s.RaceOver(p) || s.Flag(p).cancelled then None
      else Some(s.WithFrom(p, SenderDropped(s.From(p), reached)).WithFrom(p.Peer(), ReceiverDropped(s.To(p)))
                 .WithFlag(p, s.Flag(p).(cancelled := true)))
    case Inject(p, at, item) =>
      if item.Binary? || s.From(p).cut || |s.From(p).wire| < at then None
      else Some(s.WithFrom(p, Injected(s.From(p), at, item)))
    case CutWire(p, at) =>
      if |s.From(p).wire| < at then None else Some(s.WithFrom(p, Severed(s.From(p), at)))
  }

  function Exec(s: System, es: seq<Event>): Option<System>
    decreases |es|
  {
    if es == [] then Some(s)
    else match Exec(s, es[..|es| - 1])
      case None => None
      case Some(t) => Step(t, es[|es| - 1])
  }

  // ---------------------------------------------------------------- the invariant

  /** The residual is what is left of the message dequeued last. */
  predicate ResidualIsSuffix(d: Direction) {
    d.recvBuf != [] ==>
      d.dequeued != [] && IsSuffix(d.recvBuf, d.dequeued[|d.dequeued| - 1])
  }

  /** Every message the channel took is, in order, read, queued, in hand, on the wire, stranded,
      in the sender's hand or still queued; and the bytes of the messages read are the bytes
      reported or lost, followed by the residual. */
  predicate DirectionInv(d: Direction) {
    && Queued(d.offers) == d.Downstream() + d.Upstream()
    && Flatten(d.dequeued) == TakenBytes(d.chunks) + d.recvBuf
    && ResidualIsSuffix(d)
    && |d.sendQ| <= QUEUE_CAP && |d.recvQ| <= QUEUE_CAP
    && (d.strand != [] ==> d.cut || d.sendPc == SendDone)
  }

  predicate SideInv(s: System, p: Side) {
    && (s.RaceOver(p) ==> s.Flag(p).closed || s.Flag(p).dropped)
    && (s.Flag(p).cancelled ==> s.From(p).sendPc == SendDone && s.From(p).sendQ == [] && s.To(p).recvPc == RecvDone)
  }

  predicate Inv(s: System) {
    && DirectionInv(s.fromLeft) && DirectionInv(s.fromRight)
    && SideInv(s, Left) && SideInv(s, Right)
  }

  lemma OfferedKeeps(d: Direction, f: Flags, msg: Bytes)
    requires DirectionInv(d) && (f.cancelled ==> f.closed)
    ensures DirectionInv(Offered(d, f, msg))
  {
    hide Flatten, Payloads, Direction.Downstream, TakenBytes;
    if !f.closed {
      var e := Offered(d, f, msg);
      var more := if |d.sendQ| < QUEUE_CAP then [msg] else [];
      assert e.offers[..|e.offers| - 1] == d.offers;
      assert Queued(e.offers) == Queued(d.offers) + more;
      assert e.Downstream() == d.Downstream() by { DownstreamReads(d, e); }
      ConcatAssociates(d.sendPc.Held(), d.sendQ, more);
      ConcatAssociates(d.strand, d.sendPc.Held() + d.sendQ, more);
      ConcatAssociates(d.Downstream(), d.Upstream(), more);
    }
  }

  lemma WireGrows(d: Direction, msg: Bytes)
    ensures d.(wire := d.wire + [Binary(msg)]).Downstream() == d.Downstream() + [msg]
  {
    hide Flatten;
    PayloadsConcat(d.wire, [Binary(msg)]);
    assert Payloads([Binary(msg)]) == [msg] + Payloads([]);
    ConcatAssociates(d.recvPc.Held(), Payloads(d.wire), [msg]);
    ConcatAssociates(d.dequeued + d.recvQ, d.recvPc.Held() + Payloads(d.wire), [msg]);
  }

  /** What the sending loop emits moves from the upstream part to the wire or to the strand. */
  lemma EmitFlow(d: Direction, t: Tx, out: Emission)
    requires d.sendPc.Held() + d.sendQ == Emitted(out) + (t.pc.Held() + t.queue)
    requires out.OnWire? && !d.cut ==> d.strand == []
    ensures var after := AfterSend(d, t, out); after.Downstream() + after.Upstream() == d.Downstream() + d.Upstream()
  {
    hide Flatten, Payloads;
    var rest := t.pc.Held() + t.queue;
    if out.OnWire? && !d.cut {
      WireGrows(d, out.msg);
      ConcatAssociates(d.Downstream(), [out.msg], rest);
      assert [] + ([out.msg] + rest) == [out.msg] + rest && [] + rest == rest;
      assert AfterSend(d, t, out).Downstream() == d.(wire := d.wire + [Binary(out.msg)]).Downstream();
    } else {
      ConcatAssociates(d.strand, Emitted(out), rest);
      assert d.strand + [] == d.strand;
    }
  }

  lemma AfterSendKeeps(d: Direction, f: Flags, e: TxEvent)
    requires DirectionInv(d)
    requires TxStep(Tx(d.sendQ, d.sendPc, f.closed, f.dropped), e).Some?
    ensures var (t, out) := TxStep(Tx(d.sendQ, d.sendPc, f.closed, f.dropped), e).value;
            DirectionInv(AfterSend(d, t, out))
  {
    hide Flatten, Payloads, Direction.Upstream, Direction.Downstream, Queued, TakenBytes;
    var u := Tx(d.sendQ, d.sendPc, f.closed, f.dropped);
    TxStepFacts(u, e);
    var (t, out) := TxStep(u, e).value;
    EmitFlow(d, t, out);
  }

  lemma ReceiveFlow(d: Direction, u: Rx, e: RxEvent)
    requires NetworkAllows(d, e) && u.queue == d.recvQ && u.pc == d.recvPc && RxStep(u, e).Some?
    requires e != FailPush
    ensures AfterReceive(d, RxStep(u, e).value, e).Downstream() == d.Downstream()
  {
    hide Flatten, Payloads;
    RxStepFacts(u, e);
    var r := RxStep(u, e).value;
    var wire := AfterReceive(d, r, e).wire;
    assert d.wire == Arrived(e) + wire;
    PayloadsConcat(Arrived(e), wire);
    ConcatAssociates(d.recvPc.Held(), Payloads(Arrived(e)), Payloads(wire));
    ConcatAssociates(Pushed(u, e), r.pc.Held(), Payloads(wire));
    var rest := r.pc.Held() + Payloads(wire);
    ConcatAssociates(d.dequeued + d.recvQ, Pushed(u, e), rest);
    ConcatAssociates(d.dequeued, d.recvQ, Pushed(u, e));
  }

  lemma AfterReceiveKeeps(d: Direction, f: Flags, e: RxEvent)
    requires DirectionInv(d) && NetworkAllows(d, e)
    requires RxStep(Rx(d.recvQ, d.recvPc, f.closed, f.dropped), e).Some?
    ensures DirectionInv(AfterReceive(d, RxStep(Rx(d.recvQ, d.recvPc, f.closed, f.dropped), e).value, e))
  {
    hide Flatten, Payloads, Direction.Downstream, Queued, TakenBytes;
    if e == FailPush {
      ReceiverDroppedKeeps(d);
    } else {
      ReceiveFlow(d, Rx(d.recvQ, d.recvPc, f.closed, f.dropped), e);
    }
  }

  /** A read takes at most one message off the queue, and what it then holds in hand is what it
      reports or loses, followed by the new residual. */
  lemma ReadTakes(x: Inbox, k: nat)
    ensures var (y, o) := Read(x, k);
            && |y.queue| <= |x.queue|
            && x.queue == x.queue[..|x.queue| - |y.queue|] + y.queue
            && (if k < |x.residual| || x.queue == []
                then y.queue == x.queue && x.residual == o.Taken() + y.residual
                     && IsSuffix(y.residual, x.residual)
                else y.queue == x.queue[1..] && x.residual + x.queue[0] == o.Taken() + y.residual
                     && IsSuffix(y.residual, x.queue[0]))
  {
    hide Flatten, IsSuffix;
    var y := Read(x, k).0;
    if k < |x.residual| {
      SplitTail(x.residual, k);
    } else if x.queue == [] {
      SplitTail(x.residual, |x.residual|);
    } else {
      SplitMessage(x.residual, x.queue[0], Min(k, |x.residual + x.queue[0]|));
      assert |x.queue| - |y.queue| == 1 && x.queue == x.queue[..1] + x.queue[1..];
    }
  }

  lemma SplitTail(b: Bytes, n: nat)
    requires n <= |b|
    ensures b == b[..n] + b[n..] && IsSuffix(b[n..], b)
    ensures n == |b| ==> b[..n] == b && b[n..] == []
  {
  }

  lemma SplitMessage(residual: Bytes, m: Bytes, n: nat)
    requires |residual| <= n <= |residual + m|
    ensures var both := residual + m; both == both[..n] + both[n..] && IsSuffix(both[n..], m)
  {
    assert (residual + m)[n..] == m[n - |residual|..];
  }

  lemma ReadFlow(d: Direction, k: nat)
    ensures AfterRead(d, k).Downstream() == d.Downstream()
  {
    hide Flatten, Payloads, Read, TakenBytes;
    ReadTakes(d.GetInbox(), k);
    var after := AfterRead(d, k);
    ConcatAssociates(d.dequeued, d.recvQ[..|d.recvQ| - |after.recvQ|], after.recvQ);
  }

  lemma RecordedBytes(chunks: seq<Chunk>, o: ReadOutcome)
    ensures TakenBytes(chunks + Recorded(o)) == TakenBytes(chunks) + o.Taken()
    ensures DeliveredBytes(chunks + Recorded(o)) == DeliveredBytes(chunks) + (if o.Got? then o.data else [])
    ensures LostBytes(chunks + Recorded(o)) == LostBytes(chunks) + (if o.Got? then [] else o.lost)
  {
    var after := chunks + Recorded(o);
    if Recorded(o) == [] {
      assert after == chunks;
    } else {
      assert after[..|after| - 1] == chunks;
    }
  }

  lemma ReadBytes(d: Direction, k: nat)
    requires Flatten(d.dequeued) == TakenBytes(d.chunks) + d.recvBuf
    ensures var after := AfterRead(d, k); Flatten(after.dequeued) == TakenBytes(after.chunks) + after.recvBuf
  {
    hide Flatten, Payloads, Read, TakenBytes, Recorded;
    ReadTakes(d.GetInbox(), k);
    var (x, o) := Read(d.GetInbox(), k);
    var after := AfterRead(d, k);
    RecordedBytes(d.chunks, o);
    ConcatAssociates(TakenBytes(d.chunks), o.Taken(), x.residual);
    if k < |d.recvBuf| || d.recvQ == [] {
      assert after.dequeued == d.dequeued;
    } else {
      assert after.dequeued == d.dequeued + [d.recvQ[0]];
      FlattenSnoc(d.dequeued, d.recvQ[0]);
      ConcatAssociates(TakenBytes(d.chunks), d.recvBuf, d.recvQ[0]);
    }
  }

  lemma SuffixChain(small: Bytes, mid: Bytes, messages: seq<Bytes>)
    requires IsSuffix(small, mid)
    requires mid != [] ==> messages != [] && IsSuffix(mid, messages[|messages| - 1])
    ensures small != [] ==> messages != [] && IsSuffix(small, messages[|messages| - 1])
  {
    if small != [] {
      SuffixOfSuffix(small, mid, messages[|messages| - 1]);
    }
  }

  lemma ReadResidual(d: Direction, k: nat)
    requires ResidualIsSuffix(d)
    ensures ResidualIsSuffix(AfterRead(d, k))
  {
    hide Flatten, Payloads, Read, TakenBytes, Recorded, IsSuffix;
    ReadTakes(d.GetInbox(), k);
    var after := AfterRead(d, k);
    if k < |d.recvBuf| || d.recvQ == [] {
      assert after.dequeued == d.dequeued;
      SuffixChain(after.recvBuf, d.recvBuf, d.dequeued);
    } else {
      assert after.dequeued == d.dequeued + [d.recvQ[0]];
    }
  }

  lemma AfterReadKeeps(d: Direction, k: nat)
    requires DirectionInv(d)
    ensures DirectionInv(AfterRead(d, k))
  {
    hide Flatten, Payloads, Direction.Downstream, Queued, TakenBytes, Read, ResidualIsSuffix;
    ReadFlow(d, k);
    ReadBytes(d, k);
    ReadResidual(d, k);
    ReadTakes(d.GetInbox(), k);
  }

  lemma QueueStrands(strand: seq<Bytes>, queue: seq<Bytes>)
    ensures (strand + queue) + ([] + []) == strand + ([] + queue)
  {
    assert [] + queue == queue;
  }

  lemma SenderDroppedFlow(d: Direction, reached: bool)
    requires d.strand != [] ==> d.cut || d.sendPc == SendDone
    ensures var after := SenderDropped(d, reached);
            after.Downstream() + after.Upstream() == d.Downstream() + d.Upstream()
  {
    hide Flatten, Payloads, Direction.Downstream;
    var t, out := Tx(d.sendQ, SendDone, true, false), Farewell(d.sendPc, reached);
    EmitFlow(d, t, out);
    EmitSpares(d.(sendPc := SendDone), out);
    hide Emit, Farewell;
    var e := AfterSend(d, t, out);
    DownstreamReads(e, SenderDropped(d, reached));
    QueueStrands(e.strand, d.sendQ);
  }

  lemma SenderDroppedKeeps(d: Direction, reached: bool)
    requires DirectionInv(d)
    ensures DirectionInv(SenderDropped(d, reached))
  {
    hide Flatten, Payloads, Direction.Downstream, Direction.Upstream, Queued, TakenBytes;
    SenderDroppedFlow(d, reached);
  }

  lemma DownstreamReads(d: Direction, e: Direction)
    requires d.dequeued == e.dequeued && d.recvQ == e.recvQ && d.recvPc == e.recvPc && d.wire == e.wire
    ensures d.Downstream() == e.Downstream()
  {
  }

  lemma TailStrands(d: Direction, at: nat)
    requires at <= |d.wire|
    ensures Severed(d, at).Downstream() + Severed(d, at).Upstream() == d.Downstream() + d.Upstream()
  {
    hide Flatten, Payloads;
    assert d.wire == d.wire[..at] + d.wire[at..];
    PayloadsConcat(d.wire[..at], d.wire[at..]);
    var kept, moved := Payloads(d.wire[..at]), Payloads(d.wire[at..]);
    var s := Severed(d, at);
    ConcatAssociates(d.recvPc.Held(), kept, moved);
    ConcatAssociates(d.dequeued + d.recvQ, d.recvPc.Held() + kept, moved);
    ConcatAssociates(moved, d.strand, d.sendPc.Held() + d.sendQ);
    ConcatAssociates(s.Downstream(), moved, d.Upstream());
  }

  lemma SeveredKeeps(d: Direction, at: nat)
    requires DirectionInv(d) && at <= |d.wire|
    ensures DirectionInv(Severed(d, at))
  {
    hide Flatten, Payloads, Direction.Downstream, Direction.Upstream, Queued, TakenBytes;
    TailStrands(d, at);
  }

  lemma HandStrands(d: Direction)
    ensures ReceiverDropped(d).Downstream() + ReceiverDropped(d).Upstream() == d.Downstream() + d.Upstream()
  {
    hide Flatten;
    var moved := d.recvPc.Held() + Payloads(d.wire);
    var r := ReceiverDropped(d);
    assert r.Downstream() == d.dequeued + d.recvQ;
    ConcatAssociates(moved, d.strand, d.sendPc.Held() + d.sendQ);
    ConcatAssociates(d.dequeued + d.recvQ, moved, d.Upstream());
  }

  lemma ReceiverDroppedKeeps(d: Direction)
    requires DirectionInv(d)
    ensures DirectionInv(ReceiverDropped(d))
  {
    hide Flatten, Payloads, Direction.Downstream, Direction.Upstream, Queued, TakenBytes;
    HandStrands(d);
  }

  lemma InjectedPayloads(wire: seq<Item>, at: nat, item: Item)
    requires at <= |wire| && !item.Binary?
    ensures Payloads(wire[..at] + [item] + wire[at..]) == Payloads(wire)
  {
    assert wire == wire[..at] + wire[at..];
    PayloadsConcat(wire[..at], wire[at..]);
    PayloadsConcat(wire[..at] + [item], wire[at..]);
    PayloadsConcat(wire[..at], [item]);
    assert Payloads([item]) == Payload(item) + Payloads([]);
    assert Payloads(wire[..at]) + [] == Payloads(wire[..at]);
  }

  lemma InjectedKeeps(d: Direction, at: nat, item: Item)
    requires DirectionInv(d) && at <= |d.wire| && !item.Binary?
    ensures DirectionInv(Injected(d, at, item))
  {
    hide Flatten, Payloads, Queued, TakenBytes;
    InjectedPayloads(d.wire, at, item);
  }

  lemma StepKeepsDirections(s: System, e: Event)
    requires Inv(s) && Step(s, e).Some?
    ensures DirectionInv(Step(s, e).value.fromLeft) && DirectionInv(Step(s, e).value.fromRight)
  {
    hide DirectionInv, Offered, AfterSend, AfterReceive, AfterRead, SenderDropped, ReceiverDropped, Severed, Injected,
         TxStep, RxStep;
    match e {
      case Write(p, msg) => OfferedKeeps(s.From(p), s.Flag(p), msg);
      case Close(p) =>
      case ReadInto(p, k) => AfterReadKeeps(s.To(p), k);
      case SendStep(p, tx) => AfterSendKeeps(s.From(p), s.Flag(p), tx);
      case RecvStep(p, rx) => AfterReceiveKeeps(s.To(p), s.Flag(p), rx);
      case Drop(p) =>
      case Cancel(p, reached) =>
        SenderDroppedKeeps(s.From(p), reached);
        ReceiverDroppedKeeps(s.To(p));
      case Inject(p, at, item) => InjectedKeeps(s.From(p), at, item);
      case CutWire(p, at) => SeveredKeeps(s.From(p), at);
    }
  }

  lemma LoopStepKeepsSides(s: System, e: Event, q: Side)
    requires SideInv(s, q) && Step(s, e).Some? && (e.SendStep? || e.RecvStep?)
    ensures SideInv(Step(s, e).value, q)
  {
    hide Read, Payloads, TxStep, RxStep, NetworkAllows, Emit;
    match e {
      case SendStep(p, tx) =>
        var d := s.From(p);
        var u := Tx(d.sendQ, d.sendPc, s.Flag(p).closed, s.Flag(p).dropped);
        TxStepFacts(u, tx);
        var (t, out) := TxStep(u, tx).value;
        EmitSpares(d.(sendQ := t.queue, sendPc := t.pc), out);
      case RecvStep(p, rx) =>
        RxStepFacts(Rx(s.To(p).recvQ, s.To(p).recvPc, s.Flag(p).closed, s.Flag(p).dropped), rx);
    }
  }

  lemma EmitSpares(d: Direction, out: Emission)
    ensures Emit(d, out) == d.(wire := Emit(d, out).wire, strand := Emit(d, out).strand)
  {
  }

  lemma CancelKeepsSides(s: System, e: Event, q: Side)
    requires SideInv(s, q) && Step(s, e).Some? && e.Cancel?
    ensures SideInv(Step(s, e).value, q)
  {
    hide Read, Payloads, Emit;
    var d := s.From(e.p);
    EmitSpares(d.(sendPc := SendDone), Farewell(d.sendPc, e.reached));
  }

  lemma StepKeepsSides(s: System, e: Event, q: Side)
    requires SideInv(s, q) && Step(s, e).Some?
    ensures SideInv(Step(s, e).value, q)
  {
    if e.SendStep? || e.RecvStep? {
      LoopStepKeepsSides(s, e, q);
    } else if e.Cancel? {
      CancelKeepsSides(s, e, q);
    } else {
      hide Read, Payloads, TxStep, RxStep;
    }
  }

  lemma StepKeepsInv(s: System, e: Event)
    requires Inv(s) && Step(s, e).Some?
    ensures Inv(Step(s, e).value)
  {
    hide DirectionInv, SideInv, Step;
    StepKeepsDirections(s, e);
    StepKeepsSides(s, e, Left);
    StepKeepsSides(s, e, Right);
  }

  lemma {:induction false} RunKeepsInv(s: System, es: seq<Event>)
    requires Inv(s) && Exec(s, es).Some?
    ensures Inv(Exec(s, es).value)
    decreases |es|
  {
    if es != [] {
      RunKeepsInv(s, es[..|es| - 1]);
      StepKeepsInv(Exec(s, es[..|es| - 1]).value, es[|es| - 1]);
    }
  }
}
