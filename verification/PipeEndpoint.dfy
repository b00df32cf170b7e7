/** One endpoint as it is coded, the pipe with its two racing loops, simulated by the system: every
    call on it, and every poll of its background task, is a run of `PipeSystem`, and the steps of
    everybody else leave it alone. */
module PipeEndpoint {
  import opened ByteStreams
  import opened PipeSpec
  import opened PipeCode
  import opened PipeSystem
  import opened PipeRefinement

  /** What the objects of side `p` hold of a system. */
  datatype Local = Local(tx: Tx, rx: Rx, inbox: Inbox, flags: Flags)

  function LocalView(s: System, p: Side): Local {
    Local(SendView(s, p), RecvView(s, p), s.To(p).GetInbox(), s.Flag(p))
  }

  /** Steps of the other endpoint and of the network do not touch what side `p` holds. */
  lemma OthersSpare(s: System, e: Event, p: Side)
    requires Step(s, e).Some? && (e.p != p || e.Inject? || e.CutWire?)
    ensures LocalView(Step(s, e).value, p) == LocalView(s, p)
  {
    hide Read, Payloads, TxStep, RxStep, NetworkAllows;
  }

  lemma {:induction false} ExecConcat(s: System, a: seq<Event>, b: seq<Event>)
    requires Exec(s, a).Some?
    ensures Exec(s, a + b) == Exec(Exec(s, a).value, b)
    decreases |b|
  {
    if b == [] {
      assert a + b == a;
    } else {
      ExecConcat(s, a, b[..|b| - 1]);
      assert (a + b)[..|a + b| - 1] == a + b[..|b| - 1];
    }
  }

  function Finish(p: Side, over: bool, reached: bool): seq<Event> {
    if over then [Cancel(p, reached)] else []
  }

  /** What a message in hand becomes when its loop is dropped. */
  function LastWords(pc: SendPc, over: bool, reached: bool): seq<Bytes> {
    if over && reached then pc.Held() else []
  }

  /** `more` has joined what is on the wire from side `p`, unless that is cut. */
  predicate Joined(s: System, t: System, p: Side, more: seq<Bytes>) {
    !s.From(p).cut ==> Payloads(t.From(p).wire) == Payloads(s.From(p).wire) + more
  }

  /** The end of the race, if it is over. */
  lemma RaceEnds(s: System, p: Side, over: bool, reached: bool)
    requires (over ==> s.RaceOver(p)) && !s.Flag(p).cancelled
    ensures Exec(s, Finish(p, over, reached)).Some?
    ensures var t := Exec(s, Finish(p, over, reached)).value;
            && Joined(s, t, p, LastWords(s.From(p).sendPc, over, reached))
            && if over
               then t.To(p).GetInbox() == s.To(p).GetInbox() && t.Flag(p) == s.Flag(p).(cancelled := true)
               else t == s
  {
    hide Read, Payloads, TxStep, RxStep;
    var d := s.From(p);
    assert Payloads(d.wire) + [] == Payloads(d.wire);
    if over {
      assert Finish(p, over, reached)[..0] == [];
      if reached && d.sendPc.SendHold? {
        var last := d.sendPc.msg;
        PayloadsConcat(d.wire, [Binary(last)]);
        assert Payloads([Binary(last)]) == [last] by { LonePayload(last); }
      }
    }
  }

  lemma JoinedChain(s: System, m: System, t: System, p: Side, first: seq<Bytes>, second: seq<Bytes>)
    requires Joined(s, m, p, first) && Joined(m, t, p, second) && m.From(p).cut == s.From(p).cut
    ensures Joined(s, t, p, first + second)
  {
    hide Payloads;
    ConcatAssociates(Payloads(s.From(p).wire), first, second);
  }

  /** A run of the sending loop, then one of the receiving loop, then perhaps the end of the race. */
  lemma SenderFirstRun(s: System, p: Side, sent: seq<TxEvent>, received: seq<RxEvent>, over: bool, reached: bool)
      returns (es: seq<Event>, t: System)
    requires !s.RaceOver(p) && !s.Flag(p).cancelled
    requires TxRun(SendView(s, p), sent).Some?
    requires var u := TxRun(SendView(s, p), sent).value.0;
             var r := RecvView(s, p).(closed := u.closed);
             && RxRun(r, received).Some? && Supplied(s.To(p), received, RxRun(r, received).value.2)
             && (u.pc == SendDone ==> received == [])
             && (over <==> u.pc == SendDone || RxRun(r, received).value.0.pc == RecvDone)
    ensures Exec(s, es) == Some(t)
    ensures var (u, handed, wired) := TxRun(SendView(s, p), sent).value;
            var (v, pushed, items) := RxRun(RecvView(s, p).(closed := u.closed), received).value;
            && t.To(p).GetInbox() == Inbox(s.To(p).recvBuf, v.queue)
            && t.Flag(p) == s.Flag(p).(closed := v.closed, cancelled := over)
            && Joined(s, t, p, wired + LastWords(u.pc, over, reached))
            && (!over ==> SendView(t, p) == u.(closed := v.closed) && RecvView(t, p) == v
                          && t.To(p).cut == s.To(p).cut && s.To(p).wire == items + t.To(p).wire)
  {
    hide TxRun, RxRun, Exec, SendEvents, RecvEvents, Step, Supplied, Payloads;
    SendLoopRefines(s, p, sent);
    var m := Exec(s, SendEvents(p, sent)).value;
    es, t := SendEvents(p, sent), m;
    RxRunEmpty(RecvView(m, p));
    assert [] + s.To(p).wire == s.To(p).wire;
    if received != [] {
      SuppliedSame(s, m, p, received);
      RecvLoopRefines(m, p, received);
      ExecConcat(s, es, RecvEvents(p, received));
      es, t := es + RecvEvents(p, received), Exec(m, RecvEvents(p, received)).value;
    }
    var n := t;
    var (u, handed, wired) := TxRun(SendView(s, p), sent).value;
    RaceEnds(n, p, over, reached);
    ExecConcat(s, es, Finish(p, over, reached));
    es, t := es + Finish(p, over, reached), Exec(n, Finish(p, over, reached)).value;
    JoinedChain(s, n, t, p, wired, LastWords(u.pc, over, reached));
  }

  lemma SuppliedSame(s: System, m: System, p: Side, received: seq<RxEvent>)
    requires m.To(p) == s.To(p)
    requires RxRun(RecvView(m, p), received).Some?
    requires Supplied(s.To(p), received, RxRun(RecvView(m, p), received).value.2)
    ensures Supplied(m.To(p), received, RxRun(RecvView(m, p), received).value.2)
  {
  }

  /** The same with the receiving loop polled first. */
  lemma ReceiverFirstRun(s: System, p: Side, sent: seq<TxEvent>, received: seq<RxEvent>, over: bool, reached: bool)
      returns (es: seq<Event>, t: System)
    requires !s.RaceOver(p) && !s.Flag(p).cancelled
    requires RxRun(RecvView(s, p), received).Some?
    requires Supplied(s.To(p), received, RxRun(RecvView(s, p), received).value.2)
    requires var v := RxRun(RecvView(s, p), received).value.0;
             var x := SendView(s, p).(closed := v.closed);
             && TxRun(x, sent).Some?
             && (v.pc == RecvDone ==> sent == [])
             && (over <==> v.pc == RecvDone || TxRun(x, sent).value.0.pc == SendDone)
    ensures Exec(s, es) == Some(t)
    ensures var (v, pushed, items) := RxRun(RecvView(s, p), received).value;
            var (u, handed, wired) := TxRun(SendView(s, p).(closed := v.closed), sent).value;
            && t.To(p).GetInbox() == Inbox(s.To(p).recvBuf, v.queue)
            && t.Flag(p) == s.Flag(p).(closed := u.closed, cancelled := over)
            && Joined(s, t, p, wired + LastWords(u.pc, over, reached))
            && (!over ==> SendView(t, p) == u && RecvView(t, p) == v.(closed := u.closed)
                          && t.To(p).cut == s.To(p).cut && s.To(p).wire == items + t.To(p).wire)
  {
    hide TxRun, RxRun, Exec, SendEvents, RecvEvents, Step, Supplied, Payloads;
    RecvLoopRefines(s, p, received);
    var m := Exec(s, RecvEvents(p, received)).value;
    es, t := RecvEvents(p, received), m;
    TxRunEmpty(SendView(m, p));
    assert Payloads(m.From(p).wire) + [] == Payloads(m.From(p).wire);
    if sent != [] {
      SendLoopRefines(m, p, sent);
      ExecConcat(s, es, SendEvents(p, sent));
      es, t := es + SendEvents(p, sent), Exec(m, SendEvents(p, sent)).value;
    }
    var n := t;
    var (u, handed, wired) := TxRun(SendView(m, p), sent).value;
    RaceEnds(n, p, over, reached);
    ExecConcat(s, es, Finish(p, over, reached));
    es, t := es + Finish(p, over, reached), Exec(n, Finish(p, over, reached)).value;
    JoinedChain(s, n, t, p, wired, LastWords(u.pc, over, reached));
  }

  /** What a receiving loop takes from what the network delivered is on the wire. */
  lemma FedSupplies(d: Direction, before: seq<Item>, items: seq<Item>, after: seq<Item>, ended: bool,
                    received: seq<RxEvent>)
    requires before == items + after && before <= d.wire
    requires ended ==> d.cut && before == d.wire
    requires NextEnd in received ==> ended && after == []
    ensures Supplied(d, received, items)
  {
  }

  // ---------------------------------------------------------------- the objects of an endpoint

  class Endpoint {
    const pipe: ObfsWsPipe
    const race: LoopRace

    constructor (writer: WsSink, reader: WsStream, peerUrl: seq<char>, peerMetadata: seq<char>)
      ensures fresh(pipe) && fresh(race) && race.sender.writer == writer && race.receiver.reader == reader
      ensures Represents(Start, Left) && Represents(Start, Right)
    {
      var made := new ObfsWsPipe(peerUrl, peerMetadata);
      var sender := new SendLoop(made.sendTx, writer, made.closed);
      var receiver := new RecvLoop(made.recvRx, reader, made.closed);
      pipe := made;
      race := new LoopRace(sender, receiver);
    }

    /** The loops work on the channels and the flag of the pipe. */
    ghost predicate Wired() {
      && race.sender.rx == pipe.sendTx && race.receiver.tx == pipe.recvRx && pipe.sendTx != pipe.recvRx
      && race.sender.closed == pipe.closed == race.receiver.closed
    }

    ghost predicate Represents(s: System, p: Side)
      reads this, pipe, pipe.sendTx, pipe.recvRx, pipe.closed, race, race.sender, race.receiver,
            race.sender.rx, race.sender.closed, race.receiver.tx, race.receiver.closed
    {
      && Wired()
      && pipe.Contents() == s.To(p).GetInbox() && |pipe.recvRx.items| <= QUEUE_CAP
      && s.Flag(p) == Flags(pipe.closed.value, race.over, pipe.sendTx.sendersGone)
      && pipe.recvRx.receiverGone == pipe.sendTx.sendersGone && pipe.sendTx.receiverGone == race.over
      && (!race.over ==>
            && !s.RaceOver(p)
            && race.sender.State() == SendView(s, p) && race.receiver.State() == RecvView(s, p))
    }

    /** What the network has delivered to this endpoint is on the wire to it. */
    ghost predicate Fed(s: System, p: Side)
      reads this, race, race.receiver, race.receiver.reader
    {
      var reader := race.receiver.reader;
      && reader.items <= s.To(p).wire
      && (reader.ended ==> s.To(p).cut && reader.items == s.To(p).wire)
    }

    /** The steps of the other endpoint and of the network leave this endpoint what it is. */
    lemma OthersLeave(s: System, e: Event, p: Side)
      requires Represents(s, p) && Step(s, e).Some? && (e.p != p || e.Inject? || e.CutWire?)
      ensures Represents(Step(s, e).value, p)
    {
      hide Step, Flatten;
      OthersSpare(s, e, p);
    }

    method Write(msg: array<Byte>, ghost s: System, ghost p: Side) returns (r: Poll<Io<nat>>, ghost t: System)
      requires Represents(s, p) && !s.Flag(p).dropped
      modifies pipe.sendTx`items
      ensures Step(s, Event.Write(p, msg[..])) == Some(t) && Represents(t, p)
      ensures r == Ready(if s.Flag(p).closed then BrokenPipe else Ok(msg.Length))
    {
      hide Flatten;
      ghost var queued;
      r, queued := pipe.PollWrite(msg);
      t := Step(s, Event.Write(p, msg[..])).value;
    }

    method Close(ghost s: System, ghost p: Side) returns (ghost t: System)
      requires Represents(s, p) && !s.Flag(p).dropped
      modifies pipe.closed
      ensures Step(s, Event.Close(p)) == Some(t) && Represents(t, p)
    {
      hide Flatten;
      var r := pipe.PollClose();
      t := Step(s, Event.Close(p)).value;
    }

    method Drop(ghost s: System, ghost p: Side) returns (ghost t: System)
      requires Represents(s, p) && !s.Flag(p).dropped
      modifies pipe.sendTx`sendersGone, pipe.recvRx`receiverGone
      ensures Step(s, Event.Drop(p)) == Some(t) && Represents(t, p)
    {
      hide Flatten;
      pipe.Drop();
      t := Step(s, Event.Drop(p)).value;
    }

    /** The history of the system records what the caller of the read is told, and what it is not. */
    method Read(buf: array<Byte>, ghost s: System, ghost p: Side) returns (r: Poll<Io<nat>>, ghost t: System)
      requires Represents(s, p) && !s.Flag(p).dropped
      modifies pipe`recvBuf, pipe.recvRx`items, buf
      ensures Step(s, ReadInto(p, buf.Length)) == Some(t) && Represents(t, p)
      ensures r == Pending || (r.Ready? && r.value.Ok? && r.value.value <= buf.Length)
      ensures r.Ready? ==> t.To(p).chunks == s.To(p).chunks + [Delivered(buf[..r.value.value])]
      ensures r == Pending ==> DeliveredBytes(t.To(p).chunks) == DeliveredBytes(s.To(p).chunks)
    {
      hide Flatten, PipeSpec.Read, DeliveredBytes, TakenBytes;
      ghost var taken;
      r, taken := pipe.PollRead(buf);
      t := Step(s, ReadInto(p, buf.Length)).value;
      ReadEventIsPollRead(s, p, buf.Length);
      QueueShrinks(s.To(p).GetInbox(), buf.Length);
      assert DeliveredBytes(s.To(p).chunks) + [] == DeliveredBytes(s.To(p).chunks);
    }

    /** A poll of the background task in which the sending loop gets the first turn: the websocket
        gets `out`, and so does the wire. */
    method PollSenderFirst(reached: bool, ghost s: System, ghost p: Side)
      returns (ghost es: seq<Event>, ghost t: System, ghost out: seq<Bytes>)
      requires Represents(s, p) && Fed(s, p) && !race.over
      modifies race`over, race.sender`pc, pipe.sendTx`items, pipe.sendTx`receiverGone, race.sender.writer,
               pipe.closed, race.receiver`pc, pipe.recvRx`items, pipe.recvRx`sendersGone, race.receiver.reader`items
      ensures Exec(s, es) == Some(t) && Represents(t, p) && (!race.over ==> Fed(t, p))
      ensures race.sender.writer.wire == old(race.sender.writer.wire) + out && Joined(s, t, p, out)
    {
      hide TxRun, RxRun, TxStep, RxStep, Exec, Flatten, Supplied, Payloads, Joined;
      ghost var sent, handed, wired, received, pushed, items, mid;
      ghost var reader := race.receiver.reader;
      ghost var before := reader.items;
      sent, handed, wired, received, pushed, items, mid := race.PollSenderFirst(reached);
      FedSupplies(s.To(p), before, items, reader.items, reader.ended, received);
      es, t := SenderFirstRun(s, p, sent, received, race.over, reached);
      out := wired + LastWords(race.sender.pc, race.over, reached);
      if !race.over {
        StillFed(before, items, reader.items, s.To(p).wire, t.To(p).wire);
      }
    }

    /** The same with the first turn for the receiving loop. */
    method PollReceiverFirst(reached: bool, ghost s: System, ghost p: Side)
      returns (ghost es: seq<Event>, ghost t: System, ghost out: seq<Bytes>)
      requires Represents(s, p) && Fed(s, p) && !race.over
      modifies race`over, race.sender`pc, pipe.sendTx`items, pipe.sendTx`receiverGone, race.sender.writer,
               pipe.closed, race.receiver`pc, pipe.recvRx`items, pipe.recvRx`sendersGone, race.receiver.reader`items
      ensures Exec(s, es) == Some(t) && Represents(t, p) && (!race.over ==> Fed(t, p))
      ensures race.sender.writer.wire == old(race.sender.writer.wire) + out && Joined(s, t, p, out)
    {
      hide TxRun, RxRun, TxStep, RxStep, Exec, Flatten, Supplied, Payloads, Joined;
      ghost var sent, handed, wired, received, pushed, items, mid;
      ghost var reader := race.receiver.reader;
      ghost var before := reader.items;
      sent, handed, wired, received, pushed, items, mid := race.PollReceiverFirst(reached);
      FedSupplies(s.To(p), before, items, reader.items, reader.ended, received);
      es, t := ReceiverFirstRun(s, p, sent, received, race.over, reached);
      out := wired + LastWords(race.sender.pc, race.over, reached);
      if !race.over {
        StillFed(before, items, reader.items, s.To(p).wire, t.To(p).wire);
      }
    }
  }

  lemma StillFed(before: seq<Item>, items: seq<Item>, after: seq<Item>, wire: seq<Item>, rest: seq<Item>)
    requires before == items + after && wire == items + rest && before <= wire
    ensures after <= rest && (before == wire ==> after == rest)
  {
    assert after == before[|items|..] && rest == wire[|items|..];
  }

  lemma QueueShrinks(x: Inbox, k: nat)
    ensures |Read(x, k).0.queue| <= |x.queue|
  {
  }
}
