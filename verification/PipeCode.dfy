/** The pipe itself: the handle with its poll functions, and the two background loops.  A loop
    is resumed by `Resume` and runs until it would wait; the reply scripts of the websocket
    halves say what the network answers. */
module PipeCode {
  import opened ByteStreams
  import opened PipeSpec

  datatype Poll<+T> = Pending | Ready(value: T)

  datatype Io<+T> = Ok(value: T) | BrokenPipe

  /** A bounded channel; `sendersGone` and `receiverGone` once that half of it was dropped. */
  class Channel {
    var items: seq<Bytes>
    var sendersGone: bool
    var receiverGone: bool

    constructor ()
      ensures items == [] && !sendersGone && !receiverGone
    {
      items, sendersGone, receiverGone := [], false, false;
    }

    method TrySend(msg: Bytes) returns (ok: bool)
      modifies this`items
      ensures ok <==> !receiverGone && |old(items)| < QUEUE_CAP
      ensures items == old(items) + if ok then [msg] else []
    {
      ok := !receiverGone && |items| < QUEUE_CAP;
      if ok {
        items := items + [msg];
      }
    }

    method TryRecv() returns (r: Option<Bytes>)
      modifies this`items
      ensures r.None? <==> old(items) == []
      ensures old(items) == (if r.Some? then [r.value] else []) + items
    {
      if items == [] {
        r := None;
      } else {
        r := Some(items[0]);
        items := items[1..];
      }
    }
  }

  class AtomicFlag {
    var value: bool

    constructor ()
      ensures !value
    {
      value := false;
    }
  }

  /** Copies `src` into `buf` starting at index `at`. */
  method CopyInto(buf: array<Byte>, at: nat, src: Bytes)
    requires at + |src| <= buf.Length
    modifies buf
    ensures buf[..] == Spliced(old(buf[..]), at, src)
  {
    for i := 0 to |src|
      invariant buf[..] == Spliced(old(buf[..]), at, src[..i])
    {
      SpliceGrows(old(buf[..]), at, src, i);
      buf[at + i] := src[i];
      assert buf[..] == Spliced(old(buf[..]), at, src[..i])[at + i := src[i]];
    }
    assert src[..|src|] == src;
  }

  /** One more byte written at the end of a splice. */
  lemma SpliceGrows(whole: Bytes, at: nat, src: Bytes, i: nat)
    requires at + |src| <= |whole| && i < |src|
    ensures Spliced(whole, at, src[..i])[at + i := src[i]] == Spliced(whole, at, src[..i + 1])
  {
    assert src[..i + 1] == src[..i] + [src[i]];
  }

  /** `whole` with `src` written over it from index `at` on. */
  function Spliced(whole: Bytes, at: nat, src: Bytes): Bytes
    requires at + |src| <= |whole|
  {
    whole[..at] + src + whole[at + |src|..]
  }

  class ObfsWsPipe {
    const sendTx: Channel
    const recvRx: Channel
    const closed: AtomicFlag
    const peerUrl: seq<char>
    var recvBuf: Bytes

    constructor (peerUrl: seq<char>, peerMetadata: seq<char>)
      ensures fresh(sendTx) && fresh(recvRx) && fresh(closed) && sendTx != recvRx
      ensures Contents() == Inbox([], []) && sendTx.items == [] && !closed.value
      ensures !sendTx.sendersGone && !sendTx.receiverGone && !recvRx.sendersGone && !recvRx.receiverGone
      ensures this.peerUrl == peerUrl + ['#'] + peerMetadata
    {
      sendTx := new Channel();
      recvRx := new Channel();
      closed := new AtomicFlag();
      recvBuf := [];
      this.peerUrl := peerUrl + ['#'] + peerMetadata;
    }

    ghost function Contents(): Inbox
      reads this, recvRx
    {
      Inbox(recvBuf, recvRx.items)
    }

    method IsClosed() returns (r: bool)
      ensures r == closed.value
    {
      r := closed.value;
    }

    /** A closed pipe hides its address. */
    method RemoteAddr() returns (r: Option<seq<char>>)
      ensures r == if closed.value then None else Some(peerUrl)
    {
      var gone := IsClosed();
      if gone {
        return None;
      }
      r := Some(peerUrl);
    }

    /** The answer says nothing about whether the channel took the message: `queued` does. */
    method PollWrite(msg: array<Byte>) returns (r: Poll<Io<nat>>, ghost queued: bool)
      modifies sendTx`items
      ensures r == Ready(if closed.value then BrokenPipe else Ok(msg.Length))
      ensures queued <==> !closed.value && !sendTx.receiverGone && |old(sendTx.items)| < QUEUE_CAP
      ensures sendTx.items == old(sendTx.items) + if queued then [msg[..]] else []
    {
      if closed.value {
        return Ready(BrokenPipe), false;
      }
      var ok := sendTx.TrySend(msg[..]);
      queued := ok;
      r := Ready(Ok(msg.Length));
    }

    method PollFlush() returns (r: Poll<Io<()>>)
      ensures r == Ready(if closed.value then BrokenPipe else Ok(()))
    {
      if closed.value {
        r := Ready(BrokenPipe);
      } else {
        r := Ready(Ok(()));
      }
    }

    method PollClose() returns (r: Poll<Io<()>>)
      modifies closed
      ensures closed.value && r == Ready(Ok(()))
    {
      closed.value := true;
      r := Ready(Ok(()));
    }

    /** The last handle goes away: nobody writes to the one channel or reads from the other any
        more.  The pipe is not closed by that. */
    method Drop()
      modifies sendTx`sendersGone, recvRx`receiverGone
      ensures sendTx.sendersGone && recvRx.receiverGone
    {
      sendTx.sendersGone := true;
      recvRx.receiverGone := true;
    }

    /** First half of a read: the residual goes to the front of `buf`; `full` when it has more
        bytes than `buf`, and then the rest of it stays behind. */
    method CopyResidual(buf: array<Byte>) returns (full: bool, bufPos: nat)
      modifies this`recvBuf, buf
      ensures full <==> buf.Length < |old(recvBuf)|
      ensures bufPos == Min(buf.Length, |old(recvBuf)|)
      ensures recvBuf == old(recvBuf)[bufPos..]
      ensures buf[..] == Spliced(old(buf[..]), 0, old(recvBuf)[..bufPos])
    {
      full, bufPos := false, 0;
      var recvBufLen := |recvBuf|;
      if recvBufLen > 0 {
        var bufRemaining := buf.Length - bufPos;
        if recvBufLen > bufRemaining {
          CopyInto(buf, 0, recvBuf[..buf.Length]);
          recvBuf := recvBuf[buf.Length..];
          return true, buf.Length;
        } else {
          CopyInto(buf, 0, recvBuf);
          recvBuf := [];
          bufPos := bufPos + recvBufLen;
        }
      }
    }

    /** Second half of a read: as much of the message as fits goes to `buf` from `bufPos` on, and
        the rest is appended to the residual, which is empty by now. */
    method CopyMessage(buf: array<Byte>, bufPos: nat, buf2: Bytes) returns (n: nat)
      requires recvBuf == [] && bufPos <= buf.Length
      modifies this`recvBuf, buf
      ensures n == Min(buf.Length - bufPos, |buf2|) && recvBuf == buf2[n..]
      ensures buf[..] == Spliced(old(buf[..]), bufPos, buf2[..n])
    {
      var bufRemaining := buf.Length - bufPos;
      if |buf2| > bufRemaining {
        CopyInto(buf, bufPos, buf2[..bufRemaining]);
        recvBuf := recvBuf + buf2[bufRemaining..];
        n := bufRemaining;
      } else {
        CopyInto(buf, bufPos, buf2);
        n := |buf2|;
      }
    }

    /** Reads into `buf`: the bytes `taken` out of the inbox now stand at the front of `buf`, and
        the rest of `buf` is untouched.  A successful call reports how many they are; an
        unsuccessful one reports nothing, even when `taken` is not empty. */
    method PollRead(buf: array<Byte>) returns (r: Poll<Io<nat>>, ghost taken: Bytes)
      modifies this`recvBuf, recvRx`items, buf
      ensures r == Pending || r == Ready(Ok(|taken|))
      ensures |taken| <= buf.Length && buf[..] == taken + old(buf[..])[|taken|..]
      ensures (Contents(), if r.Ready? then Got(taken) else NotReady(taken)) == Read(old(Contents()), buf.Length)
    {
      hide Read, Flatten;
      ghost var before, untouched := Contents(), buf[..];
      var full, bufPos := CopyResidual(buf);
      taken := before.residual[..bufPos];
      ReadSplits(before, buf.Length, untouched);
      if full {
        return Ready(Ok(bufPos)), taken;
      }
      var next := recvRx.TryRecv();
      if next.None? {
        return Pending, taken;
      }
      var n := CopyMessage(buf, bufPos, next.value);
      taken := taken + next.value[..n];
      r := Ready(Ok(bufPos + n));
    }
  }

  /** Copying the residual and then the part of the first message that still fits is one read of
      both together. */
  lemma ReadSplits(x: Inbox, k: nat, untouched: Bytes)
    requires |untouched| == k
    ensures var p := Min(k, |x.residual|);
            var head := x.residual[..p];
            && Spliced(untouched, 0, head) == head + untouched[p..]
            && (k < |x.residual| ==> Read(x, k) == (Inbox(x.residual[p..], x.queue), Got(head)))
            && (|x.residual| <= k && x.queue == [] ==> Read(x, k) == (Inbox([], []), NotReady(head)))
            && (|x.residual| <= k && x.queue != [] ==>
                  var m := x.queue[0];
                  var n := Min(k - p, |m|);
                  && Read(x, k) == (Inbox(m[n..], x.queue[1..]), Got(head + m[..n]))
                  && Spliced(head + untouched[p..], p, m[..n]) == head + m[..n] + untouched[p + n..])
  {
    hide Flatten;
    var p := Min(k, |x.residual|);
    assert |x.residual| <= k ==> x.residual[..p] == x.residual;
    if |x.residual| <= k && x.queue != [] {
      var m := x.queue[0];
      var n := Min(k - p, |m|);
      var available := x.residual + m;
      assert available[..p + n] == x.residual + m[..n];
      assert available[p + n..] == m[n..];
    }
  }

  // ---------------------------------------------------------------- the sending loop

  /** The writing half of the websocket: the replies it will give, the messages it took. */
  class WsSink {
    var replies: seq<SinkReply>
    var wire: seq<Bytes>
  }

  class SendLoop {
    const rx: Channel
    const writer: WsSink
    const closed: AtomicFlag
    var pc: SendPc

    constructor (rx: Channel, writer: WsSink, closed: AtomicFlag)
      ensures this.rx == rx && this.writer == writer && this.closed == closed && pc == SendCheck
    {
      this.rx, this.writer, this.closed, this.pc := rx, writer, closed, SendCheck;
    }

    ghost function State(): Tx
      reads this, rx, closed
    {
      Tx(rx.items, pc, closed.value, rx.sendersGone)
    }

    /** The test at the head of the loop. */
    method TestClosed()
      requires pc == SendCheck
      modifies this`pc
      ensures TxStep(old(State()), TestSend) == Some((State(), Silent))
      ensures pc == SendWait || pc == SendDone
    {
      pc := if closed.value then SendDone else SendWait;
    }

    /** `rx.recv().await`, which stays put while the channel is empty, and fails when nobody is left
        to fill it. */
    method AwaitMessage() returns (e: Option<TxEvent>)
      requires pc == SendWait
      modifies this`pc, rx`items
      ensures e.None? <==> old(rx.items) == [] && !rx.sendersGone
      ensures e.None? ==> State() == old(State())
      ensures e.Some? ==> TxStep(old(State()), e.value) == Some((State(), Silent))
      ensures e.Some? ==> if e.value == TakeSend then pc.SendHold? && |rx.items| < |old(rx.items)|
                          else e.value == EndSend && pc == SendDone && rx.items == []
    {
      var next := rx.TryRecv();
      if next.Some? {
        pc := SendHold(next.value);
        e := Some(TakeSend);
      } else if rx.sendersGone {
        pc := SendDone;
        e := Some(EndSend);
      } else {
        e := None;
      }
    }

    /** `writer.send(msg).await`, which stays put while the websocket has no answer. */
    method AwaitSink() returns (answer: Option<SinkReply>, ghost out: Emission)
      requires pc.SendHold?
      modifies this`pc, writer, closed
      ensures answer.None? <==> old(writer.replies) == []
      ensures answer.None? ==> State() == old(State()) && out == Silent && writer.replies == []
      ensures answer.Some? ==> TxStep(old(State()), FinishSend(answer.value)) == Some((State(), out))
                               && (pc == SendDone || pc == SendCheck)
      ensures writer.wire == old(writer.wire) + Wired(out)
    {
      out := Silent;
      if writer.replies == [] {
        return None, out;
      }
      var reply := writer.replies[0];
      writer.replies := writer.replies[1..];
      out := TxStep(State(), FinishSend(reply)).value.1;
      if reply == Accepted || reply.reached {
        writer.wire := writer.wire + [pc.msg];
      }
      if reply.Failed? {
        closed.value := true;
        pc := SendDone;
      } else {
        pc := SendCheck;
      }
      answer := Some(reply);
    }

    /** Runs the loop until it returns or has to wait: for a message, or for the websocket.  What
        happened is the run `trace` of `TxStep`, with the websocket getting what it emits. */
    method Resume() returns (ghost trace: seq<TxEvent>, ghost handed: seq<Bytes>, ghost wired: seq<Bytes>)
      modifies this`pc, rx`items, writer, closed
      ensures TxRun(old(State()), trace) == Some((State(), handed, wired))
      ensures writer.wire == old(writer.wire) + wired
      ensures pc == SendDone || (pc == SendWait && rx.items == [] && !rx.sendersGone)
              || (pc.SendHold? && writer.replies == [])
    {
      hide TxStep;
      ghost var before, wire := State(), writer.wire;
      trace, handed, wired := [], [], [];
      while pc != SendDone
        invariant TxRun(before, trace) == Some((State(), handed, wired))
        invariant writer.wire == wire + wired
        decreases |rx.items|, if pc.SendHold? then 1 else 0,
                  if pc == SendCheck then 2 else if pc == SendWait then 1 else 0
      {
        ghost var e, out, last := TestSend, Silent, trace;
        if pc == SendCheck {
          TestClosed();
        } else if pc == SendWait {
          var next := AwaitMessage();
          if next.None? {
            return;
          }
          e := next.value;
        } else {
          var answer;
          answer, out := AwaitSink();
          if answer.None? {
            return;
          }
          e := FinishSend(answer.value);
        }
        TxRunSnoc(before, trace, e);
        trace, handed, wired := trace + [e], handed + Emitted(out), wired + Wired(out);
      }
    }
  }

  // ---------------------------------------------------------------- the receiving loop

  /** The reading half of the websocket: the items already there, and whether the stream has
      ended behind them. */
  class WsStream {
    var items: seq<Item>
    var ended: bool
  }

  class RecvLoop {
    const tx: Channel
    const reader: WsStream
    const closed: AtomicFlag
    var pc: RecvPc

    constructor (tx: Channel, reader: WsStream, closed: AtomicFlag)
      ensures this.tx == tx && this.reader == reader && this.closed == closed && pc == RecvCheck
    {
      this.tx, this.reader, this.closed, this.pc := tx, reader, closed, RecvCheck;
    }

    ghost function State(): Rx
      reads this, tx, closed
    {
      Rx(tx.items, pc, closed.value, tx.receiverGone)
    }

    /** The test at the head of the loop. */
    method TestClosed()
      requires pc == RecvCheck
      modifies this`pc
      ensures RxStep(old(State()), TestRecv) == Some(State()) && pc != RecvCheck && !pc.RecvHold?
    {
      pc := if closed.value then RecvDone else RecvWait;
    }

    /** `reader.next().await`, which stays put while nothing has come and the stream goes on. */
    method AwaitItem() returns (e: Option<RxEvent>)
      requires pc == RecvWait
      modifies this`pc, reader`items, closed
      ensures e.None? <==> old(reader.items) == [] && !reader.ended
      ensures e.None? ==> State() == old(State()) && reader.items == []
      ensures e.Some? ==> RxStep(old(State()), e.value) == Some(State())
                          && (e.value.NextItem?
                              || (e.value == NextEnd && pc == RecvDone && reader.ended && reader.items == []))
      ensures old(reader.items) == (if e.Some? then Arrived(e.value) else []) + reader.items
    {
      if reader.items != [] {
        var ret := reader.items[0];
        reader.items := reader.items[1..];
        pc := if ret.Binary? then RecvHold(ret.msg) else RecvCheck;
        e := Some(NextItem(ret));
      } else if reader.ended {
        closed.value := true;
        pc := RecvDone;
        e := Some(NextEnd);
      } else {
        e := None;
      }
    }

    /** `tx.send(msg).await`, which stays put while the channel is full, and fails when nobody is
        left to empty it. */
    method AwaitRoom() returns (e: Option<RxEvent>)
      requires pc.RecvHold? && |tx.items| <= QUEUE_CAP
      modifies this`pc, tx`items
      ensures e.None? <==> |old(tx.items)| == QUEUE_CAP && !tx.receiverGone
      ensures e.None? ==> State() == old(State())
      ensures e.Some? ==> RxStep(old(State()), e.value) == Some(State())
                          && if e.value == PushRecv then pc == RecvCheck else e.value == FailPush && pc == RecvDone
      ensures |tx.items| <= QUEUE_CAP
    {
      if tx.receiverGone {
        pc := RecvDone;
        e := Some(FailPush);
      } else if |tx.items| < QUEUE_CAP {
        tx.items := tx.items + [pc.msg];
        pc := RecvCheck;
        e := Some(PushRecv);
      } else {
        e := None;
      }
    }

    /** Runs the loop until it returns or has to wait: for the network, or for room in the channel.
        What happened is the run `trace` of `RxStep` over the `items` it took off the network. */
    method Resume() returns (ghost trace: seq<RxEvent>, ghost pushed: seq<Bytes>, ghost items: seq<Item>)
      requires |tx.items| <= QUEUE_CAP
      modifies this`pc, tx`items, reader`items, closed
      ensures RxRun(old(State()), trace) == Some((State(), pushed, items))
      ensures old(reader.items) == items + reader.items
      ensures |tx.items| <= QUEUE_CAP
      ensures NextEnd in trace ==> reader.ended && reader.items == []
      ensures pc == RecvDone || (pc == RecvWait && reader.items == [] && !reader.ended)
              || (pc.RecvHold? && |tx.items| == QUEUE_CAP && !tx.receiverGone)
    {
      hide RxStep, Pushed, RxRun;
      ghost var before := State();
      trace, pushed, items := [], [], [];
      RxRunEmpty(before);
      while pc != RecvDone
        invariant |tx.items| <= QUEUE_CAP
        invariant RxRun(before, trace) == Some((State(), pushed, items))
        invariant old(reader.items) == items + reader.items
        invariant NextEnd in trace ==> reader.ended && reader.items == [] && pc == RecvDone
        decreases |reader.items|, if pc.RecvHold? then 1 else 0,
                  if pc == RecvCheck then 2 else if pc == RecvWait then 1 else 0
      {
        ghost var now, e := State(), TestRecv;
        if pc == RecvCheck {
          TestClosed();
        } else if pc == RecvWait {
          var next := AwaitItem();
          if next.None? {
            return;
          }
          e := next.value;
        } else {
          var next := AwaitRoom();
          if next.None? {
            return;
          }
          e := next.value;
        }
        RxRunSnoc(before, trace, e);
        trace, pushed, items := trace + [e], pushed + Pushed(now, e), items + Arrived(e);
      }
    }
  }

  // ---------------------------------------------------------------- the race of the two loops

  /** The background task of a pipe: the two loops race, and the one that returns first takes the
      other, both halves of the websocket and its own ends of the channels down with it. */
  class LoopRace {
    const sender: SendLoop
    const receiver: RecvLoop
    var over: bool

    constructor (sender: SendLoop, receiver: RecvLoop)
      ensures this.sender == sender && this.receiver == receiver && !over
    {
      this.sender, this.receiver, this.over := sender, receiver, false;
    }

    /** Both loops belong to one pipe. */
    ghost predicate Valid()
      reads this, sender, receiver, receiver.tx
    {
      && sender.closed == receiver.closed && sender.rx != receiver.tx
      && |receiver.tx.items| <= QUEUE_CAP
    }

    /** Dropping both loops; a message being sent may already have `reached` the websocket. */
    method Cancel(reached: bool)
      modifies this`over, sender.rx`receiverGone, receiver.tx`sendersGone, sender.writer`wire
      ensures over && sender.rx.receiverGone && receiver.tx.sendersGone
      ensures sender.writer.wire == old(sender.writer.wire) + if reached then sender.pc.Held() else []
    {
      if reached && sender.pc.SendHold? {
        sender.writer.wire := sender.writer.wire + [sender.pc.msg];
      }
      sender.rx.receiverGone := true;
      receiver.tx.sendersGone := true;
      over := true;
    }

    /** Polls the sending loop and then, unless that has returned, the receiving loop; the race is
        over when either has.  `mid` is the closed flag between the two. */
    method PollSenderFirst(reached: bool)
      returns (ghost sent: seq<TxEvent>, ghost handed: seq<Bytes>, ghost wired: seq<Bytes>,
               ghost received: seq<RxEvent>, ghost pushed: seq<Bytes>, ghost items: seq<Item>, ghost mid: bool)
      requires Valid() && !over && sender.pc != SendDone && receiver.pc != RecvDone
      modifies this`over, sender`pc, sender.rx`items, sender.rx`receiverGone, sender.writer, sender.closed,
               receiver`pc, receiver.tx`items, receiver.tx`sendersGone, receiver.reader`items
      ensures Valid() && (over <==> sender.pc == SendDone || receiver.pc == RecvDone)
      ensures over ==> sender.rx.receiverGone && receiver.tx.sendersGone
      ensures !over ==> sender.rx.receiverGone == old(sender.rx.receiverGone)
      ensures TxRun(old(sender.State()), sent) == Some((sender.State().(closed := mid), handed, wired))
      ensures RxRun(old(receiver.State()).(closed := mid), received) == Some((receiver.State(), pushed, items))
      ensures sender.pc == SendDone ==> received == []
      ensures old(receiver.reader.items) == items + receiver.reader.items
      ensures NextEnd in received ==> receiver.reader.ended && receiver.reader.items == []
      ensures sender.writer.wire == old(sender.writer.wire) + wired + if over && reached then sender.pc.Held() else []
    {
      hide TxStep, RxStep, TxRun, RxRun, Flatten;
      sent, handed, wired := sender.Resume();
      mid := sender.closed.value;
      received, pushed, items := [], [], [];
      RxRunEmpty(receiver.State());
      if sender.pc != SendDone {
        received, pushed, items := receiver.Resume();
      }
      if sender.pc == SendDone || receiver.pc == RecvDone {
        Cancel(reached);
      }
    }

    /** The same the other way round. */
    method PollReceiverFirst(reached: bool)
      returns (ghost sent: seq<TxEvent>, ghost handed: seq<Bytes>, ghost wired: seq<Bytes>,
               ghost received: seq<RxEvent>, ghost pushed: seq<Bytes>, ghost items: seq<Item>, ghost mid: bool)
      requires Valid() && !over && sender.pc != SendDone && receiver.pc != RecvDone
      modifies this`over, sender`pc, sender.rx`items, sender.rx`receiverGone, sender.writer, sender.closed,
               receiver`pc, receiver.tx`items, receiver.tx`sendersGone, receiver.reader`items
      ensures Valid() && (over <==> sender.pc == SendDone || receiver.pc == RecvDone)
      ensures over ==> sender.rx.receiverGone && receiver.tx.sendersGone
      ensures !over ==> sender.rx.receiverGone == old(sender.rx.receiverGone)
      ensures RxRun(old(receiver.State()), received) == Some((receiver.State().(closed := mid), pushed, items))
      ensures TxRun(old(sender.State()).(closed := mid), sent) == Some((sender.State(), handed, wired))
      ensures receiver.pc == RecvDone ==> sent == []
      ensures old(receiver.reader.items) == items + receiver.reader.items
      ensures NextEnd in received ==> receiver.reader.ended && receiver.reader.items == []
      ensures sender.writer.wire == old(sender.writer.wire) + wired + if over && reached then sender.pc.Held() else []
    {
      hide TxStep, RxStep, TxRun, RxRun, Flatten;
      received, pushed, items := receiver.Resume();
      mid := sender.closed.value;
      sent, handed, wired := [], [], [];
      TxRunEmpty(sender.State());
      if receiver.pc != RecvDone {
        sent, handed, wired := sender.Resume();
      }
      if sender.pc == SendDone || receiver.pc == RecvDone {
        Cancel(reached);
      }
    }
  }
}
