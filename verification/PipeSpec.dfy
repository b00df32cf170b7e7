/** What one read, one step of the sending loop and one step of the receiving loop of a
    websocket pipe do to plain values.  The classes of PipeCode are proved against these
    functions, and PipeSystem composes them into two connected endpoints. */
module PipeSpec {
  import opened ByteStreams

  /** Capacity of both bounded channels of a pipe. */
  const QUEUE_CAP: nat := 100000

  // ---------------------------------------------------------------- reading

  /** The receive side of a pipe: bytes kept from a partly read message, then whole messages. */
  datatype Inbox = Inbox(residual: Bytes, queue: seq<Bytes>) {
    function Stream(): Bytes { residual + Flatten(queue) }
    function Measure(): nat { |residual| + |Flatten(queue)| + |queue| }
  }

  /** `NotReady` carries the bytes that left the inbox although nothing was reported. */
  datatype ReadOutcome = NotReady(lost: Bytes) | Got(data: Bytes) {
    /** The bytes the read took out of the inbox, reported or not. */
    function Taken(): Bytes { if NotReady? then lost else data }
  }

  /** The one situation in which a read drops bytes: the residual fits the buffer and no
      message is waiting. */
  predicate Lossy(x: Inbox, k: nat) {
    0 < |x.residual| <= k && x.queue == []
  }

  function Min(a: nat, b: nat): nat { if a < b then a else b }

  /** One read into a buffer of `k` bytes. */
  function Read(x: Inbox, k: nat): (Inbox, ReadOutcome) {
    if k < |x.residual| then
      (Inbox(x.residual[k..], x.queue), Got(x.residual[..k]))
    else if x.queue == [] then
      (Inbox([], []), NotReady(x.residual))
    else
      var available := x.residual + x.queue[0];
      var n := Min(k, |available|);
      (Inbox(available[n..], x.queue[1..]), Got(available[..n]))
  }

  /** A repaired read, which is not what the pipe does: it reports the residual it copied
      instead of answering that nothing is ready. */
  function RepairedRead(x: Inbox, k: nat): (Inbox, ReadOutcome) {
    if Lossy(x, k) then (Inbox([], []), Got(x.residual)) else Read(x, k)
  }

  /** A read removes a prefix of the byte stream and nothing else. */
  lemma ReadConservesStream(x: Inbox, k: nat)
    ensures var (y, o) := Read(x, k); o.Taken() + y.Stream() == x.Stream()
    ensures var (y, o) := RepairedRead(x, k); o.Taken() + y.Stream() == x.Stream()
  {
    if |x.residual| <= k && x.queue != [] {
      var available := x.residual + x.queue[0];
      assert x.Stream() == available + Flatten(x.queue[1..]);
      var n := Min(k, |available|);
      assert available == available[..n] + available[n..];
    } else if k < |x.residual| {
      assert x.residual == x.residual[..k] + x.residual[k..];
    }
  }

  /** Bytes vanish in a read exactly in the lossy situation, and then the whole residual does;
      the repaired read differs from the real one exactly there and never loses a byte. */
  lemma ReadLossExactly(x: Inbox, k: nat)
    ensures var o := Read(x, k).1; (o.NotReady? && o.lost != []) <==> Lossy(x, k)
    ensures Lossy(x, k) ==> Read(x, k) == (Inbox([], []), NotReady(x.residual))
    ensures Read(x, k) == RepairedRead(x, k) <==> !Lossy(x, k)
    ensures RepairedRead(x, k).1.NotReady? ==> RepairedRead(x, k).1.lost == []
    ensures RepairedRead(x, k).1.NotReady? <==> x.Stream() == [] && x.queue == []
  {
  }

  /** How many bytes a successful read reports, and when it reports none at all.  Callers take
      a zero-byte read for the end of the stream, so the last clause names a false end. */
  lemma ReadCount(x: Inbox, k: nat)
    requires Read(x, k).1.Got?
    ensures var n := |Read(x, k).1.data|;
            n == if k < |x.residual| then k else Min(k, |x.residual| + |x.queue[0]|)
    ensures 0 < k ==> Read(x, k).0.Measure() < x.Measure()
    ensures 0 < k ==> (Read(x, k).1.data == [] <==> x.residual == [] && x.queue[0] == [])
  {
    ReadConservesStream(x, k);
    var (y, o) := Read(x, k);
    assert |o.Taken()| + |y.Stream()| == |x.Stream()|;
  }

  /** The number of reads in a row that are answered from the residual alone. */
  function ResidualReads(x: Inbox, k: nat): nat
    requires 0 < k
    decreases |x.residual|
  {
    if k < |x.residual| then 1 + ResidualReads(Read(x, k).0, k) else 0
  }

  /** A residual of R > 0 bytes serves exactly (R - 1) / k reads of k bytes by itself. */
  lemma {:induction false} DrainArithmetic(x: Inbox, k: nat)
    requires 0 < k && x.residual != []
    ensures ResidualReads(x, k) == (|x.residual| - 1) / k
    decreases |x.residual|
  {
    var r := |x.residual| - 1;
    if k <= r {
      DrainArithmetic(Read(x, k).0, k);
      DivStep(r, k);
    } else {
      DivSmall(r, k);
    }
  }

  /** What `n` reads into buffers of `k` bytes report, and what is left. */
  function ReadMany(x: Inbox, k: nat, n: nat): (Inbox, Bytes)
    decreases n
  {
    if n == 0 then (x, [])
    else
      var (y, o) := Read(x, k);
      var (z, more) := ReadMany(y, k, n - 1);
      (z, (if o.Got? then o.data else []) + more)
  }

  lemma {:induction false} ReadManySnoc(x: Inbox, k: nat, n: nat)
    ensures var (y, out) := ReadMany(x, k, n);
            var (z, o) := Read(y, k);
            ReadMany(x, k, n + 1) == (z, out + if o.Got? then o.data else [])
    decreases n
  {
    hide Read;
    if n == 0 {
      var (y, o) := Read(x, k);
      var got := if o.Got? then o.data else [];
      assert ReadMany(y, k, 0) == (y, []);
      assert got + [] == got && [] + got == got;
    } else {
      var (y, o) := Read(x, k);
      ReadManySnoc(y, k, n - 1);
      var got := if o.Got? then o.data else [];
      var (z, out) := ReadMany(y, k, n - 1);
      var last := Read(z, k).1;
      assert got + (out + if last.Got? then last.data else []) == got + out + if last.Got? then last.data else [];
    }
  }

  /** The number of reads in a row that are answered, until one is not ready. */
  function AnsweredReads(x: Inbox, k: nat): nat
    requires 0 < k
    decreases x.Measure()
  {
    if Read(x, k).1.NotReady? then 0
    else
      ReadCount(x, k);
      1 + AnsweredReads(Read(x, k).0, k)
  }

  /** The bytes of a residual that are left once the residual alone serves no more reads. */
  function Remnant(r: nat, k: nat): nat
    requires 0 < k
  {
    if r == 0 then 0 else (r - 1) % k + 1
  }

  /** The bytes left when reads of `k` bytes have emptied the queue.  Only the lengths of the
      residual and of the messages matter. */
  function Leftover(r: nat, queue: seq<Bytes>, k: nat): nat
    requires 0 < k
    decreases |queue|
  {
    if queue == [] then Remnant(r, k)
    else
      var available := Remnant(r, k) + |queue[0]|;
      Leftover(available - Min(k, available), queue[1..], k)
  }

  lemma RemnantStep(r: nat, k: nat)
    requires 0 < k
    ensures k < r ==> Remnant(r - k, k) == Remnant(r, k)
    ensures r <= k ==> Remnant(r, k) == r
  {
    if k < r {
      DivStep(r - 1, k);
      var a, q := r - 1, (r - 1 - k) / k;
      assert (q + 1) * k == q * k + k;
      assert a == a / k * k + a % k && a - k == q * k + (a - k) % k;
    } else if 0 < r {
      DivSmall(r - 1, k);
    }
  }

  /** One answered read does not change what will be left over. */
  lemma LeftoverStep(x: Inbox, k: nat)
    requires 0 < k && Read(x, k).1.Got?
    ensures var y := Read(x, k).0; Leftover(|y.residual|, y.queue, k) == Leftover(|x.residual|, x.queue, k)
  {
    hide Flatten, Remnant;
    RemnantStep(|x.residual|, k);
  }

  /** Everything already queued can still be read, closed or not.  From any inbox, reads into
      buffers of `k` bytes are answered until the queue is empty and a residual is left that
      fits the buffer; what they report, followed by that residual, is the whole stream.  The next
      read loses exactly that residual, so the inbox can be drained without a loss if and only if
      `Leftover` is zero. */
  lemma {:induction false} QueueDrains(x: Inbox, k: nat)
    requires 0 < k
    ensures var n := AnsweredReads(x, k);
            var (y, out) := ReadMany(x, k, n);
            && n <= x.Measure()
            && (forall i :: 0 <= i < n ==> Read(ReadMany(x, k, i).0, k).1.Got?)
            && y.queue == [] && |y.residual| == Leftover(|x.residual|, x.queue, k) <= k
            && out + y.residual == x.Stream()
            && Read(y, k) == (Inbox([], []), NotReady(y.residual))
            && (out == x.Stream() <==> Leftover(|x.residual|, x.queue, k) == 0)
    decreases x.Measure()
  {
    var (next, o) := Read(x, k);
    if o.NotReady? {
      assert x.queue == [] && |x.residual| <= k;
      RemnantStep(|x.residual|, k);
      assert x.residual + [] == x.residual && [] + x.residual == x.residual;
    } else {
      ReadCount(x, k);
      ReadConservesStream(x, k);
      LeftoverStep(x, k);
      QueueDrains(next, k);
      hide Read, Leftover, Flatten;
      var n := AnsweredReads(next, k);
      var (y, out) := ReadMany(next, k, n);
      assert o.data + (out + y.residual) == (o.data + out) + y.residual;
      forall i | 0 <= i < n + 1 ensures Read(ReadMany(x, k, i).0, k).1.Got? {
        if 0 < i {
          assert ReadMany(x, k, i).0 == ReadMany(next, k, i - 1).0;
        }
      }
    }
  }

  /** With no residual and a buffer that holds the longest message nothing is left over, and one
      read per message reports the whole stream. */
  lemma {:induction false} LongBuffersDrain(x: Inbox, k: nat)
    requires x.residual == [] && forall m :: m in x.queue ==> |m| <= k
    ensures ReadMany(x, k, |x.queue|) == (Inbox([], []), x.Stream())
    ensures 0 < k ==> Leftover(0, x.queue, k) == 0
    decreases |x.queue|
  {
    if x.queue != [] {
      var m := x.queue[0];
      assert [] + m == m && m[..|m|] == m && m[|m|..] == [];
      assert Read(x, k) == (Inbox([], x.queue[1..]), Got(m));
      var rest := Inbox([], x.queue[1..]);
      LongBuffersDrain(rest, k);
      assert x.Stream() == m + rest.Stream();
    }
  }

  // ---------------------------------------------------------------- a reader and its arrivals

  /** What one reader handle sees: messages pushed by the receiving loop, and reads. */
  datatype ReaderEvent = Arrive(msg: Bytes) | Poll(k: nat)

  /** A reader with its history: messages that arrived, bytes reported, bytes lost. */
  datatype Reader = Reader(inbox: Inbox, arrived: seq<Bytes>, delivered: Bytes, lost: Bytes)

  const FreshReader := Reader(Inbox([], []), [], [], [])

  function ReaderStep(r: Reader, e: ReaderEvent): Reader {
    match e
    case Arrive(m) =>
      r.(inbox := r.inbox.(queue := r.inbox.queue + [m]), arrived := r.arrived + [m])
    case Poll(k) =>
      var (y, o) := Read(r.inbox, k);
      match o
      case NotReady(gone) => r.(inbox := y, lost := r.lost + gone)
      case Got(data) => r.(inbox := y, delivered := r.delivered + data)
  }

  function ReaderRun(es: seq<ReaderEvent>): Reader
    decreases |es|
  {
    if es == [] then FreshReader
    else ReaderStep(ReaderRun(es[..|es| - 1]), es[|es| - 1])
  }

  /** No read of the run met the lossy situation. */
  predicate LossFree(es: seq<ReaderEvent>)
    decreases |es|
  {
    es != [] ==>
      var before, last := es[..|es| - 1], es[|es| - 1];
      LossFree(before) && (last.Poll? ==> !Lossy(ReaderRun(before).inbox, last.k))
  }

  /** Bytes are accounted for, and while none is lost the reader has seen a prefix. */
  predicate Accounted(r: Reader) {
    && |Flatten(r.arrived)| == |r.delivered| + |r.lost| + |r.inbox.Stream()|
    && (r.lost == [] ==> Flatten(r.arrived) == r.delivered + r.inbox.Stream())
  }

  lemma ArrivalAccounted(r: Reader, m: Bytes)
    requires Accounted(r)
    ensures Accounted(ReaderStep(r, Arrive(m)))
  {
    FlattenSnoc(r.arrived, m);
    FlattenSnoc(r.inbox.queue, m);
    assert ReaderStep(r, Arrive(m)).inbox.Stream() == r.inbox.Stream() + m;
  }

  lemma PollAccounted(r: Reader, k: nat)
    requires Accounted(r)
    ensures Accounted(ReaderStep(r, Poll(k)))
    ensures |ReaderStep(r, Poll(k)).lost| == |r.lost| + if Lossy(r.inbox, k) then |r.inbox.residual| else 0
  {
    ReadConservesStream(r.inbox, k);
    ReadLossExactly(r.inbox, k);
    var (y, o) := Read(r.inbox, k);
    assert |o.Taken()| + |y.Stream()| == |r.inbox.Stream()|;
    assert r.delivered + (o.Taken() + y.Stream()) == (r.delivered + o.Taken()) + y.Stream();
  }

  /** Every byte that arrived is delivered, lost or still in the inbox; none is lost exactly in
      the loss-free runs, and then the reader has seen a prefix of the arriving stream. */
  lemma {:induction false} ReaderAccounting(es: seq<ReaderEvent>)
    ensures Accounted(ReaderRun(es))
    ensures ReaderRun(es).lost == [] <==> LossFree(es)
    decreases |es|
  {
    if es != [] {
      var before, last := es[..|es| - 1], es[|es| - 1];
      ReaderAccounting(before);
      match last {
        case Arrive(m) => ArrivalAccounted(ReaderRun(before), m);
        case Poll(k) => PollAccounted(ReaderRun(before), k);
      }
    }
  }

  /** The buffer sizes a caller chooses do not change what it reads: two loss-free runs fed from
      one message sequence have comparable outputs, and equal ones once both are drained. */
  lemma ReadSizeIndependence(es: seq<ReaderEvent>, fs: seq<ReaderEvent>, messages: seq<Bytes>)
    requires LossFree(es) && LossFree(fs)
    requires ReaderRun(es).arrived <= messages && ReaderRun(fs).arrived <= messages
    ensures ReaderRun(es).delivered <= ReaderRun(fs).delivered || ReaderRun(fs).delivered <= ReaderRun(es).delivered
    ensures ReaderRun(es).arrived == ReaderRun(fs).arrived
            && ReaderRun(es).inbox.Stream() == [] && ReaderRun(fs).inbox.Stream() == []
            ==> ReaderRun(es).delivered == ReaderRun(fs).delivered
  {
    var a, b := ReaderRun(es), ReaderRun(fs);
    ReaderAccounting(es);
    ReaderAccounting(fs);
    FlattenPrefix(a.arrived, messages);
    FlattenPrefix(b.arrived, messages);
    assert a.delivered <= Flatten(a.arrived) && b.delivered <= Flatten(b.arrived);
    PrefixesComparable(a.delivered, b.delivered, Flatten(messages));
  }

  /** The same run with the repaired read in place of the real one. */
  function RepairedRun(es: seq<ReaderEvent>): Reader
    decreases |es|
  {
    if es == [] then FreshReader
    else
      var r := RepairedRun(es[..|es| - 1]);
      match es[|es| - 1]
      case Arrive(m) => ReaderStep(r, Arrive(m))
      case Poll(k) =>
        var (y, o) := RepairedRead(r.inbox, k);
        match o
        case NotReady(gone) => r.(inbox := y, lost := r.lost + gone)
        case Got(data) => r.(inbox := y, delivered := r.delivered + data)
  }

  /** The repaired read loses nothing in any run, and agrees with the real one in every run in
      which that loses nothing either. */
  lemma {:induction false} RepairLosesNothing(es: seq<ReaderEvent>)
    ensures var r := RepairedRun(es); r.lost == [] && Flatten(r.arrived) == r.delivered + r.inbox.Stream()
    ensures LossFree(es) ==> RepairedRun(es) == ReaderRun(es)
    decreases |es|
  {
    if es != [] {
      var before, last := es[..|es| - 1], es[|es| - 1];
      RepairLosesNothing(before);
      var r := RepairedRun(before);
      match last {
        case Arrive(m) => ArrivalAccounted(r, m);
        case Poll(k) =>
          hide Flatten, Read;
          ReadConservesStream(r.inbox, k);
          ReadLossExactly(r.inbox, k);
          var (y, o) := RepairedRead(r.inbox, k);
          assert r.delivered + (o.Taken() + y.Stream()) == (r.delivered + o.Taken()) + y.Stream();
      }
    }
  }

  // ---------------------------------------------------------------- the sending loop

  /** Where the sending loop stands: before its test of the closed flag, waiting for a message,
      waiting for the websocket to take one, or returned. */
  datatype SendPc = SendCheck | SendWait | SendHold(msg: Bytes) | SendDone {
    function Held(): seq<Bytes> { if SendHold? then [msg] else [] }
  }

  /** The websocket took the message, or failed; a failed send may or may not have reached it. */
  datatype SinkReply = Accepted | Failed(reached: bool)

  /** What a step of the loop leaves behind outside the pipe. */
  datatype Emission = Silent | OnWire(msg: Bytes) | Vanished(msg: Bytes)

  /** `orphan` once no handle of the pipe is left to write to the channel. */
  datatype Tx = Tx(queue: seq<Bytes>, pc: SendPc, closed: bool, orphan: bool) {
    function Backlog(): seq<Bytes> { pc.Held() + queue }
  }

  datatype TxEvent = TestSend | TakeSend | EndSend | FinishSend(reply: SinkReply)

  function TxStep(t: Tx, e: TxEvent): Option<(Tx, Emission)> {
    match e
    case TestSend =>
      if t.pc == SendCheck
      then Some((t.(pc := if t.closed then SendDone else SendWait), Silent))
      else None
    case TakeSend =>
      if t.pc == SendWait && t.queue != []
      then Some((t.(queue := t.queue[1..], pc := SendHold(t.queue[0])), Silent))
      else None
    case EndSend =>
      if t.pc == SendWait && t.queue == [] && t.orphan then Some((t.(pc := SendDone), Silent)) else None
    case FinishSend(reply) =>
      if !t.pc.SendHold? then None
      else match reply
        case Accepted => Some((t.(pc := SendCheck), OnWire(t.pc.msg)))
        case Failed(reached) =>
          Some((t.(pc := SendDone, closed := true),
                if reached then OnWire(t.pc.msg) else Vanished(t.pc.msg)))
  }

  function Emitted(e: Emission): seq<Bytes> {
    match e case Silent => [] case OnWire(m) => [m] case Vanished(m) => [m]
  }

  function Wired(e: Emission): seq<Bytes> {
    if e.OnWire? then [e.msg] else []
  }

  /** A run of the loop body: the state reached and what left the pipe on the way. */
  ghost function TxRun(t: Tx, es: seq<TxEvent>): Option<(Tx, seq<Bytes>, seq<Bytes>)>
    decreases |es|
  {
    if es == [] then Some((t, [], []))
    else match TxRun(t, es[..|es| - 1])
      case None => None
      case Some((u, handed, wired)) =>
        match TxStep(u, es[|es| - 1])
        case None => None
        case Some((v, e)) => Some((v, handed + Emitted(e), wired + Wired(e)))
  }

  lemma TxRunEmpty(t: Tx)
    ensures TxRun(t, []) == Some((t, [], []))
  {
  }

  lemma TxRunSnoc(t: Tx, es: seq<TxEvent>, e: TxEvent)
    requires TxRun(t, es).Some? && TxStep(TxRun(t, es).value.0, e).Some?
    ensures var (u, handed, wired) := TxRun(t, es).value;
            var (v, x) := TxStep(u, e).value;
            TxRun(t, es + [e]) == Some((v, handed + Emitted(x), wired + Wired(x)))
  {
    assert (es + [e])[..|es|] == es;
  }

  /** How many messages the loop can still hand over once the pipe is closed. */
  function Allowance(pc: SendPc): nat {
    if pc == SendWait || pc.SendHold? then 1 else 0
  }

  /** Whatever the loop does, the backlog leaves it from the front and in order; the wire gets all
      of it, except perhaps the last message, on whose failure the loop has returned.  The loop
      returns only once the pipe is closed, or when all handles are gone and the whole backlog is
      on the wire; and once the pipe is closed it stays closed and at most one more message is
      handed over. */
  lemma {:induction false} TxRunFacts(t: Tx, es: seq<TxEvent>)
    requires TxRun(t, es).Some?
    ensures var (u, handed, wired) := TxRun(t, es).value;
            && t.Backlog() == handed + u.Backlog()
            && (wired == handed || (u.pc == SendDone && handed != [] && wired == handed[..|handed| - 1]))
            && u.orphan == t.orphan
            && (u.pc == SendDone && t.pc != SendDone && !u.closed ==> t.orphan && wired == t.Backlog() && u.queue == [])
            && (t.closed ==> u.closed && |handed| + Allowance(u.pc) <= Allowance(t.pc))
    decreases |es|
  {
    if es != [] {
      var before, e := es[..|es| - 1], es[|es| - 1];
      TxRunFacts(t, before);
      var (u, handed, wired) := TxRun(t, before).value;
      TxStepFacts(u, e);
      var (v, x) := TxStep(u, e).value;
      assert handed + (Emitted(x) + v.Backlog()) == handed + Emitted(x) + v.Backlog();
    }
  }

  lemma TxStepFacts(u: Tx, e: TxEvent)
    requires TxStep(u, e).Some?
    ensures var (v, x) := TxStep(u, e).value;
            && u.pc != SendDone
            && u.Backlog() == Emitted(x) + v.Backlog()
            && (Wired(x) == Emitted(x) || (v.pc == SendDone && |Emitted(x)| == 1 && Wired(x) == []))
            && v.orphan == u.orphan
            && (v.pc == SendDone && !v.closed ==> u.orphan && v.queue == [] && x == Silent)
            && (u.closed ==> v.closed && |Emitted(x)| + Allowance(v.pc) <= Allowance(u.pc))
  {
  }

  predicate FailedSend(e: TxEvent) { e.FinishSend? && e.reply.Failed? }

  /** Only a failed send closes the pipe here, and a run of the loop returns because the pipe was
      closed before, because a send failed, or because no message will come any more. */
  lemma {:induction false} TxRunEnds(t: Tx, es: seq<TxEvent>)
    requires TxRun(t, es).Some?
    ensures var u := TxRun(t, es).value.0;
            && (u.closed <==> t.closed || exists i :: 0 <= i < |es| && FailedSend(es[i]))
            && (u.pc == SendDone <==>
                  t.pc == SendDone || EndSend in es || (exists i :: 0 <= i < |es| && FailedSend(es[i]))
                  || (t.closed && TestSend in es))
    decreases |es|
  {
    if es != [] {
      var before, e := es[..|es| - 1], es[|es| - 1];
      TxRunEnds(t, before);
      assert forall i :: 0 <= i < |before| ==> before[i] == es[i];
      assert es == before + [e];
    }
  }

  // ---------------------------------------------------------------- the receiving loop

  /** What the websocket stream yields: a binary message, any other message, or an error. */
  datatype Item = Binary(msg: Bytes) | Other | Error

  function Payload(i: Item): seq<Bytes> { if i.Binary? then [i.msg] else [] }

  function Payloads(items: seq<Item>): seq<Bytes> {
    if items == [] then [] else Payload(items[0]) + Payloads(items[1..])
  }

  lemma {:induction false} PayloadsConcat(a: seq<Item>, b: seq<Item>)
    ensures Payloads(a + b) == Payloads(a) + Payloads(b)
  {
    if a == [] {
      assert a + b == b;
    } else {
      assert (a + b)[0] == a[0] && (a + b)[1..] == a[1..] + b;
      PayloadsConcat(a[1..], b);
    }
  }

  lemma LonePayload(m: Bytes)
    ensures Payloads([Binary(m)]) == [m]
  {
    assert Payloads([Binary(m)]) == [m] + Payloads([]);
  }

  datatype RecvPc = RecvCheck | RecvWait | RecvHold(msg: Bytes) | RecvDone {
    function Held(): seq<Bytes> { if RecvHold? then [msg] else [] }
  }

  /** `orphan` once no handle of the pipe is left to read from the channel. */
  datatype Rx = Rx(queue: seq<Bytes>, pc: RecvPc, closed: bool, orphan: bool)

  datatype RxEvent = TestRecv | NextItem(item: Item) | NextEnd | PushRecv | FailPush

  function RxStep(r: Rx, e: RxEvent): Option<Rx> {
    match e
    case TestRecv =>
      if r.pc == RecvCheck then Some(r.(pc := if r.closed then RecvDone else RecvWait)) else None
    case NextItem(item) =>
      if r.pc != RecvWait then None
      else if item.Binary? then Some(r.(pc := RecvHold(item.msg)))
      else Some(r.(pc := RecvCheck))
    case NextEnd =>
      if r.pc == RecvWait then Some(r.(pc := RecvDone, closed := true)) else None
    case PushRecv =>
      if r.pc.RecvHold? && |r.queue| < QUEUE_CAP && !r.orphan
      then Some(r.(queue := r.queue + [r.pc.msg], pc := RecvCheck))
      else None
    case FailPush =>
      if r.pc.RecvHold? && r.orphan then Some(r.(pc := RecvDone)) else None
  }

  /** What a receiving step pushes into the channel, and what it reads from the network. */
  function Pushed(r: Rx, e: RxEvent): seq<Bytes> {
    if e == PushRecv then r.pc.Held() else []
  }

  /** What a receiving step throws away because nobody can read it. */
  function Discarded(r: Rx, e: RxEvent): seq<Bytes> {
    if e == FailPush then r.pc.Held() else []
  }

  function Arrived(e: RxEvent): seq<Item> {
    if e.NextItem? then [e.item] else []
  }

  /** A run of the loop body: the state reached, what was pushed, and what was read. */
  ghost function RxRun(r: Rx, es: seq<RxEvent>): Option<(Rx, seq<Bytes>, seq<Item>)>
    decreases |es|
  {
    if es == [] then Some((r, [], []))
    else match RxRun(r, es[..|es| - 1])
      case None => None
      case Some((u, pushed, items)) =>
        match RxStep(u, es[|es| - 1])
        case None => None
        case Some(v) => Some((v, pushed + Pushed(u, es[|es| - 1]), items + Arrived(es[|es| - 1])))
  }

  lemma RxRunEmpty(r: Rx)
    ensures RxRun(r, []) == Some((r, [], []))
  {
  }

  lemma RxRunSnoc(r: Rx, es: seq<RxEvent>, e: RxEvent)
    requires RxRun(r, es).Some? && RxStep(RxRun(r, es).value.0, e).Some?
    ensures var (u, pushed, items) := RxRun(r, es).value;
            RxRun(r, es + [e]) == Some((RxStep(u, e).value, pushed + Pushed(u, e), items + Arrived(e)))
  {
    assert (es + [e])[..|es|] == es;
  }

  function RecvAllowance(pc: RecvPc): nat {
    if pc == RecvWait || pc.RecvHold? then 1 else 0
  }

  /** Whatever the loop does, the binary payloads it reads reach the channel or its hand in order,
      nothing else does, the channel stays within its capacity; only when all handles are gone is
      one more payload read and thrown away, and then the loop has returned.  Once the pipe is
      closed it stays closed and at most one more message is queued. */
  lemma {:induction false} RxRunFacts(r: Rx, es: seq<RxEvent>)
    requires RxRun(r, es).Some? && |r.queue| <= QUEUE_CAP
    ensures var (u, pushed, items) := RxRun(r, es).value;
            && u.queue == r.queue + pushed && |u.queue| <= QUEUE_CAP
            && u.orphan == r.orphan
            && (var read := r.pc.Held() + Payloads(items);
                read == pushed + u.pc.Held()
                || (u.pc == RecvDone && r.orphan && read != [] && pushed == read[..|read| - 1]))
            && (u.pc == RecvDone && r.pc != RecvDone ==> u.closed || r.orphan)
            && (r.orphan ==> pushed == [])
            && (r.closed ==> u.closed && |pushed| + RecvAllowance(u.pc) <= RecvAllowance(r.pc))
    decreases |es|
  {
    if es != [] {
      var before, e := es[..|es| - 1], es[|es| - 1];
      RxRunFacts(r, before);
      var (u, pushed, items) := RxRun(r, before).value;
      var v := RxStep(u, e).value;
      PayloadsConcat(items, Arrived(e));
      RxStepFacts(u, e);
      Regroup(r.pc.Held(), Payloads(items), Payloads(Arrived(e)), pushed, u.pc.Held(),
              Pushed(u, e) + Discarded(u, e), v.pc.Held());
      assert r.queue + (pushed + Pushed(u, e)) == r.queue + pushed + Pushed(u, e);
    }
  }

  /** Messages of other kinds and errors are skipped: only the end of the stream closes the pipe,
      and a run of the loop returns because the pipe was closed before, because the stream has
      ended, or because nobody can read any more.  Once the pipe is closed at most one more item is
      read, and none if the loop was not past its test. */
  lemma {:induction false} RxRunEnds(r: Rx, es: seq<RxEvent>)
    requires RxRun(r, es).Some?
    ensures var (u, pushed, items) := RxRun(r, es).value;
            && (u.closed <==> r.closed || NextEnd in es)
            && (u.pc == RecvDone <==>
                  r.pc == RecvDone || NextEnd in es || FailPush in es || (r.closed && TestRecv in es))
            && (r.closed ==>
                  |items| + (if u.pc == RecvWait then 1 else 0) <= if r.pc == RecvWait then 1 else 0)
    decreases |es|
  {
    if es != [] {
      var before, e := es[..|es| - 1], es[|es| - 1];
      RxRunEnds(r, before);
      assert es == before + [e];
    }
  }

  lemma Regroup(held: seq<Bytes>, read: seq<Bytes>, more: seq<Bytes>,
                pushed: seq<Bytes>, mid: seq<Bytes>, push: seq<Bytes>, rest: seq<Bytes>)
    requires held + read == pushed + mid && mid + more == push + rest
    ensures held + (read + more) == pushed + push + rest
  {
    assert held + (read + more) == (pushed + mid) + more == pushed + (push + rest);
  }

  lemma RxStepFacts(u: Rx, e: RxEvent)
    requires RxStep(u, e).Some?
    ensures var v := RxStep(u, e).value;
            && u.pc != RecvDone
            && v.queue == u.queue + Pushed(u, e)
            && u.pc.Held() + Payloads(Arrived(e)) == Pushed(u, e) + Discarded(u, e) + v.pc.Held()
            && v.orphan == u.orphan
            && (v.pc == RecvDone && u.pc != RecvDone ==> v.closed || u.orphan)
            && (e == FailPush ==> u.orphan && v.pc == RecvDone && |Discarded(u, e)| == 1)
            && (u.orphan ==> Pushed(u, e) == [])
            && (u.closed ==> v.closed && |Pushed(u, e)| + RecvAllowance(v.pc) <= RecvAllowance(u.pc))
  {
    if e.NextItem? {
      assert Payloads([e.item]) == Payload(e.item) + Payloads([]);
    }
  }
}
