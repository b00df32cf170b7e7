/** What holds of every run of two connected pipes. */
module PipeTheorems {
  import opened ByteStreams
  import opened PipeSpec
  import opened PipeSystem

  /** End-to-end conservation.  In every reachable state the messages the writer's channel took
      are, in order: read, queued at the reader, in the receiving loop's hand, on the wire,
      stranded, in the sending loop's hand, and queued at the writer.  The bytes of the read ones
      are those reported or lost, followed by the residual, which is the tail of the last one. */
  lemma Conservation(es: seq<Event>, p: Side)
    requires Exec(Start, es).Some?
    ensures var d := Exec(Start, es).value.From(p);
            && Queued(d.offers) == d.dequeued + d.recvQ + d.recvPc.Held() + Payloads(d.wire)
                                   + d.strand + d.sendPc.Held() + d.sendQ
            && Flatten(d.dequeued) == TakenBytes(d.chunks) + d.recvBuf
            && ResidualIsSuffix(d)
            && |d.sendQ| <= QUEUE_CAP && |d.recvQ| <= QUEUE_CAP
  {
    RunKeepsInv(Start, es);
    var d := Exec(Start, es).value.From(p);
    hide Flatten, Payloads, Queued, TakenBytes, Exec;
    ConcatAssociates(d.dequeued + d.recvQ, d.recvPc.Held(), Payloads(d.wire));
    var down := d.dequeued + d.recvQ + d.recvPc.Held() + Payloads(d.wire);
    ConcatAssociates(down, d.strand, d.sendPc.Held() + d.sendQ);
    ConcatAssociates(down + d.strand, d.sendPc.Held(), d.sendQ);
  }

  // ---------------------------------------------------------------- what the reader sees

  lemma {:induction false} ChunkBytes(chunks: seq<Chunk>)
    ensures |TakenBytes(chunks)| == |DeliveredBytes(chunks)| + |LostBytes(chunks)|
    ensures LostBytes(chunks) == [] ==> DeliveredBytes(chunks) == TakenBytes(chunks)
  {
    if chunks != [] {
      ChunkBytes(chunks[..|chunks| - 1]);
    }
  }

  lemma {:induction false} RefusalsOnly(offers: seq<Offer>)
    ensures |Queued(offers)| <= |Answered(offers)| == |offers|
    ensures Queued(offers) == Answered(offers) <==> forall i :: 0 <= i < |offers| ==> offers[i].queued
  {
    if offers != [] {
      var before, o := offers[..|offers| - 1], offers[|offers| - 1];
      RefusalsOnly(before);
      assert forall i :: 0 <= i < |before| ==> before[i] == offers[i];
      if o.queued && Queued(offers) == Answered(offers) {
        assert Queued(before) == Queued(offers)[..|before|] == Answered(before);
      }
    }
  }

  /** Nothing is under way in this direction. */
  predicate Settled(d: Direction) {
    && d.recvBuf == [] && d.recvQ == [] && d.recvPc.Held() == [] && Payloads(d.wire) == []
    && d.strand == [] && d.sendPc.Held() == [] && d.sendQ == []
  }

  /** In every reachable state the bytes taken by the reader, reported or lost, are a prefix of
      the bytes the writer's channel took; without a loss the reported bytes are that prefix, and
      all of it once nothing is under way.  Every byte accepted is accounted for. */
  lemma PrefixDelivery(es: seq<Event>, p: Side)
    requires Exec(Start, es).Some?
    ensures var d := Exec(Start, es).value.From(p);
            && TakenBytes(d.chunks) <= Flatten(Queued(d.offers))
            && |TakenBytes(d.chunks)| == |DeliveredBytes(d.chunks)| + |LostBytes(d.chunks)|
            && (LostBytes(d.chunks) == [] ==> DeliveredBytes(d.chunks) <= Flatten(Queued(d.offers)))
            && (Settled(d) ==> TakenBytes(d.chunks) == Flatten(Queued(d.offers)))
  {
    Conservation(es, p);
    var d := Exec(Start, es).value.From(p);
    hide Exec;
    ChunkBytes(d.chunks);
    DequeuedPrefix(d);
  }

  lemma DequeuedPrefix(d: Direction)
    requires Queued(d.offers) == d.dequeued + d.recvQ + d.recvPc.Held() + Payloads(d.wire)
                                 + d.strand + d.sendPc.Held() + d.sendQ
    requires Flatten(d.dequeued) == TakenBytes(d.chunks) + d.recvBuf
    ensures TakenBytes(d.chunks) <= Flatten(Queued(d.offers))
    ensures Settled(d) ==> TakenBytes(d.chunks) == Flatten(Queued(d.offers))
  {
    hide Payloads, Queued, TakenBytes;
    FlattenPrefix(d.dequeued, Queued(d.offers));
    if Settled(d) {
      assert Queued(d.offers) == d.dequeued;
    }
  }

  /** Endpoints that accepted prefixes of one byte stream deliver comparable streams, whatever
      happened on the way and whatever buffers their readers used, as long as neither lost a byte;
      and equal streams when they accepted the same bytes and nothing is under way. */
  lemma RunsAgree(es: seq<Event>, fs: seq<Event>, p: Side, q: Side, whole: Bytes)
    requires Exec(Start, es).Some? && Exec(Start, fs).Some?
    requires Flatten(Queued(Exec(Start, es).value.From(p).offers)) <= whole
    requires Flatten(Queued(Exec(Start, fs).value.From(q).offers)) <= whole
    requires LostBytes(Exec(Start, es).value.From(p).chunks) == [] == LostBytes(Exec(Start, fs).value.From(q).chunks)
    ensures var d, e := Exec(Start, es).value.From(p), Exec(Start, fs).value.From(q);
            var a, b := DeliveredBytes(d.chunks), DeliveredBytes(e.chunks);
            && (a <= b || b <= a)
            && (Settled(d) && Settled(e) && Flatten(Queued(d.offers)) == Flatten(Queued(e.offers)) ==> a == b)
  {
    PrefixDelivery(es, p);
    PrefixDelivery(fs, q);
    var a, b := Exec(Start, es).value.From(p), Exec(Start, fs).value.From(q);
    ChunkBytes(a.chunks);
    ChunkBytes(b.chunks);
    hide Flatten, Exec, DeliveredBytes, LostBytes, Queued, TakenBytes, Settled;
    PrefixesComparable(DeliveredBytes(a.chunks), DeliveredBytes(b.chunks), whole);
  }

  // ---------------------------------------------------------------- exactly what is lost

  /** The residuals met by lossy reads of side `q`, in the order of the run. */
  function LossLedger(es: seq<Event>, q: Side): Bytes
    requires Exec(Start, es).Some?
    decreases |es|
  {
    if es == [] then []
    else
      var before, e := es[..|es| - 1], es[|es| - 1];
      var inbox := Exec(Start, before).value.To(q).GetInbox();
      LossLedger(before, q) + if e.ReadInto? && e.p == q && Lossy(inbox, e.k) then inbox.residual else []
  }

  /** No read of side `q` found a residual that fits its buffer and an empty queue. */
  predicate NoLossyRead(es: seq<Event>, q: Side)
    requires Exec(Start, es).Some?
    decreases |es|
  {
    es != [] ==>
      var before, e := es[..|es| - 1], es[|es| - 1];
      && NoLossyRead(before, q)
      && !(e.ReadInto? && e.p == q && Lossy(Exec(Start, before).value.To(q).GetInbox(), e.k))
  }

  /** Only a read changes what its reader took, and it takes what `Read` says. */
  lemma ChunksChange(s: System, e: Event, q: Side)
    requires Step(s, e).Some?
    ensures var d, after := s.To(q), Step(s, e).value.To(q);
            after.chunks == d.chunks + if e.ReadInto? && e.p == q then Recorded(Read(d.GetInbox(), e.k).1) else []
  {
    hide Read, Payloads, TxStep, RxStep, NetworkAllows;
    assert s.To(q).chunks + [] == s.To(q).chunks;
  }

  /** Over every run, the bytes lost are exactly the residuals met by lossy reads; so a run loses
      nothing if and only if it has no such read. */
  lemma {:induction false} LossExactly(es: seq<Event>, q: Side)
    requires Exec(Start, es).Some?
    ensures LostBytes(Exec(Start, es).value.To(q).chunks) == LossLedger(es, q)
    ensures LossLedger(es, q) == [] <==> NoLossyRead(es, q)
    decreases |es|
  {
    if es != [] {
      hide Read, Step, LostBytes, Flatten;
      var before, e := es[..|es| - 1], es[|es| - 1];
      LossExactly(before, q);
      var s := Exec(Start, before).value;
      var d, after := s.To(q), Step(s, e).value.To(q);
      ChunksChange(s, e, q);
      var lossy := e.ReadInto? && e.p == q && Lossy(d.GetInbox(), e.k);
      LostByStep(d.chunks, after.chunks, d.GetInbox(), if e.ReadInto? then e.k else 0, e.ReadInto? && e.p == q);
      assert LostBytes(after.chunks) == LostBytes(d.chunks) + if lossy then d.recvBuf else [];
      assert LossLedger(es, q) == LossLedger(before, q) + if lossy then d.recvBuf else [];
      assert NoLossyRead(es, q) == (NoLossyRead(before, q) && !lossy);
    }
  }

  lemma LostByStep(before: seq<Chunk>, after: seq<Chunk>, x: Inbox, k: nat, reading: bool)
    requires after == before + if reading then Recorded(Read(x, k).1) else []
    ensures LostBytes(after) == LostBytes(before) + if reading && Lossy(x, k) then x.residual else []
  {
    ReadLossExactly(x, k);
    RecordedBytes(before, Read(x, k).1);
    hide Recorded, LostBytes;
    assert before + [] == before && LostBytes(before) + [] == LostBytes(before);
  }

  // ---------------------------------------------------------------- when nothing can be lost

  lemma OffersGrow(s: System, e: Event, p: Side)
    requires Step(s, e).Some?
    ensures s.From(p).offers <= Step(s, e).value.From(p).offers
    ensures !e.Write? || e.p != p || s.Flag(p).closed ==> s.From(p).offers == Step(s, e).value.From(p).offers
  {
    hide Read, Payloads, TxStep, RxStep, NetworkAllows;
  }

  lemma {:induction false} QueuedGrows(a: seq<Offer>, b: seq<Offer>)
    requires a <= b
    ensures Queued(a) <= Queued(b)
    decreases |b|
  {
    if |a| < |b| {
      QueuedGrows(a, b[..|b| - 1]);
    } else {
      assert a == b;
    }
  }

  /** A caller that always brings a buffer as long as the longest message never loses a byte and
      never leaves a residual behind. */
  lemma {:induction false} LongBuffersLoseNothing(es: seq<Event>, q: Side, longest: nat)
    requires Exec(Start, es).Some?
    requires forall e :: e in es && e.ReadInto? && e.p == q ==> longest <= e.k
    requires forall m :: m in Queued(Exec(Start, es).value.To(q).offers) ==> |m| <= longest
    ensures Exec(Start, es).value.To(q).recvBuf == []
    ensures LostBytes(Exec(Start, es).value.To(q).chunks) == []
    decreases |es|
  {
    if es != [] {
      var before, e := es[..|es| - 1], es[|es| - 1];
      var s := Exec(Start, before).value;
      var d, after := s.To(q), Step(s, e).value.To(q);
      OffersGrow(s, e, q.Peer());
      QueuedGrows(d.offers, after.offers);
      LongBuffersLoseNothing(before, q, longest);
      ChunksChange(s, e, q);
      ResidualChange(s, e, q);
      if e.ReadInto? && e.p == q && d.recvQ != [] {
        FirstQueuedWasOffered(before, q);
        WholeMessageRead(d.GetInbox(), e.k);
      }
      hide Step, Queued;
      if after.chunks != d.chunks {
        assert after.chunks[..|after.chunks| - 1] == d.chunks;
      }
    }
  }

  lemma FirstQueuedWasOffered(es: seq<Event>, q: Side)
    requires Exec(Start, es).Some? && Exec(Start, es).value.To(q).recvQ != []
    ensures var d := Exec(Start, es).value.To(q); d.recvQ[0] in Queued(d.offers)
  {
    Conservation(es, q.Peer());
    hide Exec, Queued, Payloads, Flatten;
  }

  lemma WholeMessageRead(x: Inbox, k: nat)
    requires x.residual == [] && x.queue != [] && |x.queue[0]| <= k
    ensures Read(x, k) == (Inbox([], x.queue[1..]), Got(x.queue[0]))
  {
    var m := x.queue[0];
    assert [] + m == m && m[..|m|] == m && m[|m|..] == [];
  }

  lemma ResidualChange(s: System, e: Event, q: Side)
    requires Step(s, e).Some?
    ensures Step(s, e).value.To(q).recvBuf
            == if e.ReadInto? && e.p == q then Read(s.To(q).GetInbox(), e.k).0.residual else s.To(q).recvBuf
  {
    hide Read, Payloads, TxStep, RxStep, NetworkAllows;
  }

  // ---------------------------------------------------------------- reading what is queued

  function Reads(q: Side, k: nat, n: nat): seq<Event> { seq(n, _ => ReadInto(q, k)) }

  lemma ReadsSnoc(q: Side, k: nat, n: nat)
    ensures Reads(q, k, n + 1) == Reads(q, k, n) + [ReadInto(q, k)]
  {
  }

  /** `t` is `s` after reads of side `q`: its inbox, and what they reported and lost. */
  predicate HasRead(s: System, t: System, q: Side, x: Inbox, reported: Bytes, lost: Bytes) {
    && t.To(q).GetInbox() == x
    && DeliveredBytes(t.To(q).chunks) == DeliveredBytes(s.To(q).chunks) + reported
    && LostBytes(t.To(q).chunks) == LostBytes(s.To(q).chunks) + lost
    && t.From(q) == s.From(q) && t.Flag(Left) == s.Flag(Left) && t.Flag(Right) == s.Flag(Right)
  }

  lemma OneRead(s: System, q: Side, k: nat)
    requires !s.Flag(q).dropped
    ensures Step(s, ReadInto(q, k)).Some?
    ensures var (x, o) := Read(s.To(q).GetInbox(), k);
            HasRead(s, Step(s, ReadInto(q, k)).value, q, x, if o.Got? then o.data else [],
                    if o.Got? then [] else o.lost)
  {
    hide Read, Recorded, TakenBytes, DeliveredBytes, LostBytes;
    RecordedBytes(s.To(q).chunks, Read(s.To(q).GetInbox(), k).1);
  }

  lemma MoreRead(s: System, t: System, q: Side, x: Inbox, reported: Bytes, lost: Bytes, k: nat)
    requires HasRead(s, t, q, x, reported, lost) && !s.Flag(q).dropped
    ensures Step(t, ReadInto(q, k)).Some?
    ensures var (y, o) := Read(x, k);
            HasRead(s, Step(t, ReadInto(q, k)).value, q, y, reported + (if o.Got? then o.data else []),
                    lost + if o.Got? then [] else o.lost)
  {
    hide Step, Read, DeliveredBytes, LostBytes;
    OneRead(t, q, k);
    var o := Read(x, k).1;
    ConcatAssociates(DeliveredBytes(s.To(q).chunks), reported, if o.Got? then o.data else []);
    ConcatAssociates(LostBytes(s.To(q).chunks), lost, if o.Got? then [] else o.lost);
  }

  predicate AllAnswered(x: Inbox, k: nat, n: nat) {
    forall i :: 0 <= i < n ==> Read(ReadMany(x, k, i).0, k).1.Got?
  }

  /** Reads in a row are `ReadMany`; they touch nothing but their inbox and its history. */
  lemma {:induction false} ReadsAreReadMany(s: System, q: Side, k: nat, n: nat)
    requires !s.Flag(q).dropped && AllAnswered(s.To(q).GetInbox(), k, n)
    ensures Exec(s, Reads(q, k, n)).Some?
    ensures var (y, out) := ReadMany(s.To(q).GetInbox(), k, n);
            HasRead(s, Exec(s, Reads(q, k, n)).value, q, y, out, [])
    decreases n
  {
    hide Exec, Step, Read, ReadMany, HasRead, Reads, AllAnswered;
    if n == 0 {
      NothingRead(s, q, k);
    } else {
      var x := s.To(q).GetInbox();
      AnsweredBefore(x, k, n);
      ReadsAreReadMany(s, q, k, n - 1);
      ReadsSnoc(q, k, n - 1);
      ExecSnoc(s, Reads(q, k, n - 1), ReadInto(q, k));
      ReadManySnoc(x, k, n - 1);
      var (y, out) := ReadMany(x, k, n - 1);
      MoreRead(s, Exec(s, Reads(q, k, n - 1)).value, q, y, out, [], k);
      var nothing: Bytes := [];
      assert nothing + [] == nothing;
    }
  }

  lemma NothingRead(s: System, q: Side, k: nat)
    ensures Exec(s, Reads(q, k, 0)) == Some(s)
    ensures ReadMany(s.To(q).GetInbox(), k, 0) == (s.To(q).GetInbox(), [])
    ensures HasRead(s, s, q, s.To(q).GetInbox(), [], [])
  {
    hide Step, DeliveredBytes, LostBytes;
    assert DeliveredBytes(s.To(q).chunks) + [] == DeliveredBytes(s.To(q).chunks);
    assert LostBytes(s.To(q).chunks) + [] == LostBytes(s.To(q).chunks);
  }

  lemma AnsweredBefore(x: Inbox, k: nat, n: nat)
    requires 0 < n && AllAnswered(x, k, n)
    ensures AllAnswered(x, k, n - 1) && Read(ReadMany(x, k, n - 1).0, k).1.Got?
  {
  }

  /** Closed or not, whatever is queued at a reader can still be read, with a buffer of any size
      but zero: reads are answered, and nothing is lost, until all that is left is a residual of
      `Leftover` bytes that fits the buffer; one more read loses exactly that. */
  lemma QueuedIsReadable(s: System, q: Side, k: nat) returns (t: System, u: System, out: Bytes, rest: Bytes)
    requires !s.Flag(q).dropped && 0 < k
    ensures var x := s.To(q).GetInbox();
            var n := AnsweredReads(x, k);
            && out + rest == x.Stream() && |rest| == Leftover(|x.residual|, x.queue, k) <= k
            && Exec(s, Reads(q, k, n)) == Some(t) && HasRead(s, t, q, Inbox(rest, []), out, [])
            && Exec(s, Reads(q, k, n + 1)) == Some(u) && HasRead(s, u, q, Inbox([], []), out, rest)
  {
    hide Exec, Step, Read, ReadMany, HasRead, Reads, AllAnswered, AnsweredReads, Leftover, Flatten;
    var x := s.To(q).GetInbox();
    var n := AnsweredReads(x, k);
    QueueDrains(x, k);
    var y := ReadMany(x, k, n).0;
    out, rest := ReadMany(x, k, n).1, y.residual;
    AnsweredAll(x, k, n);
    ReadsAreReadMany(s, q, k, n);
    t := Exec(s, Reads(q, k, n)).value;
    ReadsSnoc(q, k, n);
    ExecSnoc(s, Reads(q, k, n), ReadInto(q, k));
    MoreRead(s, t, q, y, out, [], k);
    u := Step(t, ReadInto(q, k)).value;
    assert out + [] == out && [] + rest == rest;
  }

  lemma AnsweredAll(x: Inbox, k: nat, n: nat)
    requires forall i :: 0 <= i < n ==> Read(ReadMany(x, k, i).0, k).1.Got?
    ensures AllAnswered(x, k, n)
  {
  }

  // ---------------------------------------------------------------- reads that report nothing

  /** An empty message is next, and there is no residual for it to hide behind. */
  predicate EmptyNext(x: Inbox) {
    x.residual == [] && x.queue != [] && x.queue[0] == []
  }

  /** A read of side `q` found an empty message next. */
  predicate MetEmptyNext(es: seq<Event>, q: Side)
    requires Exec(Start, es).Some?
    decreases |es|
  {
    es != [] &&
      var before, e := es[..|es| - 1], es[|es| - 1];
      || MetEmptyNext(before, q)
      || (e.ReadInto? && e.p == q && EmptyNext(Exec(Start, before).value.To(q).GetInbox()))
  }

  lemma ReportsNothing(x: Inbox, k: nat)
    requires 0 < k
    ensures Delivered([]) in Recorded(Read(x, k).1) <==> EmptyNext(x)
  {
    hide Flatten;
    if Read(x, k).1.Got? {
      ReadCount(x, k);
    }
  }

  /** A read into a buffer that is not empty reports zero bytes, which its caller takes for the end
      of the stream, exactly if it finds an empty message next.  An empty message behind a
      residual is swallowed by the read that takes the last of the residual. */
  lemma {:induction false} FalseEndExactly(es: seq<Event>, q: Side)
    requires Exec(Start, es).Some?
    requires forall e :: e in es && e.ReadInto? && e.p == q ==> 0 < e.k
    ensures Delivered([]) in Exec(Start, es).value.To(q).chunks <==> MetEmptyNext(es, q)
    decreases |es|
  {
    if es != [] {
      hide Read, Step, Flatten, Recorded, EmptyNext;
      var before, e := es[..|es| - 1], es[|es| - 1];
      FalseEndExactly(before, q);
      var s := Exec(Start, before).value;
      ChunksChange(s, e, q);
      if e.ReadInto? && e.p == q {
        ReportsNothing(s.To(q).GetInbox(), e.k);
      }
    }
  }

  /** A peer that never writes an empty message never causes such a report. */
  lemma {:induction false} NonEmptyWritesNoFalseEnd(es: seq<Event>, q: Side)
    requires Exec(Start, es).Some?
    requires forall e :: e in es && e.ReadInto? && e.p == q ==> 0 < e.k
    requires [] !in Queued(Exec(Start, es).value.To(q).offers)
    ensures !MetEmptyNext(es, q)
    ensures Delivered([]) !in Exec(Start, es).value.To(q).chunks
    decreases |es|
  {
    FalseEndExactly(es, q);
    if es != [] {
      hide Read, Step, Flatten, Queued;
      var before, e := es[..|es| - 1], es[|es| - 1];
      var s := Exec(Start, before).value;
      OffersGrow(s, e, q.Peer());
      QueuedGrows(s.To(q).offers, Step(s, e).value.To(q).offers);
      NonEmptyWritesNoFalseEnd(before, q);
      if s.To(q).recvQ != [] {
        FirstQueuedWasOffered(before, q);
      }
    }
  }

  // ---------------------------------------------------------------- writes

  /** A write on an open pipe is answered with success; the message is dropped all the same
      exactly when the channel is full.  The other reason the code allows for a refusal, a
      dropped receiver, cannot arise before the pipe is closed or its last handle is gone. */
  lemma WriteRefusedExactly(es: seq<Event>, p: Side, msg: Bytes)
    requires Exec(Start, es).Some?
    ensures var d, f := Exec(Start, es).value.From(p), Exec(Start, es).value.Flag(p);
            var next := Step(Exec(Start, es).value, Write(p, msg));
            && (next.None? <==> f.dropped)
            && (next.Some? ==>
                  next.value.From(p) ==
                    if f.closed then d
                    else if |d.sendQ| < QUEUE_CAP
                      then d.(offers := d.offers + [Offer(msg, true)], sendQ := d.sendQ + [msg])
                      else d.(offers := d.offers + [Offer(msg, false)]))
  {
    RunKeepsInv(Start, es);
    var s := Exec(Start, es).value;
    hide Flatten, Payloads, Exec, DirectionInv;
    assert s.From(p).sendQ + [] == s.From(p).sendQ;
  }

  // ---------------------------------------------------------------- closing

  /** The event hands a message of side `p` to the websocket: its send is answered, or is cut short
      when it has already had its effect. */
  predicate Hands(s: System, e: Event, p: Side) {
    || (e.SendStep? && e.p == p && e.tx.FinishSend?)
    || (e.Cancel? && e.p == p && e.reached && s.From(p).sendPc.SendHold?)
  }

  /** Messages side `p` hands to the websocket during a run. */
  function CountHanded(s: System, es: seq<Event>, p: Side): nat
    requires Exec(s, es).Some?
    decreases |es|
  {
    if es == [] then 0
    else
      var before := es[..|es| - 1];
      CountHanded(s, before, p) + if Hands(Exec(s, before).value, es[|es| - 1], p) then 1 else 0
  }

  /** Messages the receiving loop of side `p` queues during a run. */
  function CountPushed(es: seq<Event>, p: Side): nat {
    if es == [] then 0
    else CountPushed(es[..|es| - 1], p)
         + if es[|es| - 1].RecvStep? && es[|es| - 1].p == p && es[|es| - 1].rx == PushRecv then 1 else 0
  }

  lemma SendPcChange(s: System, e: Event, p: Side)
    requires Step(s, e).Some? && s.Flag(p).closed
    ensures var t := Step(s, e).value;
            (if Hands(s, e, p) then 1 else 0) + Allowance(t.From(p).sendPc) <= Allowance(s.From(p).sendPc)
  {
    hide Read, Payloads, NetworkAllows, RxStep;
    if e.SendStep? && e.p == p {
      var u := Tx(s.From(p).sendQ, s.From(p).sendPc, s.Flag(p).closed, s.Flag(p).dropped);
      TxStepFacts(u, e.tx);
      var (t, out) := TxStep(u, e.tx).value;
      EmitSpares(s.From(p).(sendQ := t.queue, sendPc := t.pc), out);
      hide Emit;
    } else {
      hide TxStep;
    }
  }

  lemma RecvPcChange(s: System, e: Event, p: Side)
    requires Step(s, e).Some? && s.Flag(p).closed
    ensures var t := Step(s, e).value;
            CountPushed([e], p) + RecvAllowance(t.To(p).recvPc) <= RecvAllowance(s.To(p).recvPc)
  {
    hide Read, Payloads, NetworkAllows, TxStep;
    assert [e][..0] == [];
    if e.RecvStep? && e.p == p {
      RxStepFacts(Rx(s.To(p).recvQ, s.To(p).recvPc, s.Flag(p).closed, s.Flag(p).dropped), e.rx);
    } else {
      hide RxStep;
    }
  }

  lemma StaysClosed(s: System, e: Event, p: Side)
    requires Step(s, e).Some? && s.Flag(p).closed
    ensures Step(s, e).value.Flag(p).closed
  {
    hide Read, Payloads, NetworkAllows;
  }

  lemma ClosedStep(s: System, e: Event, p: Side)
    requires Step(s, e).Some?
    requires s.Flag(p).closed
    ensures var t := Step(s, e).value;
            && t.Flag(p).closed
            && t.From(p).offers == s.From(p).offers
            && (if Hands(s, e, p) then 1 else 0) + Allowance(t.From(p).sendPc) <= Allowance(s.From(p).sendPc)
            && CountPushed([e], p) + RecvAllowance(t.To(p).recvPc) <= RecvAllowance(s.To(p).recvPc)
  {
    OffersGrow(s, e, p);
    SendPcChange(s, e, p);
    RecvPcChange(s, e, p);
    StaysClosed(s, e, p);
    hide Step, Hands;
  }

  /** Once a pipe is closed it stays closed, every later write fails and nothing more is accepted;
      at most one more message reaches the websocket and at most one more is queued for
      reading, and none if the loop in question was not past its test at the time. */
  lemma {:induction false} AfterClose(s: System, es: seq<Event>, p: Side)
    requires Exec(s, es).Some?
    requires s.Flag(p).closed
    ensures var t := Exec(s, es).value;
            && t.Flag(p).closed
            && t.From(p).offers == s.From(p).offers
            && CountHanded(s, es, p) + Allowance(t.From(p).sendPc) <= Allowance(s.From(p).sendPc) <= 1
            && CountPushed(es, p) + RecvAllowance(t.To(p).recvPc) <= RecvAllowance(s.To(p).recvPc) <= 1
    decreases |es|
  {
    if es != [] {
      var before, e := es[..|es| - 1], es[|es| - 1];
      AfterClose(s, before, p);
      ClosedStep(Exec(s, before).value, e, p);
      assert [e][..0] == [];
    }
  }

  /** What closes side `p`: its caller, the end of the stream from its peer, or a failed send. */
  predicate Closes(e: Event, p: Side) {
    && e.p == p
    && (e.Close? || (e.RecvStep? && e.rx == NextEnd) || (e.SendStep? && FailedSend(e.tx)))
  }

  lemma ClosedChange(s: System, e: Event, p: Side)
    requires Step(s, e).Some?
    ensures Step(s, e).value.Flag(p).closed <==> s.Flag(p).closed || Closes(e, p)
  {
    hide Read, Payloads, NetworkAllows;
  }

  /** In every run a pipe is closed exactly if something has closed it; neither messages of other
      kinds nor errors on the wire, a cut wire not yet noticed, or a cancelled race do. */
  lemma {:induction false} ClosedExactly(es: seq<Event>, p: Side)
    requires Exec(Start, es).Some?
    ensures Exec(Start, es).value.Flag(p).closed <==> exists i :: 0 <= i < |es| && Closes(es[i], p)
    decreases |es|
  {
    if es != [] {
      hide Step, Closes;
      var before, e := es[..|es| - 1], es[|es| - 1];
      ClosedExactly(before, p);
      ClosedChange(Exec(Start, before).value, e, p);
      assert forall i :: 0 <= i < |before| ==> before[i] == es[i];
    }
  }

  // ---------------------------------------------------------------- what is cut off stays cut off

  lemma StrandLoopStep(s: System, e: Event, p: Side)
    requires Inv(s) && Step(s, e).Some? && s.From(p).strand != [] && (e.SendStep? || e.RecvStep?)
    ensures var d, after := s.From(p), Step(s, e).value.From(p);
            after.strand != [] && after.Downstream() <= d.Downstream()
  {
    hide Flatten, Payloads, Queued, TakenBytes, TxStep, RxStep, Read, NetworkAllows,
         Direction.Downstream, Direction.Upstream;
    var d := s.From(p);
    if e.SendStep? && e.p == p {
      var (t, out) := TxStep(Tx(d.sendQ, d.sendPc, s.Flag(p).closed, s.Flag(p).dropped), e.tx).value;
      DownstreamReads(d, AfterSend(d, t, out));
    }
    if e.RecvStep? && e.p == p.Peer() {
      if e.rx == FailPush {
        DroppedShrinks(d);
      } else {
        ReceiveFlow(d, Rx(d.recvQ, d.recvPc, s.Flag(e.p).closed, s.Flag(e.p).dropped), e.rx);
      }
    }
  }

  lemma StrandCallerStep(s: System, e: Event, p: Side)
    requires Step(s, e).Some? && s.From(p).strand != []
             && (e.Write? || e.Close? || e.ReadInto? || e.Drop?)
    ensures var d, after := s.From(p), Step(s, e).value.From(p);
            after.strand != [] && after.Downstream() <= d.Downstream()
  {
    hide Payloads, Read, Direction.Downstream;
    var d := s.From(p);
    DownstreamReads(d, if e.Write? then Offered(d, s.Flag(p), e.msg) else d);
    if e.ReadInto? {
      ReadFlow(d, e.k);
    }
  }

  lemma StrandOtherStep(s: System, e: Event, p: Side)
    requires Step(s, e).Some? && s.From(p).strand != [] && (e.Cancel? || e.Inject? || e.CutWire?)
    requires s.From(p).cut || s.From(p).sendPc == SendDone
    ensures var d, after := s.From(p), Step(s, e).value.From(p);
            after.strand != [] && after.Downstream() <= d.Downstream()
  {
    hide Payloads, Read, Direction.Downstream, SenderDropped, ReceiverDropped, Severed, Injected;
    var d := s.From(p);
    if e.Cancel? {
      SenderDroppedSame(d, e.reached);
      DroppedShrinks(d);
    } else if e.p == p {
      if e.Inject? {
        InjectedSame(d, e.at, e.item);
      } else {
        SeveredShrinks(d, e.at);
      }
    }
  }

  lemma StrandStep(s: System, e: Event, p: Side)
    requires Inv(s) && Step(s, e).Some? && s.From(p).strand != []
    ensures var d, after := s.From(p), Step(s, e).value.From(p);
            after.strand != [] && after.Downstream() <= d.Downstream()
  {
    if e.SendStep? || e.RecvStep? {
      StrandLoopStep(s, e, p);
    } else {
      assert s.From(p).cut || s.From(p).sendPc == SendDone;
      hide Inv, Step, Direction.Downstream;
      if e.Write? || e.Close? || e.ReadInto? || e.Drop? {
        StrandCallerStep(s, e, p);
      } else {
        StrandOtherStep(s, e, p);
      }
    }
  }

  lemma InjectedSame(d: Direction, at: nat, item: Item)
    requires at <= |d.wire| && !item.Binary?
    ensures Injected(d, at, item).Downstream() == d.Downstream() && Injected(d, at, item).strand == d.strand
  {
    InjectedPayloads(d.wire, at, item);
    SameDownstream(d, Injected(d, at, item));
  }

  lemma SameDownstream(d: Direction, e: Direction)
    requires d.dequeued == e.dequeued && d.recvQ == e.recvQ && d.recvPc == e.recvPc
    requires Payloads(d.wire) == Payloads(e.wire)
    ensures d.Downstream() == e.Downstream()
  {
  }

  lemma SenderDroppedSame(d: Direction, reached: bool)
    requires d.strand != [] && (d.cut || d.sendPc == SendDone)
    ensures SenderDropped(d, reached).Downstream() == d.Downstream() && SenderDropped(d, reached).strand != []
  {
    hide Flatten, Payloads, Direction.Downstream;
    DownstreamReads(d, SenderDropped(d, reached));
  }

  lemma DroppedShrinks(d: Direction)
    ensures ReceiverDropped(d).Downstream() <= d.Downstream()
    ensures d.strand != [] ==> ReceiverDropped(d).strand != []
  {
    hide Flatten;
    assert ReceiverDropped(d).Downstream() == d.dequeued + d.recvQ;
  }

  lemma SeveredShrinks(d: Direction, at: nat)
    requires at <= |d.wire|
    ensures Severed(d, at).Downstream() <= d.Downstream()
    ensures d.strand != [] ==> Severed(d, at).strand != []
  {
    hide Flatten, Payloads;
    assert d.wire == d.wire[..at] + d.wire[at..];
    PayloadsConcat(d.wire[..at], d.wire[at..]);
    ConcatAssociates(d.recvPc.Held(), Payloads(d.wire[..at]), Payloads(d.wire[at..]));
    ConcatAssociates(d.dequeued + d.recvQ, d.recvPc.Held() + Payloads(d.wire[..at]), Payloads(d.wire[at..]));
  }

  /** Errors, cut wires and cancelled races only ever cut off a tail: once a message is stranded,
      no later one arrives either, however the run goes on. */
  lemma {:induction false} TailStaysCut(s: System, es: seq<Event>, p: Side)
    requires Inv(s) && Exec(s, es).Some? && s.From(p).strand != []
    ensures var d, after := s.From(p), Exec(s, es).value.From(p);
            after.strand != [] && after.Downstream() <= d.Downstream()
    decreases |es|
  {
    if es != [] {
      var before, e := es[..|es| - 1], es[|es| - 1];
      TailStaysCut(s, before, p);
      RunKeepsInv(s, before);
      hide Inv, Step, Direction.Downstream;
      StrandStep(Exec(s, before).value, e, p);
    }
  }

  // ---------------------------------------------------------------- a run that loses a byte

  lemma ExecSnoc(s: System, es: seq<Event>, e: Event)
    requires Exec(s, es).Some?
    ensures Exec(s, es + [e]) == Step(Exec(s, es).value, e)
  {
    assert (es + [e])[..|es|] == es;
  }

  ghost function OneWay(d: Direction): System {
    System(Fresh, Fresh, d, IdleDirection)
  }

  lemma MessageQueued(m: Bytes) returns (es: seq<Event>)
    ensures Exec(Start, es) == Some(OneWay(IdleDirection.(offers := [Offer(m, true)], sendQ := [m])))
  {
    assert Exec(Start, []) == Some(Start);
    hide Exec, Read, AfterRead, Payloads, TxStep, RxStep, Flatten;
    var s := Start;
    es, s := Extended([], Start, Write(Left, m));
    assert s == OneWay(IdleDirection.(offers := [Offer(m, true)], sendQ := [m]));
  }

  lemma OwnSendStep(d: Direction, e: TxEvent)
    requires d.sendPc != SendDone && TxStep(Tx(d.sendQ, d.sendPc, false, false), e).Some?
    requires !TxStep(Tx(d.sendQ, d.sendPc, false, false), e).value.0.closed
    ensures var (t, out) := TxStep(Tx(d.sendQ, d.sendPc, false, false), e).value;
            Step(OneWay(d), SendStep(Left, e)) == Some(OneWay(AfterSend(d, t, out)))
  {
    hide Read, AfterRead, Payloads, TxStep, RxStep, Flatten, AfterSend;
  }

  /** A message written on the left can travel to the wire, */
  lemma MessageSent(m: Bytes) returns (es: seq<Event>, d: Direction)
    ensures Exec(Start, es) == Some(OneWay(d)) && d == IdleDirection.(offers := [Offer(m, true)], wire := [Binary(m)])
  {
    hide Exec, Step, Payloads, Flatten;
    es := MessageQueued(m);
    assert [m][1..] == [] && IdleDirection.wire + [Binary(m)] == [Binary(m)];
    d := IdleDirection.(offers := [Offer(m, true)], sendQ := [m]);
    var s;
    OwnSendStep(d, TestSend);
    es, s := Extended(es, OneWay(d), SendStep(Left, TestSend));
    d := d.(sendPc := SendWait);
    OwnSendStep(d, TakeSend);
    es, s := Extended(es, OneWay(d), SendStep(Left, TakeSend));
    d := d.(sendPc := SendHold(m), sendQ := []);
    OwnSendStep(d, FinishSend(Accepted));
    es, s := Extended(es, OneWay(d), SendStep(Left, FinishSend(Accepted)));
    d := d.(sendPc := SendCheck, wire := [Binary(m)]);
  }

  lemma MessagePassed(before: seq<Event>, d: Direction, m: Bytes) returns (es: seq<Event>)
    requires Exec(Start, before) == Some(OneWay(d))
    requires d.recvPc == RecvCheck && d.wire == [Binary(m)] && d.recvQ == [] && d.sendPc != SendDone
    ensures before <= es && Exec(Start, es) == Some(OneWay(d.(recvPc := RecvCheck, wire := [], recvQ := [m])))
  {
    hide Exec, Read, AfterRead, TxStep, Flatten, Payloads;
    var s := OneWay(d);
    es := before;
    es, s := Extended(es, s, RecvStep(Right, TestRecv));
    es, s := Extended(es, s, RecvStep(Right, NextItem(Binary(m))));
    assert s == OneWay(d.(recvPc := RecvHold(m), wire := []));
    es, s := Extended(es, s, RecvStep(Right, PushRecv));
    assert s == OneWay(d.(recvPc := RecvCheck, wire := [], recvQ := [m]));
  }

  /** and from there to the queue of the reader on the right. */
  lemma MessageArrives(m: Bytes) returns (es: seq<Event>, d: Direction)
    ensures Exec(Start, es) == Some(OneWay(d)) && d == IdleDirection.(offers := [Offer(m, true)], recvQ := [m])
  {
    hide Exec, Read, AfterRead, Payloads, TxStep, Flatten;
    es, d := MessageSent(m);
    es := MessagePassed(es, d, m);
    d := d.(wire := [], recvQ := [m]);
  }

  lemma ChunkPair(a: Bytes, b: Bytes)
    ensures DeliveredBytes([Delivered(a), Lost(b)]) == a && LostBytes([Delivered(a), Lost(b)]) == b
  {
    var first := [Delivered(a)];
    assert [Delivered(a), Lost(b)][..1] == first && first[..0] == [];
    assert DeliveredBytes(first) == a && LostBytes(first) == [];
  }

  lemma TwoReads(d: Direction, m: Bytes, k: nat)
    requires k < |m| <= 2 * k
    requires d.recvBuf == [] && d.recvQ == [m] && d.chunks == [] && d.dequeued == []
    ensures AfterRead(AfterRead(d, k), k)
            == d.(recvQ := [], dequeued := [m], chunks := [Delivered(m[..k]), Lost(m[k..])])
  {
    hide Flatten, Payloads;
    assert [] + m == m;
    assert AfterRead(d, k) == d.(recvQ := [], recvBuf := m[k..], dequeued := [m], chunks := [Delivered(m[..k])]);
  }

  /** The loss is real: a lone message that takes two reads loses all the bytes of the second. */
  lemma SecondHalfLost(m: Bytes, k: nat) returns (es: seq<Event>)
    requires k < |m| <= 2 * k
    ensures Exec(Start, es).Some?
    ensures var d := Exec(Start, es).value.From(Left);
            && Answered(d.offers) == Queued(d.offers) == [m]
            && DeliveredBytes(d.chunks) == m[..k] && LostBytes(d.chunks) == m[k..] != []
            && Settled(d)
  {
    hide Exec, Read, AfterRead, TxStep, RxStep, Flatten;
    var d;
    es, d := MessageArrives(m);
    var s := OneWay(d);
    TwoReads(d, m, k);
    es, s := Extended(es, s, ReadInto(Right, k));
    es, s := Extended(es, s, ReadInto(Right, k));
    var chunks := [Delivered(m[..k]), Lost(m[k..])];
    assert s.fromLeft.chunks == chunks;
    ChunkPair(m[..k], m[k..]);
    assert d.offers[..0] == [];
  }

  /** The false end is real: a reader on an open pipe is told zero bytes because its peer wrote an
      empty message. */
  lemma EmptyWriteEndsReading(k: nat) returns (es: seq<Event>)
    requires 0 < k
    ensures Exec(Start, es).Some?
    ensures var s := Exec(Start, es).value;
            && s.Flag(Left) == Fresh == s.Flag(Right)
            && s.From(Left).offers == [Offer([], true)] && s.From(Left).chunks == [Delivered([])]
  {
    hide Exec, Read, AfterRead, TxStep, RxStep, Flatten;
    var d;
    es, d := MessageArrives([]);
    var s := OneWay(d);
    WholeMessageRead(d.GetInbox(), k);
    EmptyRead(d, k);
    es, s := Extended(es, s, ReadInto(Right, k));
  }

  lemma EmptyRead(d: Direction, k: nat)
    requires Read(d.GetInbox(), k).1 == Got([]) && d.chunks == []
    ensures AfterRead(d, k).chunks == [Delivered([])] && AfterRead(d, k).offers == d.offers
  {
    hide Read;
  }

  /** A message of another kind in front of a binary one is skipped: both pipes stay open, and the
      binary one arrives. */
  lemma OtherSkipped(m: Bytes, i: Item) returns (es: seq<Event>)
    requires !i.Binary?
    ensures Exec(Start, es).Some?
    ensures var s := Exec(Start, es).value;
            && Inject(Left, 0, i) in es && s.From(Left).recvQ == [m] && s.From(Left).wire == []
            && !s.Flag(Left).closed && !s.Flag(Right).closed
  {
    hide Exec, Read, AfterRead, TxStep, Flatten, Payloads;
    var d;
    es, d := MessageSent(m);
    var s := OneWay(d);
    es, s := Extended(es, s, Inject(Left, 0, i));
    d := d.(wire := [i, Binary(m)]);
    assert s == OneWay(d);
    es, s := Extended(es, s, RecvStep(Right, TestRecv));
    es, s := Extended(es, s, RecvStep(Right, NextItem(i)));
    d := d.(recvPc := RecvCheck, wire := [Binary(m)]);
    assert s == OneWay(d);
    var before := es;
    assert Inject(Left, 0, i) in before;
    es := MessagePassed(before, d, m);
    assert es[..|before|] == before;
  }

  /** Closing does not flush: a message answered with success and still queued is stranded. */
  lemma CloseLosesQueued(m: Bytes) returns (es: seq<Event>)
    ensures Exec(Start, es).Some?
    ensures var d := Exec(Start, es).value.From(Left);
            d.offers == [Offer(m, true)] && d.strand == [m] && d.wire == [] && d.sendQ == []
  {
    assert Exec(Start, []) == Some(Start);
    hide Exec, Read, AfterRead, Payloads, RxStep, Flatten;
    var s := Start;
    es := [];
    es, s := Extended(es, s, Write(Left, m));
    es, s := Extended(es, s, Close(Left));
    es, s := Extended(es, s, SendStep(Left, TestSend));
    var d := IdleDirection.(offers := [Offer(m, true)], sendQ := [m], sendPc := SendDone);
    assert s == System(Flags(true, false, false), Fresh, d, IdleDirection);
    es, s := Extended(es, s, Cancel(Left, false));
  }

  /** A cut wire strands what is on it, and the reader finds its pipe closed by the end. */
  lemma CutStrands(m: Bytes) returns (es: seq<Event>)
    ensures Exec(Start, es).Some?
    ensures var s := Exec(Start, es).value;
            s.From(Left).strand == [m] && s.From(Left).wire == [] && s.Flag(Right).closed && !s.Flag(Left).closed
  {
    hide Exec, Read, AfterRead, TxStep, Flatten;
    var d;
    es, d := MessageSent(m);
    var s := OneWay(d);
    LonePayload(m);
    es, s := Extended(es, s, CutWire(Left, 0));
    d := d.(strand := [m], wire := [], cut := true);
    assert s == OneWay(d);
    es, s := Extended(es, s, RecvStep(Right, TestRecv));
    es, s := Extended(es, s, RecvStep(Right, NextEnd));
  }

  // ---------------------------------------------------------------- a run that fills the channel

  function Writes(p: Side, m: Bytes, n: nat): seq<Event> { seq(n, _ => Write(p, m)) }

  function Repeated<T>(x: T, n: nat): seq<T> { seq(n, _ => x) }

  lemma RepeatedSnoc<T>(x: T, n: nat)
    ensures Repeated(x, n + 1) == Repeated(x, n) + [x]
  {
  }

  /** As long as the sending loop does not get its turn, writes pile up in the channel. */
  lemma {:induction false} ChannelFills(m: Bytes, n: nat)
    requires n <= QUEUE_CAP
    ensures Exec(Start, Writes(Left, m, n))
            == Some(OneWay(IdleDirection.(offers := Repeated(Offer(m, true), n), sendQ := Repeated(m, n))))
    decreases n
  {
    if n == 0 {
      assert Writes(Left, m, 0) == [] && Repeated(Offer(m, true), 0) == [] && Repeated(m, 0) == [];
    } else {
      ChannelFills(m, n - 1);
      hide Exec, Read, AfterRead, TxStep, RxStep, Flatten;
      RepeatedSnoc(Offer(m, true), n - 1);
      RepeatedSnoc(m, n - 1);
      assert Writes(Left, m, n) == Writes(Left, m, n - 1) + [Write(Left, m)];
      ExecSnoc(Start, Writes(Left, m, n - 1), Write(Left, m));
    }
  }

  /** The refusal is real: a run on an open pipe after which a message of any content is answered
      with success and dropped. */
  lemma FullChannelRefuses(m: Bytes, msg: Bytes) returns (es: seq<Event>)
    ensures Exec(Start, es).Some? && !Exec(Start, es).value.Flag(Left).closed
    ensures var s := Exec(Start, es).value;
            && |s.From(Left).sendQ| == QUEUE_CAP
            && Step(s, Write(Left, msg))
               == Some(s.WithFrom(Left, s.From(Left).(offers := s.From(Left).offers + [Offer(msg, false)])))
  {
    es := Writes(Left, m, QUEUE_CAP);
    ChannelFills(m, QUEUE_CAP);
    WriteRefusedExactly(es, Left, msg);
    hide Exec, Read, AfterRead, TxStep, RxStep, Flatten;
  }

  lemma Extended(es: seq<Event>, s: System, e: Event) returns (fs: seq<Event>, t: System)
    requires Exec(Start, es) == Some(s) && Step(s, e).Some?
    ensures fs == es + [e] && Exec(Start, fs) == Some(t) == Step(s, e)
  {
    fs, t := es + [e], Step(s, e).value;
    ExecSnoc(Start, es, e);
  }
}
