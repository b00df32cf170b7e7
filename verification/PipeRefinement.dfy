/** The loops as they are coded are runs of the system: what `SendLoop.Resume` and
    `RecvLoop.Resume` promise, a run of loop steps, is a sequence of events of `PipeSystem`. */
module PipeRefinement {
  import opened ByteStreams
  import opened PipeSpec
  import opened PipeSystem

  /** A read event does to the inbox of its side what `ObfsWsPipe.PollRead` promises, records what
      was taken, and changes nothing else. */
  lemma ReadEventIsPollRead(s: System, q: Side, k: nat)
    requires !s.Flag(q).dropped
    ensures Step(s, ReadInto(q, k)).Some?
    ensures var (x, o) := Read(s.To(q).GetInbox(), k);
            var t := Step(s, ReadInto(q, k)).value;
            && t.To(q).GetInbox() == x
            && TakenBytes(t.To(q).chunks) == TakenBytes(s.To(q).chunks) + o.Taken()
            && DeliveredBytes(t.To(q).chunks) == DeliveredBytes(s.To(q).chunks) + (if o.Got? then o.data else [])
            && t.From(q) == s.From(q) && t.Flag(Left) == s.Flag(Left) && t.Flag(Right) == s.Flag(Right)
  {
    hide Read, Recorded, TakenBytes, DeliveredBytes;
    RecordedBytes(s.To(q).chunks, Read(s.To(q).GetInbox(), k).1);
  }

  function SendEvents(p: Side, trace: seq<TxEvent>): seq<Event> {
    seq(|trace|, i requires 0 <= i < |trace| => SendStep(p, trace[i]))
  }

  function RecvEvents(p: Side, trace: seq<RxEvent>): seq<Event> {
    seq(|trace|, i requires 0 <= i < |trace| => RecvStep(p, trace[i]))
  }

  function SendView(s: System, p: Side): Tx {
    Tx(s.From(p).sendQ, s.From(p).sendPc, s.Flag(p).closed, s.Flag(p).dropped)
  }

  function RecvView(s: System, p: Side): Rx {
    Rx(s.To(p).recvQ, s.To(p).recvPc, s.Flag(p).closed, s.Flag(p).dropped)
  }

  lemma SendStepEffect(s: System, p: Side, e: TxEvent)
    requires !s.RaceOver(p) && TxStep(SendView(s, p), e).Some?
    ensures Step(s, SendStep(p, e)).Some?
    ensures var t := Step(s, SendStep(p, e)).value;
            var (u, out) := TxStep(SendView(s, p), e).value;
            && SendView(t, p) == u
            && t.To(p) == s.To(p) && t.Flag(p) == s.Flag(p).(closed := u.closed)
            && t.From(p).cut == s.From(p).cut
            && (!s.From(p).cut ==> Payloads(t.From(p).wire) == Payloads(s.From(p).wire) + Wired(out))
            && (s.From(p).cut ==> t.From(p).wire == s.From(p).wire)
  {
    hide TxStep, Read, RxStep;
    TxStepFacts(SendView(s, p), e);
    var (u, out) := TxStep(SendView(s, p), e).value;
    var wire := s.From(p).wire;
    if out.OnWire? {
      PayloadsConcat(wire, [Binary(out.msg)]);
      assert Payloads([Binary(out.msg)]) == [out.msg] + Payloads([]);
    }
    assert Payloads(wire) + [] == Payloads(wire);
  }

  /** `t` is `s` after side `p` has sent for a while: the loop is at `u` and has put `wired` on
      the wire, unless that is cut. */
  predicate SentOn(s: System, t: System, p: Side, u: Tx, wired: seq<Bytes>) {
    && SendView(t, p) == u
    && t.To(p) == s.To(p) && t.Flag(p) == s.Flag(p).(closed := u.closed)
    && t.From(p).cut == s.From(p).cut
    && (!s.From(p).cut ==> Payloads(t.From(p).wire) == Payloads(s.From(p).wire) + wired)
    && (s.From(p).cut ==> t.From(p).wire == s.From(p).wire)
  }

  lemma OneMoreSend(s: System, t: System, p: Side, u: Tx, wired: seq<Bytes>, e: TxEvent)
    requires !s.RaceOver(p) && SentOn(s, t, p, u, wired) && TxStep(u, e).Some?
    ensures Step(t, SendStep(p, e)).Some?
    ensures var (v, out) := TxStep(u, e).value; SentOn(s, Step(t, SendStep(p, e)).value, p, v, wired + Wired(out))
  {
    hide TxStep, Step, Payloads;
    TxStepFacts(u, e);
    SendStepEffect(t, p, e);
    ConcatAssociates(Payloads(s.From(p).wire), wired, Wired(TxStep(u, e).value.1));
  }

  lemma EventsSnoc(p: Side, trace: seq<TxEvent>)
    requires trace != []
    ensures var events := SendEvents(p, trace);
            && events[..|events| - 1] == SendEvents(p, trace[..|trace| - 1])
            && events[|events| - 1] == SendStep(p, trace[|trace| - 1])
  {
  }

  /** A resumption of the sending loop is a run of the system, in which exactly the messages it put
      on an intact wire join the wire. */
  lemma {:induction false} SendLoopRefines(s: System, p: Side, trace: seq<TxEvent>)
    requires !s.RaceOver(p) && TxRun(SendView(s, p), trace).Some?
    ensures Exec(s, SendEvents(p, trace)).Some?
    ensures var (u, handed, wired) := TxRun(SendView(s, p), trace).value;
            SentOn(s, Exec(s, SendEvents(p, trace)).value, p, u, wired)
    decreases |trace|
  {
    if trace == [] {
      assert Payloads(s.From(p).wire) + [] == Payloads(s.From(p).wire);
    } else {
      hide TxStep, Step, SentOn, SendEvents;
      var before, e := trace[..|trace| - 1], trace[|trace| - 1];
      SendLoopRefines(s, p, before);
      EventsSnoc(p, trace);
      var (u, handed, wired) := TxRun(SendView(s, p), before).value;
      OneMoreSend(s, Exec(s, SendEvents(p, before)).value, p, u, wired, e);
      assert SendEvents(p, trace) != [] by { EventsNotEmpty(p, trace); }
    }
  }

  lemma EventsNotEmpty(p: Side, trace: seq<TxEvent>)
    ensures |SendEvents(p, trace)| == |trace|
  {
  }

  lemma FrontTaken(d: Direction, e: RxEvent)
    requires NetworkAllows(d, e)
    ensures d.wire == Arrived(e) + if e.NextItem? then d.wire[1..] else d.wire
  {
  }

  lemma RecvStepEffect(s: System, p: Side, e: RxEvent)
    requires !s.RaceOver(p) && RxStep(RecvView(s, p), e).Some? && NetworkAllows(s.To(p), e)
    ensures Step(s, RecvStep(p, e)).Some?
    ensures var t := Step(s, RecvStep(p, e)).value;
            && RecvView(t, p) == RxStep(RecvView(s, p), e).value
            && t.From(p) == s.From(p)
            && t.Flag(p) == s.Flag(p).(closed := RecvView(t, p).closed)
            && t.To(p).recvBuf == s.To(p).recvBuf
            && if e == FailPush then t.To(p).wire == []
               else t.To(p).cut == s.To(p).cut && s.To(p).wire == Arrived(e) + t.To(p).wire
  {
    hide TxStep, Read, RxStep, Payloads, Flatten;
    RxStepFacts(RecvView(s, p), e);
    FrontTaken(s.To(p), e);
    hide NetworkAllows, Arrived;
  }

  /** The stream the loop read is what was on the wire: `items` at its front, and the end only
      behind the last item of a cut wire. */
  predicate Supplied(d: Direction, trace: seq<RxEvent>, items: seq<Item>) {
    && items <= d.wire
    && (NextEnd in trace ==> d.cut && items == d.wire)
  }

  lemma RecvRunItems(r: Rx, trace: seq<RxEvent>)
    requires trace != [] && RxRun(r, trace).Some?
    ensures var before, e := trace[..|trace| - 1], trace[|trace| - 1];
            && RxRun(r, before).Some? && RxStep(RxRun(r, before).value.0, e) == Some(RxRun(r, trace).value.0)
            && RxRun(r, trace).value.2 == RxRun(r, before).value.2 + Arrived(e)
  {
  }

  /** The loop returns on the end of the stream. */
  lemma {:induction false} EndIsLast(r: Rx, trace: seq<RxEvent>)
    requires RxRun(r, trace).Some?
    ensures forall i :: 0 <= i < |trace| && trace[i] == NextEnd ==>
              i == |trace| - 1 && RxRun(r, trace).value.0.pc == RecvDone
    decreases |trace|
  {
    if trace != [] {
      RecvRunItems(r, trace);
      var before := trace[..|trace| - 1];
      EndIsLast(r, before);
      assert forall i :: 0 <= i < |before| ==> before[i] == trace[i];
    }
  }

  /** `t` is `s` after side `p` has received for a while: the loop is at `u`, and `items` have left
      the wire; if the loop returned for want of a reader, so has the rest of it. */
  predicate TakenOff(s: System, t: System, p: Side, u: Rx, items: seq<Item>) {
    && RecvView(t, p) == u
    && t.From(p) == s.From(p)
    && t.Flag(p) == s.Flag(p).(closed := u.closed)
    && t.To(p).recvBuf == s.To(p).recvBuf
    && items <= s.To(p).wire
    && ((u.pc == RecvDone && u.orphan && t.To(p).wire == [])
        || (t.To(p).cut == s.To(p).cut && s.To(p).wire == items + t.To(p).wire))
  }

  lemma OneMoreReceive(s: System, t: System, p: Side, u: Rx, items: seq<Item>, e: RxEvent)
    requires !s.RaceOver(p) && TakenOff(s, t, p, u, items) && RxStep(u, e).Some?
    requires items + Arrived(e) <= s.To(p).wire
    requires e == NextEnd ==> s.To(p).cut && items == s.To(p).wire
    ensures Step(t, RecvStep(p, e)).Some?
    ensures TakenOff(s, Step(t, RecvStep(p, e)).value, p, RxStep(u, e).value, items + Arrived(e))
  {
    hide RxStep, Step, Payloads;
    RxStepFacts(u, e);
    var wire, rest := s.To(p).wire, t.To(p).wire;
    assert rest == wire[|items|..];
    if e.NextItem? {
      assert wire[|items|] == (items + Arrived(e))[|items|] == e.item;
      assert rest[0] == e.item;
    }
    RecvStepEffect(t, p, e);
    var left := Step(t, RecvStep(p, e)).value.To(p).wire;
    assert items + (Arrived(e) + left) == (items + Arrived(e)) + left;
  }

  /** A resumption of the receiving loop is a run of the system that takes its items off the wire. */
  lemma {:induction false} RecvLoopRefines(s: System, p: Side, trace: seq<RxEvent>)
    requires !s.RaceOver(p) && RxRun(RecvView(s, p), trace).Some?
    requires Supplied(s.To(p), trace, RxRun(RecvView(s, p), trace).value.2)
    ensures Exec(s, RecvEvents(p, trace)).Some?
    ensures var (u, pushed, items) := RxRun(RecvView(s, p), trace).value;
            TakenOff(s, Exec(s, RecvEvents(p, trace)).value, p, u, items)
    decreases |trace|
  {
    if trace == [] {
      assert [] + s.To(p).wire == s.To(p).wire;
    } else {
      hide RxStep, Step, TakenOff, RxRun;
      var before, e := trace[..|trace| - 1], trace[|trace| - 1];
      var r := RecvView(s, p);
      RecvRunItems(r, trace);
      EndIsLast(r, trace);
      var (u, pushed, items) := RxRun(r, before).value;
      assert e == NextEnd ==> items + Arrived(e) == items;
      assert NextEnd !in before;
      RecvLoopRefines(s, p, before);
      var events := RecvEvents(p, trace);
      assert events[..|events| - 1] == RecvEvents(p, before) && events[|events| - 1] == RecvStep(p, e);
      OneMoreReceive(s, Exec(s, RecvEvents(p, before)).value, p, u, items, e);
    }
  }
}
