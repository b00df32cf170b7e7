/** One proxied connection: a client request task and a server session task joined by two reliable
    byte streams, from the connect request through the offer to the forwarding of data, under
    every interleaving and every fragmentation of the streams. */
module Tunnel {
  import opened ByteStreams
  import opened Bincode
  import opened Frames

  // ---------------------------------------------------------------- one direction of the stream

  /** Bytes still under way, bytes arrived but not consumed, and the history of frames sent, of
      which the first `taken` have been received. */
  datatype Link = Link(underway: Bytes, arrived: Bytes, sent: seq<Frame>, taken: nat)

  const EmptyLink := Link([], [], [], 0)

  function Put(l: Link, f: Frame): Link {
    l.(underway := l.underway + Wire(f), sent := l.sent + [f])
  }

  function Advance(l: Link, n: nat): Link
    requires n <= |l.underway|
  {
    l.(underway := l.underway[n..], arrived := l.arrived + l.underway[..n])
  }

  /** A receive returns once a whole frame has arrived, and waits until then. */
  function Take(l: Link): Option<(Reception, Link)> {
    var (r, rest) := Receive(l.arrived);
    if r == Ended then None else Some((r, l.(arrived := rest, taken := l.taken + 1)))
  }

  predicate LinkInv(l: Link) {
    && (forall f :: f in l.sent ==> Sendable(f))
    && l.taken <= |l.sent|
    && l.arrived + l.underway == WireAll(l.sent[l.taken..])
  }

  lemma PutKeeps(l: Link, f: Frame)
    requires LinkInv(l) && Sendable(f)
    ensures LinkInv(Put(l, f))
  {
    hide Wire, Sendable;
    var rest := l.sent[l.taken..];
    assert (l.sent + [f])[l.taken..] == rest + [f];
    WireAllConcat(rest, [f]);
    assert WireAll([f]) == Wire(f) + WireAll([]);
    assert l.arrived + (l.underway + Wire(f)) == (l.arrived + l.underway) + Wire(f);
  }

  lemma AdvanceKeeps(l: Link, n: nat)
    requires LinkInv(l) && n <= |l.underway|
    ensures LinkInv(Advance(l, n))
  {
    hide WireAll, Sendable;
    assert l.underway == l.underway[..n] + l.underway[n..];
    assert (l.arrived + l.underway[..n]) + l.underway[n..] == l.arrived + l.underway;
  }

  /** Whatever has arrived, a receive that returns gives the next frame sent. */
  lemma TakeGives(l: Link)
    requires LinkInv(l) && Take(l).Some?
    ensures l.taken < |l.sent| && Take(l).value.0 == Received(l.sent[l.taken])
    ensures LinkInv(Take(l).value.1)
  {
    hide Wire, Sendable, Receive;
    var pending := l.sent[l.taken..];
    assert l.arrived <= WireAll(pending);
    ReceiveFront(pending, l.arrived);
    var w := Wire(pending[0]);
    var rest := l.arrived[|w|..];
    assert pending[1..] == l.sent[l.taken + 1..];
    assert w + (rest + l.underway) == l.arrived + l.underway == w + WireAll(pending[1..]);
    assert (w + (rest + l.underway))[|w|..] == rest + l.underway;
    assert (w + WireAll(pending[1..]))[|w|..] == WireAll(pending[1..]);
  }

  /** The connection data in a sequence of frames. */
  function Carried(fs: seq<Frame>): Bytes {
    if fs == [] then []
    else Carried(fs[..|fs| - 1]) + (var p := fs[|fs| - 1].protocol; if p.TcpData? then p.payload else [])
  }

  lemma {:induction false} CarriedPrefix(fs: seq<Frame>, n: nat)
    requires n <= |fs|
    ensures Carried(fs[..n]) <= Carried(fs)
    decreases |fs|
  {
    if n < |fs| {
      CarriedPrefix(fs[..|fs| - 1], n);
      assert fs[..|fs| - 1][..n] == fs[..n];
    } else {
      assert fs[..n] == fs;
    }
  }

  lemma CarriedSnoc(fs: seq<Frame>, f: Frame)
    ensures Carried(fs + [f]) == Carried(fs) + (if f.protocol.TcpData? then f.protocol.payload else [])
  {
    assert (fs + [f])[..|fs|] == fs;
  }

  // ---------------------------------------------------------------- the two tasks

  /** Why a task is over.  The last five are the errors and panics the code provides for a peer
      that breaks the protocol; `HttpTodo` is an unfinished branch of the HTTP front end. */
  datatype Cause =
    | Stopped
    | Denied(error: OfferError)
    | TooLarge
    | HttpTodo
    | UnexpectedFrame
    | ForeignId
    | DataExpected
    | Undecodable
    | DataTooLarge

  predicate Violation(c: Cause) {
    c == UnexpectedFrame || c == ForeignId || c == DataExpected || c == Undecodable || c == DataTooLarge
  }

  datatype Client = Idle | AwaitOffer | Relaying(id: U128) | Over(cause: Cause)

  datatype Server = AwaitRequest | Dialling(dst: Text, port: U16) | Serving(id: U128) | Closed(cause: Cause)

  /** `up` carries client to server, `down` the other way.  The last four are what each task has
      read from and written to its own TCP socket. */
  datatype State = State(
    dst: Text, port: U16, http: bool,
    client: Client, server: Server, up: Link, down: Link,
    clientRead: Bytes, clientWrote: Bytes, serverRead: Bytes, serverWrote: Bytes)

  function Begin(dst: Text, port: U16, http: bool): State {
    State(dst, port, http, Idle, AwaitRequest, EmptyLink, EmptyLink, [], [], [], [])
  }

  datatype Event =
    | Request(padding: nat)
    | TakeOffer
    | TakeRequest
    | Dial(outcome: Result<U128, NetworkError>, padding: nat)
    | ClientUp(chunk: Chunk)
    | ClientDown
    | ServerUp(chunk: Chunk)
    | ServerDown
    | AdvanceUp(n: nat)
    | AdvanceDown(n: nat)
    | StopClient
    | StopServer

  function Padded(p: Protocol, padding: nat): Frame
    requires padding <= MAX_PADDING
  {
    Frame(p, seq(padding, _ => 0))
  }

  function SendRequest(s: State, padding: nat): State
    requires padding <= MAX_PADDING
  {
    var f := Padded(TcpConnect(s.dst, s.port), padding);
    if Sendable(f) then s.(up := Put(s.up, f), client := AwaitOffer) else s.(client := Over(TooLarge))
  }

  function OfferOutcome(http: bool, r: Reception): Client {
    match r
    case Received(Frame(TcpOffer(Success(id)), _)) => Relaying(id)
    case Received(Frame(TcpOffer(Failure(e)), _)) => if http then Over(HttpTodo) else Over(Denied(e))
    case Received(_) => Over(UnexpectedFrame)
    case _ => Over(Undecodable)
  }

  function RequestOutcome(r: Reception): Server {
    match r
    case Received(Frame(TcpConnect(dst, port), _)) => Dialling(dst, port)
    case Received(_) => Closed(UnexpectedFrame)
    case _ => Closed(Undecodable)
  }

  /** What an offer tells about a dial. */
  function OfferFor(outcome: Result<U128, NetworkError>): Result<U128, OfferError> {
    match outcome case Success(id) => Success(id) case Failure(e) => Failure(UnableConnect(e))
  }

  function SendOffer(s: State, outcome: Result<U128, NetworkError>, padding: nat): State
    requires padding <= MAX_PADDING
  {
    var f := Padded(TcpOffer(OfferFor(outcome)), padding);
    if !Sendable(f) then s.(server := Closed(TooLarge))
    else
      var sent := s.(down := Put(s.down, f));
      match outcome
      case Success(id) => sent.(server := Serving(id))
      case Failure(e) => sent.(server := Closed(Denied(UnableConnect(e))))
  }

  /** What a forwarding task makes of a reception: data for its socket, or the end. */
  function Inspect(id: U128, r: Reception): Result<Bytes, Cause> {
    match r
    case Received(Frame(TcpData(got, payload), _)) => if got == id then Success(payload) else Failure(ForeignId)
    case Received(_) => Failure(DataExpected)
    case _ => Failure(Undecodable)
  }

  function Step(s: State, e: Event): Option<State> {
    match e
    case Request(padding) =>
      if s.client == Idle && padding <= MAX_PADDING then Some(SendRequest(s, padding)) else None
    case TakeOffer =>
      (match (s.client, Take(s.down))
       case (AwaitOffer, Some((r, l))) => Some(s.(client := OfferOutcome(s.http, r), down := l))
       case _ => None)
    case TakeRequest =>
      (match (s.server, Take(s.up))
       case (AwaitRequest, Some((r, l))) => Some(s.(server := RequestOutcome(r), up := l))
       case _ => None)
    case Dial(outcome, padding) =>
      if s.server.Dialling? && padding <= MAX_PADDING then Some(SendOffer(s, outcome, padding)) else None
    case ClientUp(c) =>
      if !s.client.Relaying? || !ValidChunk(c) then None
      else
        var f := DataFrame(s.client.id, c.data, c.padding);
        if Sendable(f) then Some(s.(up := Put(s.up, f), clientRead := s.clientRead + c.data))
        else Some(s.(client := Over(DataTooLarge)))
    case ServerUp(c) =>
      if !s.server.Serving? || !ValidChunk(c) then None
      else
        var f := DataFrame(s.server.id, c.data, c.padding);
        if Sendable(f) then Some(s.(down := Put(s.down, f), serverRead := s.serverRead + c.data))
        else Some(s.(server := Closed(DataTooLarge)))
    case ClientDown =>
      (match (s.client, Take(s.down))
       case (Relaying(id), Some((r, l))) =>
         (match Inspect(id, r)
          case Success(data) => Some(s.(down := l, clientWrote := s.clientWrote + data))
          case Failure(c) => Some(s.(down := l, client := Over(c))))
       case _ => None)
    case ServerDown =>
      (match (s.server, Take(s.up))
       case (Serving(id), Some((r, l))) =>
         (match Inspect(id, r)
          case Success(data) => Some(s.(up := l, serverWrote := s.serverWrote + data))
          case Failure(c) => Some(s.(up := l, server := Closed(c))))
       case _ => None)
    case AdvanceUp(n) => if n <= |s.up.underway| then Some(s.(up := Advance(s.up, n))) else None
    case AdvanceDown(n) => if n <= |s.down.underway| then Some(s.(down := Advance(s.down, n))) else None
    case StopClient => if s.client.Over? then None else Some(s.(client := Over(Stopped)))
    case StopServer => if s.server.Closed? then None else Some(s.(server := Closed(Stopped)))
  }

  function Exec(s: State, es: seq<Event>): Option<State>
    decreases |es|
  {
    if es == [] then Some(s)
    else match Exec(s, es[..|es| - 1])
      case None => None
      case Some(t) => Step(t, es[|es| - 1])
  }

  // ---------------------------------------------------------------- the invariant

  predicate IsData(f: Frame, id: U128) { f.protocol.TcpData? && f.protocol.id == id }

  predicate Granted(s: State) {
    s.down.sent != [] && s.down.sent[0].protocol.TcpOffer? && s.down.sent[0].protocol.offer.Success?
  }

  function GrantedId(s: State): U128
    requires Granted(s)
  {
    s.down.sent[0].protocol.offer.value
  }

  /** Client to server: at most one connect request, for the requested address, then data under the
      id the server granted. */
  predicate UpShape(s: State) {
    && (s.up.sent != [] ==> s.up.sent[0].protocol == TcpConnect(s.dst, s.port))
    && (1 < |s.up.sent| ==> Granted(s) && forall i :: 1 <= i < |s.up.sent| ==> IsData(s.up.sent[i], GrantedId(s)))
  }

  /** Server to client: at most one offer; after a granting one data under its id, after a denying
      one nothing. */
  predicate DownShape(s: State) {
    && (s.down.sent != [] ==> s.down.sent[0].protocol.TcpOffer?)
    && (1 < |s.down.sent| ==> Granted(s) && forall i :: 1 <= i < |s.down.sent| ==> IsData(s.down.sent[i], GrantedId(s)))
  }

  predicate ClientInv(s: State) {
    match s.client
    case Idle => s.up.sent == [] && s.down.taken == 0
    case AwaitOffer => s.up.sent != [] && s.down.taken == 0
    case Relaying(id) => s.up.sent != [] && 1 <= s.down.taken && Granted(s) && GrantedId(s) == id
    case Over(c) => !Violation(c) && (c == HttpTodo ==> s.http && s.down.sent != [] && !Granted(s))
  }

  predicate ServerInv(s: State) {
    match s.server
    case AwaitRequest => s.up.taken == 0 && s.down.sent == []
    case Dialling(dst, port) => 1 <= s.up.taken && dst == s.dst && port == s.port && s.down.sent == []
    case Serving(id) => 1 <= s.up.taken && Granted(s) && GrantedId(s) == id
    case Closed(c) => !Violation(c)
  }

  predicate LogInv(s: State) {
    && s.up.taken <= |s.up.sent| && s.down.taken <= |s.down.sent|
    && s.clientRead == Carried(s.up.sent) && s.serverWrote == Carried(s.up.sent[..s.up.taken])
    && s.serverRead == Carried(s.down.sent) && s.clientWrote == Carried(s.down.sent[..s.down.taken])
  }

  predicate Inv(s: State) {
    && LinkInv(s.up) && LinkInv(s.down)
    && UpShape(s) && DownShape(s) && ClientInv(s) && ServerInv(s) && LogInv(s)
  }

  lemma TakenLog(l: Link)
    requires l.taken < |l.sent|
    ensures var p := l.sent[l.taken].protocol;
            Carried(l.sent[..l.taken + 1]) == Carried(l.sent[..l.taken]) + if p.TcpData? then p.payload else []
  {
    assert l.sent[..l.taken + 1] == l.sent[..l.taken] + [l.sent[l.taken]];
    CarriedSnoc(l.sent[..l.taken], l.sent[l.taken]);
  }

  lemma PutLog(l: Link, f: Frame)
    requires l.taken <= |l.sent|
    ensures Carried(Put(l, f).sent) == Carried(l.sent) + if f.protocol.TcpData? then f.protocol.payload else []
    ensures Put(l, f).sent[..l.taken] == l.sent[..l.taken]
  {
    CarriedSnoc(l.sent, f);
  }

  lemma RequestKeeps(s: State, padding: nat)
    requires Inv(s) && s.client == Idle && padding <= MAX_PADDING
    ensures Inv(SendRequest(s, padding))
  {
    hide Wire, WireAll, Sendable, Carried;
    var f := Padded(TcpConnect(s.dst, s.port), padding);
    if Sendable(f) {
      PutKeeps(s.up, f);
      PutLog(s.up, f);
    }
  }

  /** A granting offer always fits a frame. */
  lemma GrantFits(id: U128, padding: nat)
    requires padding <= MAX_PADDING
    ensures Sendable(Padded(TcpOffer(Success(id)), padding))
  {
    LittleEndianRoundTrip(4, 0);
    LittleEndianRoundTrip(4, 1);
    LittleEndianRoundTrip(16, id);
    LittleEndianRoundTrip(8, padding);
  }

  lemma DialKeeps(s: State, outcome: Result<U128, NetworkError>, padding: nat)
    requires Inv(s) && s.server.Dialling? && padding <= MAX_PADDING
    ensures Inv(SendOffer(s, outcome, padding))
  {
    hide Wire, WireAll, Sendable, Carried;
    var f := Padded(TcpOffer(OfferFor(outcome)), padding);
    if Sendable(f) {
      PutKeeps(s.down, f);
      PutLog(s.down, f);
    }
  }

  lemma TakeOfferKeeps(s: State)
    requires Inv(s) && Step(s, TakeOffer).Some?
    ensures Inv(Step(s, TakeOffer).value)
  {
    hide Wire, WireAll, Sendable, Carried, LinkInv, Receive;
    TakeGives(s.down);
    TakenLog(s.down);
  }

  lemma TakeRequestKeeps(s: State)
    requires Inv(s) && Step(s, TakeRequest).Some?
    ensures Inv(Step(s, TakeRequest).value)
  {
    hide Wire, WireAll, Sendable, Carried, LinkInv, Receive;
    TakeGives(s.up);
    TakenLog(s.up);
  }

  lemma ClientUpKeeps(s: State, c: Chunk)
    requires Inv(s) && Step(s, ClientUp(c)).Some?
    ensures Inv(Step(s, ClientUp(c)).value)
  {
    hide Wire, WireAll, Sendable, Carried;
    var f := DataFrame(s.client.id, c.data, c.padding);
    DataFrameFits(s.client.id, c.data, c.padding);
    PutKeeps(s.up, f);
    PutLog(s.up, f);
  }

  lemma ServerUpKeeps(s: State, c: Chunk)
    requires Inv(s) && Step(s, ServerUp(c)).Some?
    ensures Inv(Step(s, ServerUp(c)).value)
  {
    hide Wire, WireAll, Sendable, Carried;
    var f := DataFrame(s.server.id, c.data, c.padding);
    DataFrameFits(s.server.id, c.data, c.padding);
    PutKeeps(s.down, f);
    PutLog(s.down, f);
  }

  lemma ClientDownKeeps(s: State)
    requires Inv(s) && Step(s, ClientDown).Some?
    ensures Inv(Step(s, ClientDown).value)
  {
    hide Wire, WireAll, Sendable, Carried, LinkInv, Receive;
    TakeGives(s.down);
    TakenLog(s.down);
    assert IsData(s.down.sent[s.down.taken], GrantedId(s));
  }

  lemma ServerDownKeeps(s: State)
    requires Inv(s) && Step(s, ServerDown).Some?
    ensures Inv(Step(s, ServerDown).value)
  {
    hide Wire, WireAll, Sendable, Carried, LinkInv, Receive;
    TakeGives(s.up);
    TakenLog(s.up);
    assert IsData(s.up.sent[s.up.taken], GrantedId(s));
  }

  lemma StepKeepsInv(s: State, e: Event)
    requires Inv(s) && Step(s, e).Some?
    ensures Inv(Step(s, e).value)
  {
    hide Wire, WireAll, Sendable, Carried, Receive, Take, Put, SendRequest, SendOffer;
    match e {
      case Request(padding) => RequestKeeps(s, padding);
      case TakeOffer => TakeOfferKeeps(s);
      case TakeRequest => TakeRequestKeeps(s);
      case Dial(outcome, padding) => DialKeeps(s, outcome, padding);
      case ClientUp(c) => ClientUpKeeps(s, c);
      case ServerUp(c) => ServerUpKeeps(s, c);
      case ClientDown => ClientDownKeeps(s);
      case ServerDown => ServerDownKeeps(s);
      case AdvanceUp(n) => AdvanceKeeps(s.up, n);
      case AdvanceDown(n) => AdvanceKeeps(s.down, n);
      case StopClient =>
      case StopServer =>
    }
  }

  lemma {:induction false} RunKeepsInv(dst: Text, port: U16, http: bool, es: seq<Event>)
    requires Exec(Begin(dst, port, http), es).Some?
    ensures Inv(Exec(Begin(dst, port, http), es).value)
    ensures var s := Exec(Begin(dst, port, http), es).value; s.dst == dst && s.port == port && s.http == http
    decreases |es|
  {
    if es != [] {
      var before, e := es[..|es| - 1], es[|es| - 1];
      RunKeepsInv(dst, port, http, before);
      var s := Exec(Begin(dst, port, http), before).value;
      StepKeepsInv(s, e);
      RequestIsFixed(s, e);
      hide Inv, Step;
    }
  }

  lemma RequestIsFixed(s: State, e: Event)
    requires Step(s, e).Some?
    ensures var t := Step(s, e).value; t.dst == s.dst && t.port == s.port && t.http == s.http
  {
    hide Take, Put, Sendable, Wire;
  }

  // ---------------------------------------------------------------- what holds of every run

  /** Neither task ever meets an unexpected frame, a frame of another connection, a frame that is
      not data where data is due, a frame it cannot decode, or data too large to send.  The traffic
      is one connect then data under the granted id upwards, one offer then data under its id
      downwards, and the address dialled is the one requested. */
  lemma ProtocolSafety(dst: Text, port: U16, http: bool, es: seq<Event>)
    requires Exec(Begin(dst, port, http), es).Some?
    ensures var s := Exec(Begin(dst, port, http), es).value;
            && (s.client.Over? ==> !Violation(s.client.cause))
            && (s.server.Closed? ==> !Violation(s.server.cause))
            && UpShape(s) && DownShape(s)
            && (s.server.Dialling? ==> s.server.dst == dst && s.server.port == port)
            && (s.client.Relaying? && s.server.Serving? ==> s.client.id == s.server.id)
  {
    RunKeepsInv(dst, port, http, es);
  }

  /** Each end has written to its socket a prefix of what the other end has read from its own, and
      all of it once every frame sent has been received. */
  lemma TunnelDelivers(dst: Text, port: U16, http: bool, es: seq<Event>)
    requires Exec(Begin(dst, port, http), es).Some?
    ensures var s := Exec(Begin(dst, port, http), es).value;
            && s.serverWrote <= s.clientRead && s.clientWrote <= s.serverRead
            && (s.up.arrived + s.up.underway == [] ==> s.serverWrote == s.clientRead)
            && (s.down.arrived + s.down.underway == [] ==> s.clientWrote == s.serverRead)
  {
    RunKeepsInv(dst, port, http, es);
    var s := Exec(Begin(dst, port, http), es).value;
    hide Exec, Carried;
    CarriedPrefix(s.up.sent, s.up.taken);
    CarriedPrefix(s.down.sent, s.down.taken);
    AllTaken(s.up);
    AllTaken(s.down);
  }

  lemma AllTaken(l: Link)
    requires LinkInv(l)
    ensures l.arrived + l.underway == [] ==> l.sent[..l.taken] == l.sent
  {
    if l.taken < |l.sent| {
      hide EncodeFrame, BigEndian;
      var f := l.sent[l.taken];
      assert f in l.sent;
      WireShape(f);
      assert l.sent[l.taken..][0] == f;
    }
  }

  /** A dial is answered by the one offer that tells its outcome, after which the server serves the
      connection under the id granted or is done; only an offer with too long an error text is
        not sent, and then the server panics. */
  lemma DialAnswered(dst: Text, port: U16, http: bool, es: seq<Event>,
                     outcome: Result<U128, NetworkError>, padding: nat)
    requires Exec(Begin(dst, port, http), es).Some?
    requires Exec(Begin(dst, port, http), es).value.server.Dialling? && padding <= MAX_PADDING
    ensures var t := SendOffer(Exec(Begin(dst, port, http), es).value, outcome, padding);
            if outcome.Failure? && outcome.error.OtherError? && 65503 < |outcome.error.reason| + padding
            then t.down.sent == [] && t.server == Closed(TooLarge)
            else |t.down.sent| == 1
                 && t.down.sent[0].protocol == TcpOffer(OfferFor(outcome))
                 && (if outcome.Success? then t.server == Serving(outcome.value)
                     else t.server == Closed(Denied(UnableConnect(outcome.error))))
  {
    RunKeepsInv(dst, port, http, es);
    hide Exec, Inv, Wire, Sendable;
    var s := Exec(Begin(dst, port, http), es).value;
    assert s.down.sent == [] by { NothingOffered(s); }
    match outcome {
      case Success(id) => GrantFits(id, padding);
      case Failure(e) =>
        if e.OtherError? {
          RefusedExactly([], 0, e.reason, padding);
        } else {
          PlainErrorFits(e, padding);
        }
    }
  }

  lemma NothingOffered(s: State)
    requires Inv(s) && s.server.Dialling?
    ensures s.down.sent == []
  {
  }

  lemma PlainErrorFits(e: NetworkError, padding: nat)
    requires padding <= MAX_PADDING && !e.OtherError?
    ensures Sendable(Padded(TcpOffer(Failure(UnableConnect(e))), padding))
  {
    LittleEndianRoundTrip(4, 0);
    LittleEndianRoundTrip(4, 1);
    LittleEndianRoundTrip(4, ErrorTag(e));
    LittleEndianRoundTrip(8, padding);
  }

  /** When the client takes the offer it relays under the id granted exactly if the dial succeeded;
      after a failed dial a SOCKS client learns the error, and an HTTP client panics. */
  lemma OfferTaken(dst: Text, port: U16, http: bool, es: seq<Event>)
    requires Exec(Begin(dst, port, http), es).Some?
    requires var s := Exec(Begin(dst, port, http), es).value; Step(s, TakeOffer).Some?
    ensures var s := Exec(Begin(dst, port, http), es).value;
            && s.down.sent != [] && s.down.sent[0].protocol.TcpOffer?
            && Step(s, TakeOffer).value.client ==
                 match s.down.sent[0].protocol.offer
                 case Success(id) => Relaying(id)
                 case Failure(e) => if http then Over(HttpTodo) else Over(Denied(e))
  {
    RunKeepsInv(dst, port, http, es);
    var s := Exec(Begin(dst, port, http), es).value;
    hide Exec, Wire, WireAll, Sendable, Carried, LinkInv, Receive;
    TakeGives(s.down);
  }

  /** The exact sizes of the two frames that can be refused: a connect request, and an offer that
      reports an error text.  Every other offer fits. */
  lemma RefusedExactly(dst: Text, port: U16, reason: Text, padding: nat)
    requires padding <= MAX_PADDING
    ensures Sendable(Padded(TcpConnect(dst, port), padding)) <==> |dst| + padding <= 65513
    ensures Sendable(Padded(TcpOffer(Failure(UnableConnect(OtherError(reason)))), padding))
            <==> |reason| + padding <= 65503
  {
    LittleEndianRoundTrip(4, 0);
    LittleEndianRoundTrip(4, 1);
    LittleEndianRoundTrip(4, 6);
    LittleEndianRoundTrip(2, port);
    LittleEndianRoundTrip(8, |dst|);
    LittleEndianRoundTrip(8, |reason|);
    LittleEndianRoundTrip(8, padding);
  }

  /** A request is sent if it fits a frame, and is given up without a trace if it does not. */
  lemma RequestAnswered(s: State, padding: nat)
    requires s.client == Idle && padding <= MAX_PADDING
    ensures var t := SendRequest(s, padding);
            if |s.dst| + padding <= 65513
            then t.client == AwaitOffer && t.up.sent == s.up.sent + [Padded(TcpConnect(s.dst, s.port), padding)]
            else t == s.(client := Over(TooLarge))
  {
    RefusedExactly(s.dst, s.port, [], padding);
    hide Wire, Sendable;
  }

  /** Why a reception ends a forwarding task, if it does. */
  predicate Breach(id: U128, r: Reception, c: Cause) {
    match c
    case ForeignId => r.Received? && r.frame.protocol.TcpData? && r.frame.protocol.id != id
    case DataExpected => r.Received? && !r.frame.protocol.TcpData?
    case Undecodable => !r.Received?
    case _ => false
  }

  /** Only data of its own connection keeps a forwarding task going; anything else ends it for the
      reason that is its due, and nothing of it is written. */
  lemma BreachEndsForwarding(s: State, id: U128)
    ensures s.client == Relaying(id) && Take(s.down).Some? ==>
              var r, t := Take(s.down).value.0, Step(s, ClientDown).value;
              if r.Received? && IsData(r.frame, id)
              then t.client == Relaying(id) && t.clientWrote == s.clientWrote + r.frame.protocol.payload
              else t.client.Over? && Breach(id, r, t.client.cause) && t.clientWrote == s.clientWrote
    ensures s.server == Serving(id) && Take(s.up).Some? ==>
              var r, t := Take(s.up).value.0, Step(s, ServerDown).value;
              if r.Received? && IsData(r.frame, id)
              then t.server == Serving(id) && t.serverWrote == s.serverWrote + r.frame.protocol.payload
              else t.server.Closed? && Breach(id, r, t.server.cause) && t.serverWrote == s.serverWrote
  {
    hide Wire, Sendable, Receive, Take;
  }

  /** Only an offer is an answer to a request, and only a request begins a connection. */
  lemma BreachEndsOpening(s: State)
    ensures s.client == AwaitOffer && Take(s.down).Some? ==>
              var r, t := Take(s.down).value.0, Step(s, TakeOffer).value;
              && (!r.Received? <==> t.client == Over(Undecodable))
              && (r.Received? && !r.frame.protocol.TcpOffer? <==> t.client == Over(UnexpectedFrame))
    ensures s.server == AwaitRequest && Take(s.up).Some? ==>
              var r, t := Take(s.up).value.0, Step(s, TakeRequest).value;
              && (!r.Received? <==> t.server == Closed(Undecodable))
              && (r.Received? && !r.frame.protocol.TcpConnect? <==> t.server == Closed(UnexpectedFrame))
              && (r.Received? && r.frame.protocol.TcpConnect? ==>
                    t.server == Dialling(r.frame.protocol.dst, r.frame.protocol.port))
  {
    hide Wire, Sendable, Receive, Take;
  }

  // ---------------------------------------------------------------- runs that get there

  lemma Extended(b: State, es: seq<Event>, s: State, e: Event) returns (fs: seq<Event>, t: State)
    requires Exec(b, es) == Some(s) && Step(s, e).Some?
    ensures fs == es + [e] && Exec(b, fs) == Some(t) == Step(s, e)
  {
    fs, t := es + [e], Step(s, e).value;
    assert fs[..|es|] == es;
  }

  /** A link on which nothing is under way. */
  predicate Clear(l: Link) { l.underway == [] && l.arrived == [] && l.taken == |l.sent| }

  /** The link after one more frame has gone all the way. */
  function Passed(l: Link, f: Frame): Link {
    Link([], [], l.sent + [f], l.taken + 1)
  }

  function Carrying(l: Link, f: Frame): Link {
    Link([], Wire(f), l.sent + [f], l.taken)
  }

  /** A frame put on a clear link arrives and is received. */
  lemma FramePasses(l: Link, f: Frame)
    requires Clear(l) && Sendable(f)
    ensures |Wire(f)| == |Put(l, f).underway| && Advance(Put(l, f), |Wire(f)|) == Carrying(l, f)
    ensures Take(Carrying(l, f)) == Some((Received(f), Passed(l, f)))
  {
    hide Receive, EncodeFrame;
    assert [] + Wire(f) == Wire(f);
    ReceiveSent(f, []);
    assert Wire(f) + [] == Wire(f);
  }

  lemma AllAdvanceUp(s: State, l: Link, f: Frame)
    requires Clear(l) && Sendable(f) && s.up == Put(l, f)
    ensures Step(s, AdvanceUp(|Wire(f)|)) == Some(s.(up := Carrying(l, f)))
  {
    hide Wire, Sendable, Take, Put, Advance;
    FramePasses(l, f);
  }

  lemma AllAdvanceDown(s: State, l: Link, f: Frame)
    requires Clear(l) && Sendable(f) && s.down == Put(l, f)
    ensures Step(s, AdvanceDown(|Wire(f)|)) == Some(s.(down := Carrying(l, f)))
  {
    hide Wire, Sendable, Take, Put, Advance;
    FramePasses(l, f);
  }

  lemma RequestTaken(s: State, f: Frame)
    requires s.server == AwaitRequest && Sendable(f) && s.up == Carrying(EmptyLink, f)
    requires f.protocol.TcpConnect?
    ensures Step(s, TakeRequest)
            == Some(s.(server := Dialling(f.protocol.dst, f.protocol.port), up := Passed(EmptyLink, f)))
  {
    FramePasses(EmptyLink, f);
    hide Wire, Sendable, Take, Put, Advance;
  }

  lemma OfferIsTaken(s: State, f: Frame)
    requires s.client == AwaitOffer && Sendable(f) && s.down == Carrying(EmptyLink, f)
    ensures Step(s, TakeOffer) == Some(s.(client := OfferOutcome(s.http, Received(f)), down := Passed(EmptyLink, f)))
  {
    FramePasses(EmptyLink, f);
    hide Wire, Sendable, Take, Put, Advance;
  }

  /** The request travels to the server, */
  lemma RequestArrives(dst: Text, port: U16, http: bool, padding: nat) returns (es: seq<Event>, s: State)
    requires padding <= MAX_PADDING && |dst| + padding <= 65513
    ensures Exec(Begin(dst, port, http), es) == Some(s)
    ensures s == Begin(dst, port, http).(client := AwaitOffer, server := Dialling(dst, port), up := s.up) && Clear(s.up)
  {
    var b, f := Begin(dst, port, http), Padded(TcpConnect(dst, port), padding);
    assert Exec(b, []) == Some(b);
    RefusedExactly(dst, port, [], padding);
    hide Exec, Wire, Sendable, Take, Put, Advance;
    es, s := Extended(b, [], b, Request(padding));
    hide Step;
    AllAdvanceUp(s, EmptyLink, f);
    es, s := Extended(b, es, s, AdvanceUp(|Wire(f)|));
    RequestTaken(s, f);
    es, s := Extended(b, es, s, TakeRequest);
  }

  lemma OfferFits(outcome: Result<U128, NetworkError>, padding: nat)
    requires padding <= MAX_PADDING
    requires outcome.Failure? && outcome.error.OtherError? ==> |outcome.error.reason| + padding <= 65503
    ensures Sendable(Padded(TcpOffer(OfferFor(outcome)), padding))
  {
    hide Sendable;
    match outcome {
      case Success(id) => GrantFits(id, padding);
      case Failure(e) =>
        if e.OtherError? {
          RefusedExactly([], 0, e.reason, padding);
        } else {
          PlainErrorFits(e, padding);
        }
    }
  }

  /** where the dial comes out, and the client takes the offer that tells of it. */
  lemma OfferArrives(dst: Text, port: U16, http: bool, outcome: Result<U128, NetworkError>, p1: nat, p2: nat)
      returns (es: seq<Event>, s: State)
    requires p1 <= MAX_PADDING && |dst| + p1 <= 65513 && p2 <= MAX_PADDING
    requires outcome.Failure? && outcome.error.OtherError? ==> |outcome.error.reason| + p2 <= 65503
    ensures Exec(Begin(dst, port, http), es) == Some(s) && Clear(s.up) && Clear(s.down)
    ensures s.client == match outcome
                        case Success(id) => Relaying(id)
                        case Failure(e) => if http then Over(HttpTodo) else Over(Denied(UnableConnect(e)))
    ensures outcome.Success? ==> s.server == Serving(outcome.value)
    ensures s.clientRead == [] && s.clientWrote == [] && s.serverRead == [] && s.serverWrote == []
  {
    var b, f := Begin(dst, port, http), Padded(TcpOffer(OfferFor(outcome)), p2);
    es, s := RequestArrives(dst, port, http, p1);
    OfferFits(outcome, p2);
    hide Exec, Wire, Sendable, Take, Put, Advance;
    es, s := Extended(b, es, s, Dial(outcome, p2));
    hide Step;
    AllAdvanceDown(s, EmptyLink, f);
    es, s := Extended(b, es, s, AdvanceDown(|Wire(f)|));
    OfferIsTaken(s, f);
    es, s := Extended(b, es, s, TakeOffer);
  }

  /** The unfinished branch is reached: whatever address an HTTP client asks for, if the request can
      be sent at all, any dial error that can be told makes it panic. */
  lemma HttpPanics(dst: Text, port: U16, e: NetworkError) returns (es: seq<Event>)
    requires |dst| <= 65512 && (e.OtherError? ==> |e.reason| <= 65502)
    ensures Exec(Begin(dst, port, true), es).Some?
    ensures Exec(Begin(dst, port, true), es).value.client == Over(HttpTodo)
  {
    hide Exec;
    var s;
    es, s := OfferArrives(dst, port, true, Failure(e), 1, 1);
  }

  /** The server's panic is reached if a dial can fail with so long an error text. */
  lemma LongErrorPanics(dst: Text, port: U16, http: bool, reason: Text, padding: nat) returns (es: seq<Event>)
    requires |dst| <= 65512 && padding <= MAX_PADDING && 65503 < |reason| + padding
    ensures Exec(Begin(dst, port, http), es).Some?
    ensures var s := Exec(Begin(dst, port, http), es).value;
            s.server == Closed(TooLarge) && s.down.sent == [] && s.client == AwaitOffer
  {
    var s;
    es, s := RequestArrives(dst, port, http, 1);
    RefusedExactly(dst, port, reason, padding);
    hide Exec, Wire, Sendable, Put;
    es, s := Extended(Begin(dst, port, http), es, s, Dial(Failure(OtherError(reason)), padding));
  }

  lemma ChunkSentUp(s: State, id: U128, c: Chunk)
    requires s.client == Relaying(id) && ValidChunk(c)
    ensures Sendable(DataFrame(id, c.data, c.padding))
    ensures Step(s, ClientUp(c))
            == Some(s.(up := Put(s.up, DataFrame(id, c.data, c.padding)), clientRead := s.clientRead + c.data))
  {
    DataFrameFits(id, c.data, c.padding);
    hide Wire, Sendable, Put, DataFrame;
  }

  lemma ChunkSentDown(s: State, id: U128, c: Chunk)
    requires s.server == Serving(id) && ValidChunk(c)
    ensures Sendable(DataFrame(id, c.data, c.padding))
    ensures Step(s, ServerUp(c))
            == Some(s.(down := Put(s.down, DataFrame(id, c.data, c.padding)), serverRead := s.serverRead + c.data))
  {
    DataFrameFits(id, c.data, c.padding);
    hide Wire, Sendable, Put, DataFrame;
  }

  lemma ChunkTakenUp(s: State, l: Link, id: U128, f: Frame)
    requires s.server == Serving(id) && Clear(l) && Sendable(f) && IsData(f, id) && s.up == Carrying(l, f)
    ensures Step(s, ServerDown)
            == Some(s.(up := Passed(l, f), serverWrote := s.serverWrote + f.protocol.payload))
  {
    FramePasses(l, f);
    hide Wire, Sendable, Take, Put, Advance, Clear, Carrying, Passed;
  }

  lemma ChunkTakenDown(s: State, l: Link, id: U128, f: Frame)
    requires s.client == Relaying(id) && Clear(l) && Sendable(f) && IsData(f, id) && s.down == Carrying(l, f)
    ensures Step(s, ClientDown)
            == Some(s.(down := Passed(l, f), clientWrote := s.clientWrote + f.protocol.payload))
  {
    FramePasses(l, f);
    hide Wire, Sendable, Take, Put, Advance, Clear, Carrying, Passed;
  }

  lemma UpFlows(b: State, es: seq<Event>, s: State, id: U128, c: Chunk) returns (fs: seq<Event>, t: State)
    requires Exec(b, es) == Some(s) && s.client == Relaying(id) && s.server == Serving(id)
    requires Clear(s.up) && ValidChunk(c)
    ensures Exec(b, fs) == Some(t) && Clear(t.up)
    ensures t == s.(up := t.up, clientRead := s.clientRead + c.data, serverWrote := s.serverWrote + c.data)
  {
    hide Exec, Step, Wire, Sendable, Take, Put, Advance;
    var f := DataFrame(id, c.data, c.padding);
    ChunkSentUp(s, id, c);
    fs, t := Extended(b, es, s, ClientUp(c));
    AllAdvanceUp(t, s.up, f);
    fs, t := Extended(b, fs, t, AdvanceUp(|Wire(f)|));
    ChunkTakenUp(t, s.up, id, f);
    fs, t := Extended(b, fs, t, ServerDown);
  }

  lemma DownFlows(b: State, es: seq<Event>, s: State, id: U128, c: Chunk) returns (fs: seq<Event>, t: State)
    requires Exec(b, es) == Some(s) && s.client == Relaying(id) && s.server == Serving(id)
    requires Clear(s.down) && ValidChunk(c)
    ensures Exec(b, fs) == Some(t) && Clear(t.down)
    ensures t == s.(down := t.down, serverRead := s.serverRead + c.data, clientWrote := s.clientWrote + c.data)
  {
    hide Exec, Step, Wire, Sendable, Take, Put, Advance;
    var f := DataFrame(id, c.data, c.padding);
    ChunkSentDown(s, id, c);
    fs, t := Extended(b, es, s, ServerUp(c));
    AllAdvanceDown(t, s.down, f);
    fs, t := Extended(b, fs, t, AdvanceDown(|Wire(f)|));
    ChunkTakenDown(t, s.down, id, f);
    fs, t := Extended(b, fs, t, ClientDown);
  }

  /** Data flows: after a granted request any chunk read at either end is written at the other. */
  lemma DataFlows(dst: Text, port: U16, http: bool, id: U128, up: Chunk, down: Chunk) returns (es: seq<Event>)
    requires |dst| <= 65512 && ValidChunk(up) && ValidChunk(down)
    ensures Exec(Begin(dst, port, http), es).Some?
    ensures var s := Exec(Begin(dst, port, http), es).value;
            && s.client == Relaying(id) && s.server == Serving(id)
            && s.clientRead == s.serverWrote == up.data && s.serverRead == s.clientWrote == down.data
  {
    var b, s := Begin(dst, port, http), Begin(dst, port, http);
    hide Exec;
    es, s := OfferArrives(dst, port, http, Success(id), 1, 1);
    es, s := UpFlows(b, es, s, id, up);
    es, s := DownFlows(b, es, s, id, down);
    assert [] + up.data == up.data && [] + down.data == down.data;
  }
}
