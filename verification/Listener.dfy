/** The listener: one task per accepted TCP connection performs the handshake, passes the key on
    through a one-slot channel, and queues the finished pipe for the caller. */
module Listener {
  import opened ByteStreams
  import opened SessionKey

  const PIPE_QUEUE_CAP: nat := 1000

  /** A connection's task: waiting for the request, for the end of the handshake, for the key it
      left in the slot, for room in the queue, or over.  `Panicked`: the slot was full. */
  datatype Stage = Requested | Upgrading | Upgraded | Sending(key: string) | Finished | Refused | Panicked

  datatype Task = Task(stage: Stage, slot: Option<string>)

  datatype Pipe = Pipe(conn: nat, key: string)

  datatype State = State(tasks: seq<Task>, queue: seq<Pipe>, yielded: seq<Pipe>) {
    function Made(): seq<Pipe> { yielded + queue }
  }

  datatype Event =
    | AcceptTcp
    | Callback(c: nat, header: Option<string>)
    | HandshakeEnds(c: nat, ok: bool)
    | ReceiveKey(c: nat)
    | QueuePipe(c: nat)
    | Accept

  /** The handshake callback: an accepted key goes into the slot, everything else is refused. */
  function Called(t: Task, header: Option<string>): Task {
    match CheckKey(header)
    case None => t.(stage := Refused)
    case Some(md) => if t.slot.Some? then t.(stage := Panicked) else Task(Upgrading, Some(md))
  }

  function Step(s: State, e: Event): Option<State> {
    match e
    case AcceptTcp => Some(s.(tasks := s.tasks + [Task(Requested, None)]))
    case Accept =>
      if s.queue == [] then None
      else Some(s.(queue := s.queue[1..], yielded := s.yielded + [s.queue[0]]))
    case Callback(c, header) =>
      if c < |s.tasks| && s.tasks[c].stage == Requested
      then Some(s.(tasks := s.tasks[c := Called(s.tasks[c], header)])) else None
    case HandshakeEnds(c, ok) =>
      if c < |s.tasks| && s.tasks[c].stage == Upgrading
      then Some(s.(tasks := s.tasks[c := s.tasks[c].(stage := if ok then Upgraded else Refused)])) else None
    case ReceiveKey(c) =>
      if c < |s.tasks| && s.tasks[c].stage == Upgraded && s.tasks[c].slot.Some?
      then Some(s.(tasks := s.tasks[c := Task(Sending(s.tasks[c].slot.value), None)])) else None
    case QueuePipe(c) =>
      if c < |s.tasks| && s.tasks[c].stage.Sending? && |s.queue| < PIPE_QUEUE_CAP
      then Some(s.(tasks := s.tasks[c := s.tasks[c].(stage := Finished)],
                   queue := s.queue + [Pipe(c, s.tasks[c].stage.key)])) else None
  }

  function Exec(es: seq<Event>): Option<State>
    decreases |es|
  {
    if es == [] then Some(State([], [], []))
    else match Exec(es[..|es| - 1])
      case None => None
      case Some(t) => Step(t, es[|es| - 1])
  }

  predicate TaskInv(t: Task) {
    && t.stage != Panicked
    && (t.stage == Requested ==> t.slot == None)
    && (t.stage == Upgrading || t.stage == Upgraded ==> t.slot.Some?)
    && (t.slot.Some? ==> CheckKey(t.slot) == t.slot)
    && (t.stage.Sending? ==> CheckKey(Some(t.stage.key)) == Some(t.stage.key))
  }

  /** Every pipe made comes from a task that has finished, and its key was accepted. */
  predicate Genuine(tasks: seq<Task>, made: seq<Pipe>) {
    forall p :: p in made ==>
      p.conn < |tasks| && tasks[p.conn].stage == Finished && CheckKey(Some(p.key)) == Some(p.key)
  }

  predicate Distinct(made: seq<Pipe>) {
    forall i, j :: 0 <= i < j < |made| ==> made[i].conn != made[j].conn
  }

  predicate NoneForgotten(tasks: seq<Task>, made: seq<Pipe>) {
    forall c :: 0 <= c < |tasks| && tasks[c].stage == Finished ==> exists p :: p in made && p.conn == c
  }

  predicate PipeInv(s: State) {
    Genuine(s.tasks, s.Made()) && Distinct(s.Made()) && NoneForgotten(s.tasks, s.Made())
  }

  predicate Inv(s: State) {
    && (forall c :: 0 <= c < |s.tasks| ==> TaskInv(s.tasks[c]))
    && PipeInv(s)
    && |s.queue| <= PIPE_QUEUE_CAP
  }

  lemma QueuePipeMakes(s: State, c: nat)
    requires Step(s, QueuePipe(c)).Some?
    ensures var t := Step(s, QueuePipe(c)).value;
            && t.Made() == s.Made() + [Pipe(c, s.tasks[c].stage.key)]
            && t.tasks == s.tasks[c := s.tasks[c].(stage := Finished)]
  {
  }

  lemma GenuineGrows(tasks: seq<Task>, made: seq<Pipe>, c: nat, key: string)
    requires Genuine(tasks, made) && c < |tasks| && CheckKey(Some(key)) == Some(key)
    ensures Genuine(tasks[c := tasks[c].(stage := Finished)], made + [Pipe(c, key)])
  {
    hide CheckKey;
  }

  lemma DistinctGrows(tasks: seq<Task>, made: seq<Pipe>, c: nat, key: string)
    requires Genuine(tasks, made) && Distinct(made) && c < |tasks| && tasks[c].stage != Finished
    ensures Distinct(made + [Pipe(c, key)])
  {
    hide CheckKey;
    assert forall i :: 0 <= i < |made| ==> made[i] in made;
  }

  lemma NoneForgottenGrows(tasks: seq<Task>, made: seq<Pipe>, c: nat, key: string)
    requires NoneForgotten(tasks, made) && c < |tasks|
    ensures NoneForgotten(tasks[c := tasks[c].(stage := Finished)], made + [Pipe(c, key)])
  {
    assert Pipe(c, key) in made + [Pipe(c, key)];
    assert forall p :: p in made ==> p in made + [Pipe(c, key)];
  }

  lemma QueuePipeKeeps(s: State, c: nat)
    requires PipeInv(s) && c < |s.tasks| && TaskInv(s.tasks[c]) && Step(s, QueuePipe(c)).Some?
    ensures PipeInv(Step(s, QueuePipe(c)).value)
  {
    QueuePipeMakes(s, c);
    assert s.tasks[c].stage.Sending?;
    hide CheckKey, Step, State.Made, Genuine, Distinct, NoneForgotten;
    var key := s.tasks[c].stage.key;
    GenuineGrows(s.tasks, s.Made(), c, key);
    DistinctGrows(s.tasks, s.Made(), c, key);
    NoneForgottenGrows(s.tasks, s.Made(), c, key);
  }

  lemma TaskStepKeeps(s: State, c: nat, task: Task)
    requires PipeInv(s) && c < |s.tasks| && s.tasks[c].stage != Finished && task.stage != Finished
    ensures PipeInv(s.(tasks := s.tasks[c := task])) && PipeInv(s.(tasks := s.tasks + [task]))
  {
    hide CheckKey;
    assert s.(tasks := s.tasks[c := task]).Made() == s.Made() == s.(tasks := s.tasks + [task]).Made();
  }

  lemma StepKeepsInv(s: State, e: Event)
    requires Inv(s) && Step(s, e).Some?
    ensures Inv(Step(s, e).value)
  {
    hide CheckKey;
    match e {
      case AcceptTcp =>
        hide PipeInv;
        assert PipeInv(s.(tasks := s.tasks + [Task(Requested, None)])) by { NewTaskKeeps(s); }
      case Accept =>
        assert Step(s, e).value.Made() == s.Made();
      case QueuePipe(c) =>
        QueuePipeKeeps(s, c);
        hide PipeInv;
      case Callback(c, header) =>
        TaskStepKeeps(s, c, Called(s.tasks[c], header));
        KeyChecked(header);
        hide PipeInv;
      case HandshakeEnds(c, ok) =>
        TaskStepKeeps(s, c, s.tasks[c].(stage := if ok then Upgraded else Refused));
        hide PipeInv;
      case ReceiveKey(c) =>
        TaskStepKeeps(s, c, Task(Sending(s.tasks[c].slot.value), None));
        hide PipeInv;
    }
  }

  lemma NewTaskKeeps(s: State)
    requires PipeInv(s)
    ensures PipeInv(s.(tasks := s.tasks + [Task(Requested, None)]))
  {
    hide CheckKey;
    assert s.(tasks := s.tasks + [Task(Requested, None)]).Made() == s.Made();
  }

  lemma KeyChecked(header: Option<string>)
    ensures CheckKey(header).Some? ==> CheckKey(header) == header
  {
  }

  lemma {:induction false} RunKeepsInv(es: seq<Event>)
    requires Exec(es).Some?
    ensures Inv(Exec(es).value)
    decreases |es|
  {
    if es != [] {
      RunKeepsInv(es[..|es| - 1]);
      StepKeepsInv(Exec(es[..|es| - 1]).value, es[|es| - 1]);
    }
  }

  /** In every run the callback finds the slot empty; every pipe handed out has a key the listener
      accepted, a connection of its own, and no finished connection is forgotten. */
  lemma PipesAreGenuine(es: seq<Event>)
    requires Exec(es).Some?
    ensures var s := Exec(es).value;
            && (forall c :: 0 <= c < |s.tasks| ==> s.tasks[c].stage != Panicked)
            && (forall i :: 0 <= i < |s.yielded| ==> CheckKey(Some(s.yielded[i].key)) == Some(s.yielded[i].key)
                                                     && s.yielded[i].conn < |s.tasks|)
            && (forall i, j :: 0 <= i < j < |s.yielded| ==> s.yielded[i].conn != s.yielded[j].conn)
            && (forall c :: 0 <= c < |s.tasks| && s.tasks[c].stage == Finished ==>
                  exists p :: p in s.Made() && p.conn == c)
  {
    RunKeepsInv(es);
    hide CheckKey, Exec;
    var s := Exec(es).value;
    assert forall i :: 0 <= i < |s.yielded| ==> s.yielded[i] == s.Made()[i] && s.Made()[i] in s.Made();
  }

  /** A finished pipe waits exactly while a thousand others wait for the caller. */
  lemma PipeWaitsExactly(es: seq<Event>, c: nat)
    requires Exec(es).Some?
    requires c < |Exec(es).value.tasks| && Exec(es).value.tasks[c].stage.Sending?
    ensures Step(Exec(es).value, QueuePipe(c)).None? <==> |Exec(es).value.queue| == 1000
  {
    RunKeepsInv(es);
    hide CheckKey, PipeInv;
  }

  // ---------------------------------------------------------------- where pipes come from

  /** Task `c` of a run came where it stands by what its connection did: the key it holds is the one
      its client presented, its handshake went through, or it was refused for one of two reasons. */
  ghost predicate Explained(es: seq<Event>, c: nat, t: Task) {
    && (t.stage == Requested ==> forall h :: Callback(c, h) !in es)
    && (t.slot.Some? ==> Callback(c, t.slot) in es)
    && (t.stage.Sending? ==> Callback(c, Some(t.stage.key)) in es)
    && (t.stage == Upgraded || t.stage.Sending? || t.stage == Finished ==> HandshakeEnds(c, true) in es)
    && (t.stage == Upgrading ==> HandshakeEnds(c, true) !in es && HandshakeEnds(c, false) !in es)
    && (t.stage == Requested ==> HandshakeEnds(c, true) !in es && HandshakeEnds(c, false) !in es)
    && (t.stage == Refused <==>
          HandshakeEnds(c, false) in es || exists h :: CheckKey(h).None? && Callback(c, h) in es)
  }

  /** A connection not accepted yet has done nothing. */
  predicate Unheard(es: seq<Event>, n: nat) {
    forall e :: e in es && (e.Callback? || e.HandshakeEnds?) ==> e.c < n
  }

  ghost predicate AllExplained(es: seq<Event>, s: State) {
    && Unheard(es, |s.tasks|)
    && (forall c :: 0 <= c < |s.tasks| ==> Explained(es, c, s.tasks[c]))
    && Sourced(es, s.Made())
  }

  /** An event of another connection explains nothing new about `c`. */
  lemma ExplainedStill(es: seq<Event>, e: Event, c: nat, t: Task)
    requires Explained(es, c, t) && !(e.Callback? && e.c == c) && !(e.HandshakeEnds? && e.c == c)
    ensures Explained(es + [e], c, t)
  {
    hide CheckKey;
  }

  lemma CallbackExplained(es: seq<Event>, c: nat, t: Task, header: Option<string>)
    requires Explained(es, c, t) && t.stage == Requested && t.slot == None
    ensures Explained(es + [Callback(c, header)], c, Called(t, header))
  {
    KeyChecked(header);
    hide CheckKey;
  }

  lemma HandshakeExplained(es: seq<Event>, c: nat, t: Task, ok: bool)
    requires Explained(es, c, t) && t.stage == Upgrading
    ensures Explained(es + [HandshakeEnds(c, ok)], c, t.(stage := if ok then Upgraded else Refused))
  {
    hide CheckKey;
  }

  lemma OwnStepExplained(es: seq<Event>, s: State, e: Event, c: nat)
    requires AllExplained(es, s) && Inv(s) && Step(s, e).Some? && c < |s.tasks|
    ensures Explained(es + [e], c, Step(s, e).value.tasks[c])
  {
    assert TaskInv(s.tasks[c]) && Explained(es, c, s.tasks[c]);
    hide CheckKey, Inv, AllExplained, PipeInv;
    if e.Callback? && e.c == c {
      CallbackExplained(es, c, s.tasks[c], e.header);
    } else if e.HandshakeEnds? && e.c == c {
      HandshakeExplained(es, c, s.tasks[c], e.ok);
    } else {
      ExplainedStill(es, e, c, s.tasks[c]);
    }
  }

  lemma NewTaskExplained(es: seq<Event>, n: nat)
    requires Unheard(es, n)
    ensures Explained(es + [AcceptTcp], n, Task(Requested, None))
  {
    hide CheckKey;
  }

  /** Every pipe made carries the key its client presented in a handshake that went through. */
  predicate Sourced(es: seq<Event>, made: seq<Pipe>) {
    forall p :: p in made ==> Callback(p.conn, Some(p.key)) in es && HandshakeEnds(p.conn, true) in es
  }

  lemma PipesSourced(es: seq<Event>, s: State, e: Event)
    requires Sourced(es, s.Made()) && Step(s, e).Some?
    requires e.QueuePipe? ==> Explained(es, e.c, s.tasks[e.c])
    ensures Sourced(es + [e], Step(s, e).value.Made())
  {
    hide CheckKey;
    var t := Step(s, e).value;
    if e.QueuePipe? {
      assert t.Made() == s.Made() + [Pipe(e.c, s.tasks[e.c].stage.key)];
    } else {
      assert t.Made() == s.Made();
    }
  }

  lemma StepExplained(es: seq<Event>, s: State, e: Event)
    requires AllExplained(es, s) && Inv(s) && Step(s, e).Some?
    ensures AllExplained(es + [e], Step(s, e).value)
  {
    hide Inv, Explained, Sourced;
    var t := Step(s, e).value;
    PipesSourced(es, s, e);
    forall c | 0 <= c < |t.tasks| ensures Explained(es + [e], c, t.tasks[c]) {
      if c < |s.tasks| {
        OwnStepExplained(es, s, e, c);
      } else {
        NewTaskExplained(es, c);
      }
    }
  }

  lemma {:induction false} RunExplained(es: seq<Event>)
    requires Exec(es).Some?
    ensures AllExplained(es, Exec(es).value)
    decreases |es|
  {
    if es != [] {
      var before, e := es[..|es| - 1], es[|es| - 1];
      RunExplained(before);
      RunKeepsInv(before);
      assert es == before + [e];
      hide Inv, AllExplained, Step;
      StepExplained(before, Exec(before).value, e);
    }
  }

  /** Every pipe handed out carries the key its own client presented in a handshake that went
      through; and a connection is refused exactly for a key that is not accepted or a failed
      handshake. */
  lemma PipesCarryTheirKeys(es: seq<Event>)
    requires Exec(es).Some?
    ensures var s := Exec(es).value;
            && (forall p :: p in s.yielded ==>
                  Callback(p.conn, Some(p.key)) in es && HandshakeEnds(p.conn, true) in es)
            && (forall c :: 0 <= c < |s.tasks| ==>
                  (s.tasks[c].stage == Refused <==>
                     HandshakeEnds(c, false) in es || exists h :: CheckKey(h).None? && Callback(c, h) in es))
  {
    RunExplained(es);
    hide CheckKey, Exec;
    var s := Exec(es).value;
    assert forall p :: p in s.yielded ==> p in s.Made();
    assert forall c :: 0 <= c < |s.tasks| ==> Explained(es, c, s.tasks[c]);
  }

  // ---------------------------------------------------------------- the order of pipes

  function Conns(pipes: seq<Pipe>): seq<nat> { seq(|pipes|, i requires 0 <= i < |pipes| => pipes[i].conn) }

  /** The connections that queue their pipe, in the order in which they do. */
  function QueueOrder(es: seq<Event>): seq<nat> {
    if es == [] then []
    else QueueOrder(es[..|es| - 1]) + (var e := es[|es| - 1]; if e.QueuePipe? then [e.c] else [])
  }

  /** Pipes are handed out first in, first out. */
  lemma {:induction false} PipesInOrder(es: seq<Event>)
    requires Exec(es).Some?
    ensures Conns(Exec(es).value.Made()) == QueueOrder(es)
    ensures Conns(Exec(es).value.yielded) <= QueueOrder(es)
    decreases |es|
  {
    if es != [] {
      hide CheckKey;
      var before, e := es[..|es| - 1], es[|es| - 1];
      PipesInOrder(before);
      var s, t := Exec(before).value, Exec(es).value;
      assert QueueOrder(before) + [] == QueueOrder(before);
      if e.QueuePipe? {
        assert t.Made() == s.Made() + [Pipe(e.c, s.tasks[e.c].stage.key)];
      } else {
        assert t.Made() == s.Made();
      }
    }
    var t := Exec(es).value;
    assert Conns(t.yielded) == Conns(t.Made())[..|t.yielded|];
  }

  function Lone(stage: Stage, slot: Option<string>): State { State([Task(stage, slot)], [], []) }

  lemma HandshakeDone(key: string) returns (es: seq<Event>)
    requires CheckKey(Some(key)).Some?
    ensures Exec(es) == Some(Lone(Upgraded, Some(key)))
  {
    KeyChecked(Some(key));
    assert Exec([]) == Some(State([], [], []));
    hide CheckKey, Exec;
    var s := State([], [], []);
    es := [];
    es, s := Extended(es, s, AcceptTcp);
    assert s == Lone(Requested, None);
    es, s := Extended(es, s, Callback(0, Some(key)));
    assert s == Lone(Upgrading, Some(key));
    es, s := Extended(es, s, HandshakeEnds(0, true));
    assert s == Lone(Upgraded, Some(key));
  }

  /** The listener does hand out pipes: a client with an accepted key whose handshake goes through
      gets its pipe, under its key. */
  lemma HandshakeYieldsPipe(key: string) returns (es: seq<Event>)
    requires CheckKey(Some(key)).Some?
    ensures Exec(es).Some? && Exec(es).value.yielded == [Pipe(0, key)] && Exec(es).value.queue == []
  {
    es := HandshakeDone(key);
    hide CheckKey, Exec;
    var s := Lone(Upgraded, Some(key));
    es, s := Extended(es, s, ReceiveKey(0));
    assert s == Lone(Sending(key), None);
    es, s := Extended(es, s, QueuePipe(0));
    assert s == State([Task(Finished, None)], [Pipe(0, key)], []);
    es, s := Extended(es, s, Accept);
  }

  lemma Extended(es: seq<Event>, s: State, e: Event) returns (fs: seq<Event>, t: State)
    requires Exec(es) == Some(s) && Step(s, e).Some?
    ensures fs == es + [e] && Exec(fs) == Some(t) == Step(s, e)
  {
    fs, t := es + [e], Step(s, e).value;
    assert fs[..|es|] == es;
  }
}
