/** The server side: handshakes accepted by the listener become pipes, and each pipe is attached to
    the multiplexer of its client's session.  The table of sessions holds weak references, so a
    multiplexer can die at any moment. */
module Sessions {
  import opened ByteStreams
  import opened Bincode
  import opened SessionKey
  import Listener

  // ---------------------------------------------------------------- the session table

  /** A multiplexer, alive while something still refers to it. */
  datatype Mux = Mux(hash: U64, alive: bool, pipes: seq<nat>)

  /** What became of a pipe: the multiplexer found for it, whether it was attached, and whether
      that multiplexer had died since the table was last cleaned. */
  datatype Fate = Fate(pipe: nat, hash: U64, mux: nat, attached: bool, died: bool)

  /** The table, the multiplexers ever made, those that died since the last cleaning, the fates. */
  datatype Registry = Registry(sessions: map<U64, nat>, muxes: seq<Mux>, stale: set<nat>, fates: seq<Fate>)

  const EmptyRegistry := Registry(map[], [], {}, [])

  /** Every entry points to a multiplexer of its own hash. */
  predicate WellFormed(r: Registry) {
    forall h :: h in r.sessions ==> r.sessions[h] < |r.muxes| && r.muxes[r.sessions[h]].hash == h
  }

  function Retained(r: Registry): Registry
    requires WellFormed(r)
  {
    r.(sessions := map h | h in r.sessions && r.muxes[r.sessions[h]].alive :: r.sessions[h], stale := {})
  }

  /** The entry for `hash`, made together with a new multiplexer when there is none. */
  function Entered(r: Registry, hash: U64): (Registry, nat) {
    if hash in r.sessions then (r, r.sessions[hash])
    else
      var m := |r.muxes|;
      (r.(sessions := r.sessions[hash := m], muxes := r.muxes + [Mux(hash, true, [])]), m)
  }

  /** Attaching succeeds only on a multiplexer that is still alive; otherwise the pipe is dropped. */
  function Attached(r: Registry, pipe: nat, hash: U64, m: nat): Registry
    requires m < |r.muxes|
  {
    var mux := r.muxes[m];
    r.(muxes := r.muxes[m := mux.(pipes := mux.pipes + if mux.alive then [pipe] else [])],
       fates := r.fates + [Fate(pipe, hash, m, mux.alive, m in r.stale)])
  }

  function Died(r: Registry, m: nat): Registry
    requires m < |r.muxes|
  {
    r.(muxes := r.muxes[m := r.muxes[m].(alive := false)], stale := r.stale + {m})
  }

  /** The pipes that were attached to multiplexer `m`, in order. */
  function PipesOf(fates: seq<Fate>, m: nat): seq<nat> {
    if fates == [] then []
    else PipesOf(fates[..|fates| - 1], m)
         + (var f := fates[|fates| - 1]; if f.mux == m && f.attached then [f.pipe] else [])
  }

  /** Every live multiplexer is registered under its own hash; an entry whose multiplexer is dead
      lost it since the last cleaning. */
  predicate TableInv(r: Registry) {
    && WellFormed(r)
    && (forall m :: 0 <= m < |r.muxes| && r.muxes[m].alive ==>
          r.muxes[m].hash in r.sessions && r.sessions[r.muxes[m].hash] == m)
    && (forall h :: h in r.sessions && !r.muxes[r.sessions[h]].alive ==> r.sessions[h] in r.stale)
    && (forall m :: m in r.stale ==> m < |r.muxes| && !r.muxes[m].alive)
  }

  /** A pipe was attached exactly if the multiplexer found for it had not died since the last
      cleaning, that multiplexer has the hash of the pipe, and it holds just those pipes. */
  predicate FateInv(r: Registry) {
    && (forall i :: 0 <= i < |r.fates| ==>
          r.fates[i].mux < |r.muxes| && r.muxes[r.fates[i].mux].hash == r.fates[i].hash
          && (r.fates[i].attached <==> !r.fates[i].died))
    && (forall m :: 0 <= m < |r.muxes| ==> r.muxes[m].pipes == PipesOf(r.fates, m))
  }

  predicate RegistryInv(r: Registry) { TableInv(r) && FateInv(r) }

  lemma {:induction false} NoPipesYet(fates: seq<Fate>, m: nat)
    requires forall i :: 0 <= i < |fates| ==> fates[i].mux < m
    ensures PipesOf(fates, m) == []
  {
    if fates != [] {
      NoPipesYet(fates[..|fates| - 1], m);
    }
  }

  lemma RetainedKeeps(r: Registry)
    requires RegistryInv(r)
    ensures RegistryInv(Retained(r))
    ensures forall h :: h in Retained(r).sessions ==> r.muxes[r.sessions[h]].alive
  {
    hide PipesOf;
  }

  lemma EnteredKeeps(r: Registry, hash: U64)
    requires RegistryInv(r)
    ensures var (t, m) := Entered(r, hash);
            RegistryInv(t) && hash in t.sessions && t.sessions[hash] == m && t.fates == r.fates
  {
    hide PipesOf;
    if hash !in r.sessions {
      NoPipesYet(r.fates, |r.muxes|);
      var t := Entered(r, hash).0;
      assert forall m :: 0 <= m < |r.muxes| ==> t.muxes[m] == r.muxes[m];
    }
  }

  lemma AttachedKeeps(r: Registry, pipe: nat, hash: U64, m: nat)
    requires RegistryInv(r) && hash in r.sessions && r.sessions[hash] == m
    ensures RegistryInv(Attached(r, pipe, hash, m))
  {
    var t := Attached(r, pipe, hash, m);
    assert t.fates[..|t.fates| - 1] == r.fates;
    forall n | 0 <= n < |t.muxes| ensures t.muxes[n].pipes == PipesOf(t.fates, n) {
      assert r.muxes[n].pipes == PipesOf(r.fates, n);
    }
  }

  lemma DiedKeeps(r: Registry, m: nat)
    requires RegistryInv(r) && m < |r.muxes|
    ensures RegistryInv(Died(r, m))
  {
    hide PipesOf;
  }

  // ---------------------------------------------------------------- the server loop

  /** One turn of the loop: whether accepting succeeds, the pipe accepted and its key, and the
      multiplexers that die before the table is cleaned, while the loop waits for the pipe, and
      before the pipe is attached. */
  datatype Round = Round(
    accepted: bool, pipe: nat, text: string, idle: seq<nat>, waiting: seq<nat>, attaching: seq<nat>)

  function DiedAll(r: Registry, ms: seq<nat>): Registry {
    if ms == [] then r
    else
      var before := DiedAll(r, ms[..|ms| - 1]);
      var m := ms[|ms| - 1];
      if m < |before.muxes| then Died(before, m) else before
  }

  lemma {:induction false} DiedAllKeeps(r: Registry, ms: seq<nat>)
    requires RegistryInv(r)
    ensures RegistryInv(DiedAll(r, ms))
    ensures DiedAll(r, ms).sessions == r.sessions && DiedAll(r, ms).fates == r.fates
    ensures |DiedAll(r, ms).muxes| == |r.muxes|
    ensures forall m :: 0 <= m < |r.muxes| ==> DiedAll(r, ms).muxes[m].hash == r.muxes[m].hash
    ensures forall m :: 0 <= m < |r.muxes| && m !in ms ==> DiedAll(r, ms).muxes[m].alive == r.muxes[m].alive
  {
    if ms != [] {
      hide RegistryInv;
      var before, m := ms[..|ms| - 1], ms[|ms| - 1];
      DiedAllKeeps(r, before);
      if m < |r.muxes| {
        DiedKeeps(DiedAll(r, before), m);
      }
    }
  }

  /** Exactly the multiplexers of `ms` die. */
  lemma {:induction false} DiedAllKills(r: Registry, ms: seq<nat>)
    requires RegistryInv(r)
    ensures |DiedAll(r, ms).muxes| == |r.muxes|
    ensures forall m :: 0 <= m < |r.muxes| ==>
              (DiedAll(r, ms).muxes[m].alive <==> r.muxes[m].alive && m !in ms)
  {
    DiedAllKeeps(r, ms);
    if ms != [] {
      hide RegistryInv;
      var before, m := ms[..|ms| - 1], ms[|ms| - 1];
      DiedAllKeeps(r, before);
      DiedAllKills(r, before);
      assert ms == before + [m];
    }
  }

  /** The registry when the loop looks up the session of an accepted pipe. */
  function Awaited(r: Registry, round: Round): Registry
    requires RegistryInv(r)
  {
    DiedAllKeeps(r, round.idle);
    var cleaned := Retained(DiedAll(r, round.idle));
    DiedAll(cleaned, round.waiting)
  }

  lemma AwaitedKeeps(r: Registry, round: Round)
    requires RegistryInv(r)
    ensures var w := Awaited(r, round);
            && RegistryInv(w) && w.fates == r.fates && |w.muxes| == |r.muxes|
            && (forall h :: h in w.sessions ==> w.muxes[w.sessions[h]].alive || w.sessions[h] in round.waiting)
            && (forall m :: 0 <= m < |r.muxes| ==> w.muxes[m].hash == r.muxes[m].hash)
            && (forall m :: 0 <= m < |r.muxes| && m !in round.idle && m !in round.waiting ==>
                  w.muxes[m].alive == r.muxes[m].alive)
  {
    DiedAllKeeps(r, round.idle);
    var before := DiedAll(r, round.idle);
    RetainedKeeps(before);
    DiedAllKeeps(Retained(before), round.waiting);
    hide PipesOf, DiedAll;
  }

  /** What one turn does to the registry once the session hash has been read. */
  function Turn(r: Registry, round: Round, hash: U64): Registry
    requires RegistryInv(r)
  {
    AwaitedKeeps(r, round);
    EnteredKeeps(Awaited(r, round), hash);
    var (entered, m) := Entered(Awaited(r, round), hash);
    DiedAllKeeps(entered, round.attaching);
    Attached(DiedAll(entered, round.attaching), round.pipe, hash, m)
  }

  /** A turn keeps the invariant and settles the fate of its pipe: attached to the multiplexer of
      its session, or dropped exactly if that one died while the loop waited for the pipe or was
      about to attach it. */
  lemma TurnSettles(r: Registry, round: Round, hash: U64)
    requires RegistryInv(r)
    ensures var t := Turn(r, round, hash);
            && RegistryInv(t)
            && |t.fates| == |r.fates| + 1 && t.fates[..|r.fates|] == r.fates
            && var f := t.fates[|r.fates|];
               f.pipe == round.pipe && f.hash == hash && (f.attached <==> !f.died)
               && f.mux < |t.muxes| && t.muxes[f.mux].hash == hash
               && (f.attached ==>
                     t.muxes[f.mux].alive && t.muxes[f.mux].pipes == PipesOf(r.fates, f.mux) + [round.pipe])
               && (f.died ==> f.mux in round.waiting || f.mux in round.attaching)
  {
    AwaitedKeeps(r, round);
    var w := Awaited(r, round);
    EnteredKeeps(w, hash);
    var (entered, m) := Entered(w, hash);
    DiedAllKeeps(entered, round.attaching);
    AttachedKeeps(DiedAll(entered, round.attaching), round.pipe, hash, m);
    FreshEntry(w, hash, round.waiting);
    hide PipesOf, DiedAll, Awaited, Entered;
    var t := Turn(r, round, hash);
    assert t.fates == r.fates + [t.fates[|r.fates|]];
    var f := t.fates[|r.fates|];
    assert DiedAll(entered, round.attaching).muxes[m].pipes == PipesOf(r.fates, m);
  }

  lemma FreshEntry(w: Registry, hash: U64, waiting: seq<nat>)
    requires RegistryInv(w)
    requires forall h :: h in w.sessions ==> w.muxes[w.sessions[h]].alive || w.sessions[h] in waiting
    ensures var (entered, m) := Entered(w, hash); m < |entered.muxes| && (entered.muxes[m].alive || m in waiting)
  {
    hide PipesOf;
  }

  predicate Live(r: Registry, m: int) { 0 <= m < |r.muxes| && r.muxes[m].alive }

  /** The multiplexer a turn finds for session `hash`: the live one of that hash, unless it dies
      before the table is cleaned; otherwise a new one. */
  ghost predicate Finds(r: Registry, round: Round, hash: U64, m: int) {
    if exists n :: Live(r, n) && r.muxes[n].hash == hash && n !in round.idle
    then Live(r, m) && r.muxes[m].hash == hash && m !in round.idle
    else m == |r.muxes|
  }

  lemma AwaitedFinds(r: Registry, round: Round, hash: U64)
    requires RegistryInv(r)
    ensures var w := Awaited(r, round);
            && RegistryInv(w) && w.fates == r.fates && |w.muxes| == |r.muxes|
            && var m := Entered(w, hash).1;
               Finds(r, round, hash, m) && (m < |r.muxes| ==> (w.muxes[m].alive <==> m !in round.waiting))
  {
    AwaitedKeeps(r, round);
    DiedAllKills(r, round.idle);
    DiedAllKeeps(r, round.idle);
    var idle := DiedAll(r, round.idle);
    RetainedKeeps(idle);
    DiedAllKills(Retained(idle), round.waiting);
    DiedAllKeeps(Retained(idle), round.waiting);
    hide PipesOf, DiedAll;
    var w := Awaited(r, round);
    assert w.sessions == Retained(idle).sessions;
    if n :| Live(r, n) && r.muxes[n].hash == hash && n !in round.idle {
      assert Live(idle, n) && idle.muxes[n].hash == hash;
      assert hash in idle.sessions && idle.sessions[hash] == n;
    } else {
      assert hash in w.sessions ==> Live(r, w.sessions[hash]);
    }
  }

  /** A turn finds the right multiplexer, and drops the pipe exactly if that one dies while the loop
      waits for the pipe or is about to attach it. */
  lemma DroppedExactly(r: Registry, round: Round, hash: U64)
    requires RegistryInv(r)
    ensures var t := Turn(r, round, hash);
            && |t.fates| == |r.fates| + 1
            && var f := t.fates[|r.fates|];
               && Finds(r, round, hash, f.mux)
               && (!f.attached <==> f.mux in round.attaching || (f.mux in round.waiting && f.mux < |r.muxes|))
  {
    AwaitedFinds(r, round, hash);
    var w := Awaited(r, round);
    EnteredKeeps(w, hash);
    var (entered, m) := Entered(w, hash);
    DiedAllKills(entered, round.attaching);
    DiedAllKeeps(entered, round.attaching);
    EnteredAlive(w, hash);
    hide PipesOf, DiedAll, Awaited, Entered, Finds, RegistryInv;
  }

  lemma EnteredAlive(w: Registry, hash: U64)
    requires RegistryInv(w)
    ensures var (entered, m) := Entered(w, hash);
            && m < |entered.muxes|
            && (entered.muxes[m].alive <==> (m < |w.muxes| ==> w.muxes[m].alive))
  {
    hide PipesOf;
  }

  /** A reconnecting client comes back to its multiplexer as long as that does not die meanwhile. */
  lemma ReconnectsToSameMux(r: Registry, round: Round, hash: U64, m: nat)
    requires RegistryInv(r) && m < |r.muxes| && r.muxes[m].alive && r.muxes[m].hash == hash
    requires m !in round.idle && m !in round.waiting && m !in round.attaching
    ensures var t := Turn(r, round, hash);
            && m < |t.muxes| && t.muxes[m].alive && t.muxes[m].pipes == r.muxes[m].pipes + [round.pipe]
            && t.fates == r.fates + [Fate(round.pipe, hash, m, true, false)]
  {
    TurnSettles(r, round, hash);
    AwaitedKeeps(r, round);
    var w := Awaited(r, round);
    assert hash in w.sessions && w.sessions[hash] == m;
    assert Entered(w, hash) == (w, m);
    DiedAllKeeps(w, round.attaching);
    hide PipesOf, DiedAll, Awaited;
  }

  /** The session hash a turn comes to know, unless it ends the loop. */
  function HashOf(cipher: Cipher, key: Bytes, round: Round): Option<U64> {
    if round.accepted then SessionOf(cipher, key, round.text) else None
  }

  /** The registry after a number of turns; the loop ends when accepting fails and at an unreadable
      key. */
  function Turns(cipher: Cipher, key: Bytes, rounds: seq<Round>): (r: Option<Registry>)
    ensures r.Some? ==> RegistryInv(r.value)
  {
    if rounds == [] then Some(EmptyRegistry)
    else
      var last := rounds[|rounds| - 1];
      match (Turns(cipher, key, rounds[..|rounds| - 1]), HashOf(cipher, key, last))
      case (Some(r), Some(hash)) => TurnSettles(r, last, hash); Some(Turn(r, last, hash))
      case _ => None
  }

  /** At most one live multiplexer per session hash: in every registry the loop can reach, whatever
      dies in the meantime, cleaning the table leaves exactly the hashes of the live multiplexers in
      it, each with the only live one of that hash. */
  lemma OneLivePerHash(cipher: Cipher, key: Bytes, rounds: seq<Round>, dead: seq<nat>)
    requires Turns(cipher, key, rounds).Some?
    ensures var r := DiedAll(Turns(cipher, key, rounds).value, dead);
            && WellFormed(r)
            && (forall i, j :: Live(r, i) && Live(r, j) && r.muxes[i].hash == r.muxes[j].hash ==> i == j)
            && (forall h, m :: (h in Retained(r).sessions && Retained(r).sessions[h] == m)
                  <==> Live(r, m) && r.muxes[m].hash == h)
  {
    DiedAllKeeps(Turns(cipher, key, rounds).value, dead);
    var r := DiedAll(Turns(cipher, key, rounds).value, dead);
    hide Turns, DiedAll, PipesOf;
    forall i, j | Live(r, i) && Live(r, j) && r.muxes[i].hash == r.muxes[j].hash ensures i == j {
      assert r.sessions[r.muxes[i].hash] == i;
    }
  }

  /** Some client of the session can have sent this key. */
  ghost predicate MadeFor(cipher: Cipher, key: Bytes, text: string, hash: U64) {
    exists nonce: Nonce :: text == KeyText(cipher, key, nonce, hash)
  }

  /** Every accepted pipe has its fate, in order, under the session its key was made for. */
  ghost predicate AllServed(cipher: Cipher, key: Bytes, rounds: seq<Round>, fates: seq<Fate>) {
    && |fates| == |rounds|
    && forall i :: 0 <= i < |rounds| ==>
         fates[i].pipe == rounds[i].pipe && MadeFor(cipher, key, rounds[i].text, fates[i].hash)
  }

  lemma ServedOneMore(cipher: Cipher, key: Bytes, rounds: seq<Round>, fates: seq<Fate>)
    requires rounds != [] && |fates| == |rounds|
    requires AllServed(cipher, key, rounds[..|rounds| - 1], fates[..|fates| - 1])
    requires var i := |rounds| - 1;
             fates[i].pipe == rounds[i].pipe && MadeFor(cipher, key, rounds[i].text, fates[i].hash)
    ensures AllServed(cipher, key, rounds, fates)
  {
    hide MadeFor;
    var n := |rounds| - 1;
    forall i | 0 <= i < |rounds|
      ensures fates[i].pipe == rounds[i].pipe && MadeFor(cipher, key, rounds[i].text, fates[i].hash)
    {
      if i < n {
        assert fates[i] == fates[..n][i] && rounds[i] == rounds[..n][i];
      }
    }
  }

  /** The loop goes on exactly as long as accepting succeeds and every key is one a listener lets
      through.  Every pipe is attached to the multiplexer of the session its key was made for, or
      was dropped because that one had just died; and the invariant holds throughout. */
  lemma {:induction false} SessionSafety(cipher: Cipher, key: Bytes, rounds: seq<Round>)
    ensures Turns(cipher, key, rounds).Some?
            <==> forall i :: 0 <= i < |rounds| ==> rounds[i].accepted && CheckKey(Some(rounds[i].text)).Some?
    ensures Turns(cipher, key, rounds).Some? ==>
              var r := Turns(cipher, key, rounds).value; RegistryInv(r) && AllServed(cipher, key, rounds, r.fates)
  {
    hide SessionOf, KeyText, CheckKey, RegistryInv, PipesOf, Turn;
    if rounds != [] {
      var before, last := rounds[..|rounds| - 1], rounds[|rounds| - 1];
      assert forall i :: 0 <= i < |before| ==> before[i] == rounds[i];
      SessionSafety(cipher, key, before);
      hide AllServed;
      CheckAgrees(cipher, key, last.text);
      if Turns(cipher, key, rounds).Some? {
        var hash := SessionOf(cipher, key, last.text).value;
        SessionExactly(cipher, key, last.text, hash);
        assert MadeFor(cipher, key, last.text, hash);
        var p := Turns(cipher, key, before).value;
        TurnSettles(p, last, hash);
        assert |p.fates| == |before| by { ServedCount(cipher, key, before, p.fates); }
        var fates := Turn(p, last, hash).fates;
        assert fates[..|fates| - 1] == p.fates;
        ServedOneMore(cipher, key, rounds, fates);
      }
    }
  }

  lemma ServedCount(cipher: Cipher, key: Bytes, rounds: seq<Round>, fates: seq<Fate>)
    requires AllServed(cipher, key, rounds, fates)
    ensures |fates| == |rounds|
  {
  }

  /** From the listener to the sessions.  In every run of the listener, let the server loop turn on
      the pipes handed out, reading each key from the address of its pipe: the loop never ends, no
      connection is served twice, and each is served under the session for which the key was made
      that its own client presented. */
  lemma ListenerFeedsServer(cipher: Cipher, key: Bytes, es: seq<Listener.Event>, rounds: seq<Round>)
    requires Listener.Exec(es).Some?
    requires |rounds| <= |Listener.Exec(es).value.yielded|
    requires forall i :: 0 <= i < |rounds| ==>
               var p := Listener.Exec(es).value.yielded[i];
               rounds[i].accepted && rounds[i].pipe == p.conn
               && SplitAtLastHash(PeerUrl("", p.key)) == Some(("", rounds[i].text))
    ensures Turns(cipher, key, rounds).Some?
    ensures var r := Turns(cipher, key, rounds).value;
            && RegistryInv(r) && AllServed(cipher, key, rounds, r.fates)
            && (forall i, j :: 0 <= i < j < |rounds| ==> r.fates[i].pipe != r.fates[j].pipe)
            && forall i :: 0 <= i < |rounds| ==>
                 Listener.Callback(r.fates[i].pipe, Some(rounds[i].text)) in es
  {
    Listener.PipesAreGenuine(es);
    Listener.PipesCarryTheirKeys(es);
    var pipes := Listener.Exec(es).value.yielded;
    hide SplitAtLastHash, PeerUrl, CheckKey, RegistryInv, MadeFor, Turns;
    forall i | 0 <= i < |rounds|
      ensures CheckKey(Some(rounds[i].text)).Some? && rounds[i].pipe == pipes[i].conn
      ensures Listener.Callback(rounds[i].pipe, Some(rounds[i].text)) in es
    {
      PeerUrlSplits("", pipes[i].key);
      assert pipes[i] in pipes;
    }
    SessionSafety(cipher, key, rounds);
  }

  // ---------------------------------------------------------------- the loop as it runs

  lemma TurnsHalt(cipher: Cipher, key: Bytes, rounds: seq<Round>, n: nat)
    requires n <= |rounds| && Turns(cipher, key, rounds[..n]).None?
    ensures Turns(cipher, key, rounds).None?
    decreases |rounds|
  {
    if n < |rounds| {
      assert rounds[..|rounds| - 1][..n] == rounds[..n];
      TurnsHalt(cipher, key, rounds[..|rounds| - 1], n);
    } else {
      assert rounds[..n] == rounds;
    }
  }

  class SessionServer {
    var sessions: map<U64, nat>
    var muxes: seq<Mux>
    ghost var stale: set<nat>
    ghost var fates: seq<Fate>

    constructor ()
      ensures State() == EmptyRegistry
    {
      sessions, muxes, stale, fates := map[], [], {}, [];
    }

    ghost function State(): Registry
      reads this
    {
      Registry(sessions, muxes, stale, fates)
    }

    /** Removes the entries of dead multiplexers, one key after the other. */
    method Retain()
      requires WellFormed(State())
      modifies this
      ensures State() == Retained(old(State()))
    {
      var todo := sessions.Keys;
      while todo != {}
        invariant todo <= sessions.Keys && WellFormed(State())
        invariant muxes == old(muxes) && fates == old(fates)
        invariant sessions ==
                  map h | h in old(sessions) && (h in todo || muxes[old(sessions)[h]].alive) :: old(sessions)[h]
        decreases todo
      {
        var h :| h in todo;
        if !muxes[sessions[h]].alive {
          sessions := sessions - {h};
        }
        todo := todo - {h};
      }
      stale := {};
    }

    /** The entry of a session, inserted with a new multiplexer when it is vacant. */
    method EntryOrInsert(hash: U64) returns (m: nat)
      modifies this
      ensures (State(), m) == Entered(old(State()), hash)
    {
      if hash in sessions {
        m := sessions[hash];
      } else {
        m := |muxes|;
        muxes := muxes + [Mux(hash, true, [])];
        sessions := sessions[hash := m];
      }
    }

    /** Upgrades the weak reference and adds the pipe, or lets the pipe go. */
    method AddPipe(pipe: nat, hash: U64, m: nat)
      requires m < |muxes|
      modifies this
      ensures State() == Attached(old(State()), pipe, hash, m)
    {
      fates := fates + [Fate(pipe, hash, m, muxes[m].alive, m in stale)];
      var mux := muxes[m];
      var more := if mux.alive then [pipe] else [];
      muxes := muxes[m := mux.(pipes := mux.pipes + more)];
    }

    /** The session tasks of `ms` end. */
    method EndSessions(ms: seq<nat>)
      modifies this
      ensures State() == DiedAll(old(State()), ms)
    {
      assert ms[..0] == [];
      for i := 0 to |ms|
        invariant State() == DiedAll(old(State()), ms[..i])
      {
        assert ms[..i + 1][..i] == ms[..i];
        if ms[i] < |muxes| {
          muxes := muxes[ms[i] := muxes[ms[i]].(alive := false)];
          stale := stale + {ms[i]};
        }
      }
      assert ms[..|ms|] == ms;
    }

    /** One turn of the loop: clean the table, accept, read the session, attach. */
    method RunTurn(cipher: Cipher, key: Bytes, round: Round) returns (goesOn: bool)
      requires RegistryInv(State())
      modifies this
      ensures goesOn <==> HashOf(cipher, key, round).Some?
      ensures goesOn ==> State() == Turn(old(State()), round, HashOf(cipher, key, round).value)
    {
      hide SessionOf, DiedAll, Entered, Attached, Retained, PipesOf;
      ghost var r := State();
      DiedAllKeeps(r, round.idle);
      EndSessions(round.idle);
      Retain();
      EndSessions(round.waiting);
      if !round.accepted {
        return false;
      }
      AwaitedKeeps(r, round);
      assert State() == Awaited(r, round);
      var hash := ReadSession(cipher, key, round.text);
      if hash.None? {
        return false;
      }
      EnteredKeeps(State(), hash.value);
      var m := EntryOrInsert(hash.value);
      DiedAllKeeps(State(), round.attaching);
      EndSessions(round.attaching);
      AddPipe(round.pipe, hash.value, m);
      goesOn := true;
    }

    /** The loop: it goes on for as long as pipes are accepted and their keys can be read. */
    method Serve(cipher: Cipher, key: Bytes, rounds: seq<Round>) returns (halted: bool)
      requires State() == EmptyRegistry
      modifies this
      ensures halted <==> Turns(cipher, key, rounds).None?
      ensures !halted ==> Turns(cipher, key, rounds) == Some(State()) && RegistryInv(State())
    {
      hide SessionOf, RegistryInv, Turn;
      assert rounds[..0] == [];
      for i := 0 to |rounds|
        invariant Turns(cipher, key, rounds[..i]) == Some(State())
      {
        assert rounds[..i + 1][..i] == rounds[..i];
        var goesOn := RunTurn(cipher, key, rounds[i]);
        if !goesOn {
          TurnsHalt(cipher, key, rounds, i + 1);
          return true;
        }
      }
      assert rounds[..|rounds|] == rounds;
      halted := false;
    }
  }
}
