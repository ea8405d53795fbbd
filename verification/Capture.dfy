/**
 * The capture proxy's session: start (a check and a later commit), stop and the end of an accept
 * loop, each under the lock but in any order.
 */
module Capture {
  import opened Base

  type Address = string
  type Token = nat
  type Exchange = nat

  const U64: nat := 0x1_0000_0000_0000_0000
  const MAX_EXCHANGES: nat := 500

  datatype Session = Session(running: bool, bind: Option<Address>, shutdown: Option<Token>, generation: nat)

  function Wrap(serial: nat): (g: nat)
    ensures g < U64
  {
    serial % U64
  }

  function Committed(s: Session, bind: Address, token: Token): Session {
    Session(true, Some(bind), Some(token), Wrap(s.generation + 1))
  }

  function Stopped(s: Session): Session {
    Session(false, None, None, Wrap(s.generation + 1))
  }

  function Exited(s: Session, generation: nat): Session {
    if s.generation == generation then Session(false, None, None, s.generation) else s
  }

  /** The newest of a history that are kept. */
  function Newest(all: seq<Exchange>): seq<Exchange> {
    if |all| <= MAX_EXCHANGES then all else all[|all| - MAX_EXCHANGES..]
  }

  /** What is kept is the end of the history: all of it, or the last 500. */
  lemma NewestAre(all: seq<Exchange>)
    ensures |Newest(all)| == if |all| <= MAX_EXCHANGES then |all| else MAX_EXCHANGES
    ensures all == all[..|all| - |Newest(all)|] + Newest(all)
  {}

  class CaptureProxy {
    var running: bool
    var bind: Option<Address>
    var shutdown: Option<Token>
    var generation: nat
    var exchanges: seq<Exchange>
    /** Everything recorded since the last clear. */
    ghost var recorded: seq<Exchange>

    ghost function View(): Session reads this { Session(running, bind, shutdown, generation) }

    ghost predicate Valid() reads this {
      && (running <==> bind.Some?) && (running <==> shutdown.Some?)
      && generation < U64 && exchanges == Newest(recorded)
    }

    constructor ()
      ensures Valid() && View() == Session(false, None, None, 0) && recorded == []
    {
      running, bind, shutdown, generation, exchanges, recorded := false, None, None, 0, [], [];
    }

    /** The first half of a start: remote addresses need permission, a running session is kept. */
    method StartCheck(loopback: bool, allowRemote: bool) returns (proceed: bool)
      requires Valid()
      ensures proceed <==> (allowRemote || loopback) && !running
    {
      if !allowRemote && !loopback {
        return false;
      }
      proceed := !running;
    }

    method StartCommit(actual: Address, token: Token) returns (mine: nat)
      requires Valid()
      modifies this
      ensures Valid() && recorded == old(recorded)
      ensures View() == Committed(old(View()), actual, token) && mine == generation
    {
      generation := (generation + 1) % U64;
      running, bind, shutdown := true, Some(actual), Some(token);
      mine := generation;
    }

    /** The token is handed back to be cancelled after the lock is released. */
    method Stop() returns (token: Option<Token>)
      requires Valid()
      modifies this
      ensures Valid() && recorded == old(recorded)
      ensures View() == Stopped(old(View())) && token == old(shutdown)
    {
      generation := (generation + 1) % U64;
      token := shutdown;
      running, bind, shutdown := false, None, None;
    }

    method AcceptLoopEnded(mine: nat)
      requires Valid()
      modifies this
      ensures Valid() && recorded == old(recorded)
      ensures View() == Exited(old(View()), mine)
    {
      if generation == mine {
        running, bind, shutdown := false, None, None;
      }
    }

    /** At most 500 exchanges are kept: always the newest ones, in order. */
    method Record(value: Exchange)
      requires Valid()
      modifies this
      ensures Valid() && recorded == old(recorded) + [value] && View() == old(View())
      ensures |exchanges| <= MAX_EXCHANGES
    {
      if |exchanges| >= MAX_EXCHANGES {
        exchanges := exchanges[1..];
      }
      exchanges := exchanges + [value];
      recorded := recorded + [value];
    }

    method Clear()
      requires Valid()
      modifies this
      ensures Valid() && recorded == [] && exchanges == [] && View() == old(View())
    {
      exchanges, recorded := [], [];
    }
  }

  // ----- interleavings -----

  /** An accept loop, by the number of starts and stops up to its own start. */
  datatype Listener = Listener(serial: nat, bind: Address, token: Token)

  /**
   * The session with what surrounds it: starts and stops so far, accept loops not yet ended, starts
   * between check and commit, tokens taken by a stop, cancelled tokens, all tokens ever made, and
   * accept loops whose token another start overwrote.
   */
  datatype World = World(
    session: Session, serial: nat, live: set<Listener>, starting: nat,
    stopping: set<Token>, cancelled: set<Token>, made: set<Token>, orphans: set<Listener>)

  datatype Event =
    | Check
    | Fail
    | Commit(bind: Address, token: Token)
    | Stop
    | Cancel(token: Token)
    | End(listener: Listener)

  const Initial: World := World(Session(false, None, None, 0), 0, {}, 0, {}, {}, {}, {})

  /** Tokens are new; an accept loop does not outlast 2^64 starts and stops. */
  predicate Allowed(w: World, e: Event) {
    match e
    case Check => true
    case Fail => w.starting > 0
    case Commit(_, token) => w.starting > 0 && token !in w.made
    case Stop => true
    case Cancel(token) => token in w.stopping
    case End(listener) => listener in w.live && w.serial < listener.serial + U64
  }

  function Current(w: World): set<Listener> {
    if w.session.running && w.session.bind.Some? && w.session.shutdown.Some?
    then {Listener(w.serial, w.session.bind.value, w.session.shutdown.value)} else {}
  }

  function Apply(w: World, e: Event): World {
    match e
    case Check => if w.session.running then w else w.(starting := w.starting + 1)
    case Fail => if w.starting > 0 then w.(starting := w.starting - 1) else w
    case Commit(bind, token) =>
      w.(session := Committed(w.session, bind, token), serial := w.serial + 1,
         live := w.live + {Listener(w.serial + 1, bind, token)}, starting := if w.starting > 0 then w.starting - 1 else 0,
         made := w.made + {token}, orphans := w.orphans + Current(w))
    case Stop =>
      w.(session := Stopped(w.session), serial := w.serial + 1,
         stopping := if w.session.shutdown.Some? then w.stopping + {w.session.shutdown.value} else w.stopping)
    case Cancel(token) => w.(stopping := w.stopping - {token}, cancelled := w.cancelled + {token})
    case End(listener) =>
      w.(session := Exited(w.session, Wrap(listener.serial)), live := w.live - {listener})
  }

  predicate Together(s: Session) {
    (s.running <==> s.bind.Some?) && (s.running <==> s.shutdown.Some?)
  }

  /** Told to stop: its token was taken by a stop, and perhaps cancelled already. */
  predicate Told(w: World, token: Token) {
    token in w.stopping || token in w.cancelled
  }

  /** Every accept loop is the session's own, was told to stop, or lost its token to a racing start. */
  ghost predicate Accounted(w: World, listener: Listener) {
    listener in Current(w) || Told(w, listener.token) || listener in w.orphans
  }

  /** Tokens are not shared, the session's own token is untold, and an orphan's token is out of reach. */
  ghost predicate TokensApart(w: World) {
    && (forall l, m :: l in w.live && m in w.live && l.token == m.token ==> l == m)
    && (forall t :: Told(w, t) ==> t in w.made)
    && (w.session.shutdown.Some? ==> w.session.shutdown.value in w.made && !Told(w, w.session.shutdown.value))
    && (forall l :: l in w.orphans ==> l.token in w.made && !Told(w, l.token) && w.session.shutdown != Some(l.token))
  }

  ghost predicate Invariant(w: World) {
    && Together(w.session)
    && w.session.generation == Wrap(w.serial)
    && Current(w) <= w.live
    && (forall l :: l in w.live ==> l.serial <= w.serial && l.token in w.made && Accounted(w, l))
    && (forall l, m :: l in w.live && m in w.live && l.serial == m.serial ==> l == m)
    && TokensApart(w)
  }

  /** The end of an accept loop clears the session exactly when it is the session's own generation. */
  lemma EndClearsExactly(w: World, l: Listener)
    requires Invariant(w) && l in w.live && w.session.running
    ensures Apply(w, End(l)).session.running <==> (w.serial - l.serial) % U64 != 0
  {
    SameGeneration(l.serial, w.serial);
  }

  lemma SameGeneration(a: nat, b: nat)
    requires a <= b
    ensures Wrap(a) == Wrap(b) <==> (b - a) % U64 == 0
  {
    var n := U64;
    assert a == (a / n) * n + a % n;
    assert b == (b / n) * n + b % n;
  }

  /** An older accept loop never touches a newer session. */
  lemma OlderEndKeepsSession(w: World, l: Listener)
    requires Invariant(w) && Allowed(w, End(l)) && l.serial != w.serial
    ensures Apply(w, End(l)).session == w.session
  {
    SameGeneration(l.serial, w.serial);
  }

  lemma StepKeepsTokens(w: World, e: Event)
    requires Invariant(w) && Allowed(w, e)
    ensures TokensApart(Apply(w, e))
  {
    hide Accounted, Wrap;
  }

  lemma StepKeeps(w: World, e: Event)
    requires Invariant(w) && Allowed(w, e)
    ensures Invariant(Apply(w, e))
  {
    var v := Apply(w, e);
    StepKeepsTokens(w, e);
    hide TokensApart;
    match e
    case End(l) =>
      if l.serial != w.serial {
        OlderEndKeepsSession(w, l);
      }
      forall m | m in v.live ensures Accounted(v, m) {
        assert Accounted(w, m);
      }
    case Commit(_, _) =>
      SerialGrows(w);
      forall m | m in v.live ensures Accounted(v, m) {
        assert m in w.live ==> Accounted(w, m);
      }
    case Stop =>
      SerialGrows(w);
      forall m | m in v.live ensures Accounted(v, m) {
        assert Accounted(w, m);
      }
    case Cancel(_) =>
      forall m | m in v.live ensures Accounted(v, m) {
        assert Accounted(w, m);
      }
    case Check =>
    case Fail =>
  }

  lemma SerialGrows(w: World)
    requires w.session.generation == Wrap(w.serial)
    ensures Wrap(w.session.generation + 1) == Wrap(w.serial + 1)
  {}

  predicate AllowedRun(w: World, events: seq<Event>)
    decreases |events|
  {
    events == [] || (Allowed(w, events[0]) && AllowedRun(Apply(w, events[0]), events[1..]))
  }

  function Run(w: World, events: seq<Event>): World
    decreases |events|
  {
    if events == [] then w else Run(Apply(w, events[0]), events[1..])
  }

  lemma {:induction false} RunKeeps(w: World, events: seq<Event>)
    requires Invariant(w) && AllowedRun(w, events)
    ensures Invariant(Run(w, events))
    decreases |events|
  {
    if events != [] {
      StepKeeps(w, events[0]);
      RunKeeps(Apply(w, events[0]), events[1..]);
    }
  }

  lemma InitialInvariant()
    ensures Invariant(Initial)
  {}

  /**
   * Under every interleaving: the three fields are set or clear together, and a running session's
   * address and token are those of a live accept loop started by the session's generation.
   */
  lemma SessionOwnsListener(events: seq<Event>)
    requires AllowedRun(Initial, events)
    ensures var w := Run(Initial, events);
            && Together(w.session)
            && w.session.generation == Wrap(w.serial)
            && (w.session.running ==> Listener(w.serial, w.session.bind.value, w.session.shutdown.value) in w.live)
  {
    InitialInvariant();
    RunKeeps(Initial, events);
    assert forall l :: l in Current(Run(Initial, events)) ==> l in Run(Initial, events).live;
  }

  // ----- racing starts -----

  /** At most one accept loop is running that nobody told to stop. */
  ghost predicate OneUntold(w: World) {
    forall l, m :: l in w.live && m in w.live && !Told(w, l.token) && !Told(w, m.token) ==> l == m
  }

  /** In every state of the run, from the first to the last. */
  ghost predicate AlwaysOneUntold(w: World, events: seq<Event>)
    decreases |events|
  {
    OneUntold(w) && (events == [] || AlwaysOneUntold(Apply(w, events[0]), events[1..]))
  }

  /** No start commits while a session is running. */
  predicate NeverRaces(w: World, events: seq<Event>)
    decreases |events|
  {
    events == [] || ((events[0].Commit? ==> !w.session.running) && NeverRaces(Apply(w, events[0]), events[1..]))
  }

  lemma NoOrphansOneUntold(w: World)
    requires Invariant(w) && w.orphans == {}
    ensures OneUntold(w)
  {
    forall l, m | l in w.live && m in w.live && !Told(w, l.token) && !Told(w, m.token) ensures l == m {
      assert Accounted(w, l) && Accounted(w, m);
    }
  }

  /** A commit while a session runs leaves two accept loops that nobody told to stop. */
  lemma RaceLeavesTwo(w: World, bind: Address, token: Token)
    requires Invariant(w) && Allowed(w, Commit(bind, token)) && w.session.running
    ensures !OneUntold(Apply(w, Commit(bind, token)))
  {
    var v := Apply(w, Commit(bind, token));
    var first := Listener(w.serial, w.session.bind.value, w.session.shutdown.value);
    var second := Listener(w.serial + 1, bind, token);
    assert first in Current(w);
    assert first in v.live && second in v.live && first != second;
    assert !Told(v, first.token) && !Told(v, second.token);
  }

  lemma {:induction false} OneUntoldFrom(w: World, events: seq<Event>)
    requires Invariant(w) && w.orphans == {} && AllowedRun(w, events)
    ensures AlwaysOneUntold(w, events) <==> NeverRaces(w, events)
    decreases |events|
  {
    NoOrphansOneUntold(w);
    if events != [] {
      var e := events[0];
      StepKeeps(w, e);
      if e.Commit? && w.session.running {
        RaceLeavesTwo(w, e.bind, e.token);
      } else {
        assert Apply(w, e).orphans == {};
        OneUntoldFrom(Apply(w, e), events[1..]);
      }
    }
  }

  /**
   * In every state of a run at most one accept loop runs that was not told to stop, if and only if no
   * start commits while a session is running.
   */
  lemma OneUntoldExactly(events: seq<Event>)
    requires AllowedRun(Initial, events)
    ensures AlwaysOneUntold(Initial, events) <==> NeverRaces(Initial, events)
  {
    InitialInvariant();
    OneUntoldFrom(Initial, events);
  }

  lemma {:induction false} OrphanStays(w: World, l: Listener, events: seq<Event>)
    requires Invariant(w) && l in w.orphans && AllowedRun(w, events)
    ensures !Told(Run(w, events), l.token)
    ensures l in w.live && End(l) !in events ==> l in Run(w, events).live
    decreases |events|
  {
    if events != [] {
      StepKeeps(w, events[0]);
      OrphanStays(Apply(w, events[0]), l, events[1..]);
    }
  }

  /**
   * A start that commits while a session runs puts that session's accept loop out of reach: however
   * often the proxy is stopped afterwards, its token is never cancelled, and it lives until it ends by
   * itself.
   */
  lemma RacedListenerUnreachable(before: seq<Event>, bind: Address, token: Token, after: seq<Event>)
    requires AllowedRun(Initial, before) && Run(Initial, before).session.running
    requires Allowed(Run(Initial, before), Commit(bind, token))
    requires AllowedRun(Apply(Run(Initial, before), Commit(bind, token)), after)
    ensures var w := Run(Initial, before);
            && w.session.bind.Some? && w.session.shutdown.Some?
            && var l := Listener(w.serial, w.session.bind.value, w.session.shutdown.value);
               var end := Run(Apply(w, Commit(bind, token)), after);
               l in w.live && !Told(end, l.token) && (End(l) !in after ==> l in end.live)
  {
    InitialInvariant();
    RunKeeps(Initial, before);
    var w := Run(Initial, before);
    StepKeeps(w, Commit(bind, token));
    var l := Listener(w.serial, w.session.bind.value, w.session.shutdown.value);
    assert l in Current(w);
    OrphanStays(Apply(w, Commit(bind, token)), l, after);
  }

  /** Such runs exist: two checks may pass before either start commits. */
  lemma RaceHappens(a: Address, b: Address, s: Token, t: Token)
    requires s != t
    ensures AllowedRun(Initial, [Check, Check, Commit(a, s), Commit(b, t)])
    ensures !NeverRaces(Initial, [Check, Check, Commit(a, s), Commit(b, t)])
  {
    var e := [Check, Check, Commit(a, s), Commit(b, t)];
    var w1 := Apply(Initial, Check);
    var w2 := Apply(w1, Check);
    var w3 := Apply(w2, Commit(a, s));
    var w4 := Apply(w3, Commit(b, t));
    assert e[1..] == [Check, Commit(a, s), Commit(b, t)] && e[1..][1..] == [Commit(a, s), Commit(b, t)];
    assert e[1..][1..][1..] == [Commit(b, t)] && e[1..][1..][1..][1..] == [];
    assert AllowedRun(w4, []);
    assert AllowedRun(w3, [Commit(b, t)]) && !NeverRaces(w3, [Commit(b, t)]);
    assert AllowedRun(w2, e[1..][1..]) && !NeverRaces(w2, e[1..][1..]);
    assert AllowedRun(w1, e[1..]) && !NeverRaces(w1, e[1..]);
  }
}
