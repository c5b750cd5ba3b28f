/** The cross-thread hand-off both ends use: any number of producers push a
    command and then write an eventfd; the loop polls the eventfd, reads it and
    drains the queue (server/Server.cpp:51-54, 97-110, 197-205,
    client/Connection.cpp:163-180, 243-251). */
module HandOff {

  /** core/ConcurrentQueue.hpp: every method runs under the mutex, so each is one
      atomic step on the queue. */
  class ConcurrentQueue<T> {
    var items: seq<T>

    constructor ()
      ensures items == []
    {
      items := [];
    }

    method Push(value: T)
      modifies this
      ensures items == old(items) + [value]
    {
      items := items + [value];
    }

    method TryPop(out: T) returns (ok: bool, front: T)
      modifies this
      ensures ok <==> old(items) != []
      ensures if ok then old(items) == [front] + items else items == old(items) && front == out
    {
      if items == [] {
        return false, out;
      }
      front := items[0];
      items := items[1..];
      return true, front;
    }

    method Clear()
      modifies this
      ensures items == []
    {
      items := [];
    }
  }

  /** Where the loop is: blocked in or about to enter epoll_wait, told that the
      eventfd is readable, popping, or ended by an exception. */
  datatype Phase = Polling | Told | Draining | Ended

  /** A command that left the queue: popped and handled, or else thrown away by
      clear() or lost to the exception its handling raised. */
  datatype Gone = Gone(command: nat, handled: bool)

  /** `inFlight` are the producers between their push and their write. */
  datatype Hand = Hand(
    queue: seq<nat>, counter: nat, inFlight: set<nat>, phase: Phase,
    pushed: seq<nat>, gone: seq<Gone>)

  const START: Hand := Hand([], 0, {}, Polling, [], [])

  /** A non-blocking write of 1 fails when the counter is at its maximum. */
  const COUNTER_MAX: nat := 0xFFFF_FFFF_FFFF_FFFE

  datatype Event =
    | Push(producer: nat, command: nat)
    | Wake(producer: nat)
    | Discard(producer: nat)
    | Poll
    | ReadCounter
    | Pop
    | DrainEnd

  predicate Enabled(s: Hand, e: Event) {
    match e
    case Push(p, _) => p !in s.inFlight
    case Wake(p) => p in s.inFlight
    case Discard(p) => p !in s.inFlight
    case Poll => s.phase == Polling && s.counter > 0
    case ReadCounter => s.phase == Told
    case Pop => s.phase == Draining && s.queue != []
    case DrainEnd => s.phase == Draining && s.queue == []
  }

  function Leave(cs: seq<nat>, handled: bool): (g: seq<Gone>)
    ensures |g| == |cs| && forall i :: 0 <= i < |cs| ==> g[i] == Gone(cs[i], handled)
  {
    seq(|cs|, i requires 0 <= i < |cs| => Gone(cs[i], handled))
  }

  /** Handling a command may throw, and neither loop catches: the server's default
      error handler throws for a connection that is gone (server/Server.cpp:36-42,
      270-272), the client's sending does when encryption fails. `fatal` tells
      which commands do when they are popped. */
  function Apply(fatal: nat -> bool, s: Hand, e: Event): Hand
    requires Enabled(s, e)
  {
    match e
    case Push(p, c) => s.(queue := s.queue + [c], inFlight := s.inFlight + {p}, pushed := s.pushed + [c])
    case Wake(p) =>
      s.(counter := if s.counter >= COUNTER_MAX then s.counter else s.counter + 1, inFlight := s.inFlight - {p})
    case Discard(p) => s.(queue := [], inFlight := s.inFlight + {p}, gone := s.gone + Leave(s.queue, false))
    case Poll => s.(phase := Told)
    case ReadCounter => s.(counter := 0, phase := Draining)
    case Pop =>
      var throws := fatal(s.queue[0]);
      s.(queue := s.queue[1..], gone := s.gone + Leave(s.queue[..1], !throws),
         phase := if throws then Ended else Draining)
    case DrainEnd => s.(phase := Polling)
  }

  ghost predicate Runnable(fatal: nat -> bool, s: Hand, es: seq<Event>)
    decreases |es|
  {
    es == [] || (Enabled(s, es[0]) && Runnable(fatal, Apply(fatal, s, es[0]), es[1..]))
  }

  ghost function Run(fatal: nat -> bool, s: Hand, es: seq<Event>): Hand
    requires Runnable(fatal, s, es)
    decreases |es|
  {
    if es == [] then s else Run(fatal, Apply(fatal, s, es[0]), es[1..])
  }

  function Commands(g: seq<Gone>): (cs: seq<nat>)
    ensures |cs| == |g| && forall i :: 0 <= i < |g| ==> cs[i] == g[i].command
  {
    seq(|g|, i requires 0 <= i < |g| => g[i].command)
  }

  /** A queued command has someone about to attend to it; commands leave in the
      order they were pushed, each once. */
  ghost predicate Inv(s: Hand) {
    && (s.queue != [] ==> s.counter > 0 || s.phase != Polling || s.inFlight != {})
    && (s.phase == Told ==> s.counter > 0)
    && Commands(s.gone) + s.queue == s.pushed
  }

  lemma ApplyKeepsInv(fatal: nat -> bool, s: Hand, e: Event)
    requires Inv(s) && Enabled(s, e)
    ensures Inv(Apply(fatal, s, e))
  {
    var t := Apply(fatal, s, e);
    match e
    case Push(p, c) =>
      assert p in t.inFlight;
      assert Commands(t.gone) + t.queue == Commands(s.gone) + s.queue + [c];
    case Discard(p) =>
      assert Commands(t.gone) == Commands(s.gone) + s.queue;
    case Pop =>
      assert Commands(t.gone) == Commands(s.gone) + s.queue[..1];
      assert Commands(t.gone) + t.queue == Commands(s.gone) + (s.queue[..1] + s.queue[1..]);
    case _ =>
  }

  lemma {:induction false} RunKeepsInv(fatal: nat -> bool, s: Hand, es: seq<Event>)
    requires Inv(s) && Runnable(fatal, s, es)
    ensures Inv(Run(fatal, s, es))
    decreases |es|
  {
    if es != [] {
      ApplyKeepsInv(fatal, s, es[0]);
      RunKeepsInv(fatal, Apply(fatal, s, es[0]), es[1..]);
    }
  }

  /** The loop is blocked in epoll_wait. */
  predicate Blocked(s: Hand) {
    s.phase == Polling && s.counter == 0
  }

  /** No lost command: whatever the interleaving, once the loop blocks with no
      producer in flight every command pushed has left the queue, in order. */
  lemma NoLostCommand(fatal: nat -> bool, es: seq<Event>)
    requires Runnable(fatal, START, es)
    ensures var s := Run(fatal, START, es);
            Blocked(s) && s.inFlight == {} ==> s.queue == [] && Commands(s.gone) == s.pushed
  {
    assert Commands([]) == [];
    RunKeepsInv(fatal, START, es);
    var s := Run(fatal, START, es);
    if s.queue == [] {
      assert Commands(s.gone) + [] == Commands(s.gone);
    }
  }

  predicate LoopEvent(e: Event) {
    e.Poll? || e.ReadCounter? || e.Pop? || e.DrainEnd?
  }

  /** How much the loop still has to do. */
  function Work(s: Hand): nat {
    |s.queue| + (if s.counter > 0 then 4 else 0)
    + (match s.phase case Told => 0 case Ended => 0 case Polling => 1 case Draining => 2)
  }

  /** Left alone, the loop has a step exactly until it is blocked or ended, and
      every step of its own brings it nearer. */
  lemma LoopProgress(fatal: nat -> bool, s: Hand)
    requires Inv(s)
    ensures (exists e :: LoopEvent(e) && Enabled(s, e)) <==> !Blocked(s) && s.phase != Ended
    ensures forall e :: LoopEvent(e) && Enabled(s, e) ==> Work(Apply(fatal, s, e)) < Work(s)
  {
    if !Blocked(s) && s.phase != Ended {
      var e := NextOf(s);
      assert LoopEvent(e) && Enabled(s, e);
    }
  }

  /** The loop's own next step. */
  function NextOf(s: Hand): Event {
    match s.phase
    case Polling => Poll
    case Told => ReadCounter
    case _ => if s.queue == [] then DrainEnd else Pop
  }

  /** How many commands are handled before one throws. */
  function Spared(fatal: nat -> bool, cs: seq<nat>): (n: nat)
    ensures n <= |cs| && (forall i :: 0 <= i < n ==> !fatal(cs[i])) && (n < |cs| ==> fatal(cs[n]))
  {
    if cs == [] || fatal(cs[0]) then 0 else 1 + Spared(fatal, cs[1..])
  }

  /** t is where the loop alone gets from s if the first n commands are handled
      and the next one, if any, throws. */
  ghost predicate CaughtUp(s: Hand, t: Hand, n: nat)
    requires n <= |s.queue|
  {
    if n == |s.queue|
    then && Blocked(t) && t.queue == [] && t.gone == s.gone + Leave(s.queue, true)
         && Commands(t.gone) == s.pushed
    else && t.phase == Ended && t.queue == s.queue[n + 1..]
         && t.gone == s.gone + Leave(s.queue[..n], true) + Leave([s.queue[n]], false)
  }

  /** With no producer in flight the loop's own steps lead, from any reachable
      state, to one of two ends: blocked, with every queued command handled in
      order, which happens iff none of them throws; or else ended by the first
      that throws, with all commands after it still queued. */
  lemma {:induction false} LoopCatchesUp(fatal: nat -> bool, s: Hand) returns (es: seq<Event>)
    requires Inv(s) && s.inFlight == {} && s.phase != Ended
    ensures Runnable(fatal, s, es) && (forall i :: 0 <= i < |es| ==> LoopEvent(es[i])) && |es| <= Work(s)
    ensures CaughtUp(s, Run(fatal, s, es), Spared(fatal, s.queue))
    decreases Work(s)
  {
    if Blocked(s) {
      assert Commands(s.gone) + [] == Commands(s.gone);
      assert s.gone + Leave([], true) == s.gone;
      return [];
    }
    var e := NextOf(s);
    var t := Apply(fatal, s, e);
    ApplyKeepsInv(fatal, s, e);
    if t.phase == Ended {
      assert s.queue[..1] == [s.queue[0]] && s.gone + Leave([], true) == s.gone;
      assert s.queue[..0] == [];
      return [e];
    }
    var rest := LoopCatchesUp(fatal, t);
    es := [e] + rest;
    assert es[1..] == rest;
    if e.Pop? {
      PopCatchesUp(fatal, s, Run(fatal, t, rest));
    }
  }

  lemma PopCatchesUp(fatal: nat -> bool, s: Hand, u: Hand)
    requires s.phase == Draining && s.queue != [] && !fatal(s.queue[0])
    requires var t := Apply(fatal, s, Pop); CaughtUp(t, u, Spared(fatal, t.queue))
    ensures CaughtUp(s, u, Spared(fatal, s.queue))
  {
    var t := Apply(fatal, s, Pop);
    var n := Spared(fatal, t.queue);
    var first, all := Leave(s.queue[..1], true), Leave(s.queue, true);
    if n == |t.queue| {
      assert s.gone + first + Leave(t.queue, true) == s.gone + all;
    } else {
      assert s.queue[n + 1] == t.queue[n] && s.queue[n + 2..] == t.queue[n + 1..];
      assert first + Leave(t.queue[..n], true) == Leave(s.queue[..n + 1], true);
      assert s.gone + first + Leave(t.queue[..n], true) == s.gone + Leave(s.queue[..n + 1], true);
    }
  }

  /** A command whose handling throws takes the ones behind it down with it: two
      commands, pushed and woken, the first fatal. */
  lemma FatalCommandStrandsTheNext(fatal: nat -> bool, a: nat, b: nat)
    requires fatal(a)
    ensures var es := [Push(0, a), Push(1, b), Wake(0), Wake(1), Poll, ReadCounter, Pop];
            && Runnable(fatal, START, es)
            && Run(fatal, START, es).phase == Ended && Run(fatal, START, es).queue == [b]
            && Run(fatal, START, es).counter == 0 && Run(fatal, START, es).inFlight == {}
  {
    var s4 := Hand([a, b], 2, {}, Polling, [a, b], []);
    var es := [Push(0, a), Push(1, b), Wake(0), Wake(1), Poll, ReadCounter, Pop];
    var s1 := Apply(fatal, START, es[0]);
    assert s1 == Hand([a], 0, {0}, Polling, [a], []);
    var s2 := Apply(fatal, s1, es[1]);
    assert s2 == Hand([a, b], 0, {0, 1}, Polling, [a, b], []);
    var s3 := Apply(fatal, s2, es[2]);
    assert s3 == Hand([a, b], 1, {1}, Polling, [a, b], []);
    assert Apply(fatal, s3, es[3]) == s4;
    var s7 := Apply(fatal, Apply(fatal, Apply(fatal, s4, Poll), ReadCounter), Pop);
    RunStep(fatal, Apply(fatal, Apply(fatal, s4, Poll), ReadCounter), es[6..]);
    RunStep(fatal, Apply(fatal, s4, Poll), es[5..]);
    RunStep(fatal, s4, es[4..]);
    RunStep(fatal, s3, es[3..]);
    RunStep(fatal, s2, es[2..]);
    RunStep(fatal, s1, es[1..]);
    RunStep(fatal, START, es);
  }

  lemma RunStep(fatal: nat -> bool, s: Hand, es: seq<Event>)
    requires es != [] && Enabled(s, es[0])
    ensures Runnable(fatal, s, es) == Runnable(fatal, Apply(fatal, s, es[0]), es[1..])
    ensures Runnable(fatal, s, es) ==> Run(fatal, s, es) == Run(fatal, Apply(fatal, s, es[0]), es[1..])
    ensures |es| == 1 ==> Runnable(fatal, s, es) && Run(fatal, s, es) == Apply(fatal, s, es[0])
  {
  }
}
