// Network time: update_time and the stamp rule of libdaylite/src/node_impl.cpp, on the
// carry and borrow arithmetic of libdaylite/src_win/win_sys_time.c.

module Clocks {
  import opened Numbers
  import opened Packets

  const MICROS: int := 1_000_000

  /** The time as a number of microseconds. */
  function Micros(t: Time): int { MICROS * t.seconds + t.microseconds }

  predicate Normal(t: Time) { 0 <= t.microseconds < MICROS }

  /** What gettimeofday reports u microseconds after the epoch. */
  function OfMicros(u: nat): Time { Time(u / MICROS, u % MICROS) }

  function TimerAdd(a: Time, b: Time): Time {
    var res := Time(a.seconds + b.seconds, a.microseconds + b.microseconds);
    if res.microseconds > 999999 then Time(res.seconds + 1, res.microseconds - 1000000) else res
  }

  function TimerSub(a: Time, b: Time): Time {
    var res := Time(a.seconds - b.seconds, a.microseconds - b.microseconds);
    if res.microseconds < 0 then Time(res.seconds - 1, res.microseconds + 1000000) else res
  }

  /** The comparison by which a received stamp is found to be later. */
  function Later(l: Time, r: Time): bool {
    l.seconds > r.seconds || (l.seconds == r.seconds && l.microseconds > r.microseconds)
  }

  /** Carry and borrow keep the fraction normal and add and subtract exactly; the
      comparison is that of the times. */
  lemma TimerArithmetic(a: Time, b: Time)
    requires Normal(a) && Normal(b)
    ensures Normal(TimerAdd(a, b)) && Micros(TimerAdd(a, b)) == Micros(a) + Micros(b)
    ensures Normal(TimerSub(a, b)) && Micros(TimerSub(a, b)) == Micros(a) - Micros(b)
    ensures Later(a, b) <==> Micros(a) > Micros(b)
    ensures TimerAdd(TimerSub(a, b), b) == a
  {}

  lemma OfMicrosExact(u: nat)
    ensures Normal(OfMicros(u)) && Micros(OfMicros(u)) == u
  {}

  /** update_time: the time elapsed since the last reading is added, and the sum stored
      in two unsigned fields of 32 bits. */
  function Advanced(net: Time, last: Time, now: Time): Time {
    var sum := TimerAdd(net, TimerSub(now, last));
    Time(sum.seconds % U32, sum.microseconds % U32)
  }

  /** The handler of internal mail: jump to a later stamp, never back. */
  function Heeded(net: Time, stamp: Time): Time {
    if Later(stamp, net) then stamp else net
  }

  /** struct timeval. */
  class TimeVal {
    var seconds: int
    var microseconds: int

    function Value(): Time
      reads this
    {
      Time(seconds, microseconds)
    }

    constructor (t: Time)
      ensures Value() == t
    {
      seconds, microseconds := t.seconds, t.microseconds;
    }
  }

  /** timeradd; the result may be written over an operand. */
  method TimerAddInto(a: TimeVal, b: TimeVal, res: TimeVal)
    modifies res
    ensures res.Value() == TimerAdd(old(a.Value()), old(b.Value()))
  {
    res.seconds := a.seconds + b.seconds;
    res.microseconds := a.microseconds + b.microseconds;
    if res.microseconds > 999999 {
      res.seconds := res.seconds + 1;
      res.microseconds := res.microseconds - 1000000;
    }
  }

  /** timersub; the result may be written over an operand. */
  method TimerSubInto(a: TimeVal, b: TimeVal, res: TimeVal)
    modifies res
    ensures res.Value() == TimerSub(old(a.Value()), old(b.Value()))
  {
    res.seconds := a.seconds - b.seconds;
    res.microseconds := a.microseconds - b.microseconds;
    if res.microseconds < 0 {
      res.seconds := res.seconds - 1;
      res.microseconds := res.microseconds + 1000000;
    }
  }

  // ---- a network of clocks ------------------------------------------------

  /** A node's clock; its start, and the latest stamp it has handled, are history. */
  datatype Clock = Clock(net: Time, last: Time, start: nat, heard: int)

  /** All nodes read one ideal clock, which shows `now` microseconds. */
  datatype World = World(now: nat, first: nat, clocks: map<NodeId, Clock>, stamps: set<Time>)

  datatype Step =
    | Tick(elapsed: nat)
    | Start(node: NodeId)
    | Stamp(node: NodeId)                // update_time, and a packet stamped with the result
    | Handle(node: NodeId, stamp: Time)  // internal mail with a stamp issued before

  function Updated(c: Clock, now: nat): Clock {
    c.(net := Advanced(c.net, c.last, OfMicros(now)), last := OfMicros(now))
  }

  function Next(w: World, step: Step): World {
    match step
    case Tick(d) => w.(now := w.now + d)
    case Start(n) =>
      if n in w.clocks then w
      else w.(first := if w.clocks == map[] then w.now else w.first,
              clocks := w.clocks[n := Clock(Time(0, 0), OfMicros(w.now), w.now, 0)])
    case Stamp(n) =>
      if n !in w.clocks then w
      else
        var c := Updated(w.clocks[n], w.now);
        w.(clocks := w.clocks[n := c], stamps := w.stamps + {c.net})
    case Handle(n, stamp) =>
      if n !in w.clocks || stamp !in w.stamps then w
      else
        var c := Updated(w.clocks[n], w.now);
        w.(clocks := w.clocks[n := c.(net := Heeded(c.net, stamp),
                                      heard := if Micros(stamp) > c.heard then Micros(stamp) else c.heard)])
  }

  function RunFrom(w: World, steps: seq<Step>): World
    decreases |steps|
  {
    if steps == [] then w else RunFrom(Next(w, steps[0]), steps[1..])
  }

  const ORIGIN: World := World(0, 0, map[], {})

  /** A node's network time, corrected by the elapsed time it has not read yet. */
  function Corrected(c: Clock, now: nat): int {
    Micros(c.net) + now - Micros(c.last)
  }

  ghost predicate ClockOk(c: Clock, w: World) {
    && Normal(c.net) && Normal(c.last) && 0 <= Micros(c.net)
    && Micros(c.last) <= w.now && w.first <= c.start
    && w.now - c.start <= Corrected(c, w.now) <= w.now - w.first
    && c.heard <= Micros(c.net)
  }

  ghost predicate WorldOk(w: World) {
    && (w.clocks != map[] ==> w.first <= w.now)
    && (forall n | n in w.clocks :: ClockOk(w.clocks[n], w))
    && (forall s | s in w.stamps :: w.clocks != map[] && Normal(s) && 0 <= Micros(s) <= w.now - w.first)
  }

  /** The ideal clock has not reached 2^32 seconds. */
  predicate NoWrap(w: World) { w.now < MICROS * U32 }

  /** Reading the clock leaves the corrected time as it was, and nothing unread. */
  lemma UpdateKeepsCorrected(c: Clock, w: World)
    requires ClockOk(c, w) && NoWrap(w)
    ensures var c' := Updated(c, w.now);
            && Normal(c'.net) && Micros(c'.net) == Corrected(c, w.now) >= Micros(c.net)
            && c'.last == OfMicros(w.now) && ClockOk(c', w)
  {
    hide Advanced, Normal, OfMicros;
    OfMicrosExact(w.now);
    AdvancedExact(c.net, c.last, OfMicros(w.now));
  }

  /** Within 32 bits of seconds update_time adds exactly the elapsed time. */
  lemma AdvancedExact(net: Time, last: Time, now: Time)
    requires Normal(net) && Normal(last) && Normal(now)
    requires 0 <= Micros(net) + Micros(now) - Micros(last) < MICROS * U32
    ensures Normal(Advanced(net, last, now))
    ensures Micros(Advanced(net, last, now)) == Micros(net) + Micros(now) - Micros(last)
  {
    hide TimerAdd, TimerSub;
    var d := TimerSub(now, last);
    TimerArithmetic(now, last);
    TimerArithmetic(net, d);
    InRange32(TimerAdd(net, d));
  }

  /** And without: what is stored is that sum, modulo 2^32 seconds. */
  lemma AdvancedModulo(net: Time, last: Time, now: Time)
    requires Normal(net) && Normal(last) && Normal(now)
    ensures Normal(Advanced(net, last, now)) && 0 <= Advanced(net, last, now).seconds < 0x1_0000_0000
    ensures Micros(Advanced(net, last, now))
         == (Micros(net) + Micros(now) - Micros(last)) % (1_000_000 * 0x1_0000_0000)
  {
    var sum := TimerAdd(net, TimerSub(now, last));
    TimerArithmetic(now, last);
    TimerArithmetic(net, TimerSub(now, last));
    CutSeconds(sum.seconds, sum.microseconds);
  }

  lemma CutSeconds(s: int, u: int)
    requires 0 <= u < MICROS
    ensures MICROS * (s % U32) + u == (MICROS * s + u) % (1_000_000 * 0x1_0000_0000)
  {
    var q, r := s / U32, s % U32;
    assert MICROS * s + u == (1_000_000 * 0x1_0000_0000) * q + (MICROS * r + u);
  }

  lemma InRange32(t: Time)
    requires Normal(t) && 0 <= Micros(t) < MICROS * U32
    ensures t.seconds % U32 == t.seconds && t.microseconds % U32 == t.microseconds
  {
    assert 0 <= t.seconds < U32;
  }

  lemma StepKeeps(w: World, step: Step)
    requires WorldOk(w) && NoWrap(Next(w, step))
    ensures WorldOk(Next(w, step))
  {
    hide Advanced, TimerAdd, TimerSub, OfMicros, Normal;
    match step
    case Tick(d) =>
    case Start(n) =>
      if n !in w.clocks {
        OfMicrosExact(w.now);
        assert Normal(Time(0, 0)) by { ZeroNormal(); }
      }
    case Stamp(n) =>
      if n in w.clocks {
        UpdateKeepsCorrected(w.clocks[n], w);
      }
    case Handle(n, stamp) =>
      if n in w.clocks && stamp in w.stamps {
        UpdateKeepsCorrected(w.clocks[n], w);
        TimerArithmetic(stamp, Updated(w.clocks[n], w.now).net);
        OfMicrosExact(w.now);
      }
  }

  lemma ZeroNormal()
    ensures Normal(Time(0, 0))
  {}

  /** One step never sets a node's time back, read or unread. */
  lemma StepForward(w: World, step: Step, n: NodeId)
    requires WorldOk(w) && NoWrap(Next(w, step)) && n in w.clocks
    ensures var w' := Next(w, step);
            && n in w'.clocks && w.now <= w'.now
            && Micros(w.clocks[n].net) <= Micros(w'.clocks[n].net)
            && Corrected(w.clocks[n], w.now) <= Corrected(w'.clocks[n], w'.now)
            && w.clocks[n].heard <= w'.clocks[n].heard && w'.clocks[n].start == w.clocks[n].start
  {
    hide Advanced, TimerAdd, TimerSub, OfMicros, Normal;
    UpdateKeepsCorrected(w.clocks[n], w);
    OfMicrosExact(w.now);
    if step.Handle? && step.node == n && step.stamp in w.stamps {
      TimerArithmetic(step.stamp, Updated(w.clocks[n], w.now).net);
    }
  }

  lemma {:induction false} TimePasses(w: World, steps: seq<Step>)
    ensures w.now <= RunFrom(w, steps).now
    decreases |steps|
  {
    if steps != [] {
      TimePasses(Next(w, steps[0]), steps[1..]);
    }
  }

  lemma {:induction false} RunKeeps(w: World, steps: seq<Step>)
    requires WorldOk(w) && NoWrap(RunFrom(w, steps))
    ensures WorldOk(RunFrom(w, steps))
    decreases |steps|
  {
    hide WorldOk, Next;
    if steps != [] {
      TimePasses(Next(w, steps[0]), steps[1..]);
      StepKeeps(w, steps[0]);
      RunKeeps(Next(w, steps[0]), steps[1..]);
    }
  }

  /** In every reachable state a node's corrected network time lies between the time
      since its own start and the time since the first start of any node, and is at
      least every stamp it has handled. */
  lemma ClockEnvelope(steps: seq<Step>, n: NodeId)
    requires NoWrap(RunFrom(ORIGIN, steps)) && n in RunFrom(ORIGIN, steps).clocks
    ensures var w := RunFrom(ORIGIN, steps);
            var c := w.clocks[n];
            w.now - c.start <= Corrected(c, w.now) <= w.now - w.first && c.heard <= Corrected(c, w.now)
  {
    RunKeeps(ORIGIN, steps);
  }

  /** Over every run a node's time never goes back, and stays at or above every stamp
      it has handled on the way. */
  lemma {:induction false} ClockNeverGoesBack(w: World, steps: seq<Step>, n: NodeId)
    requires WorldOk(w) && NoWrap(RunFrom(w, steps)) && n in w.clocks
    ensures var w' := RunFrom(w, steps);
            && n in w'.clocks
            && Micros(w.clocks[n].net) <= Micros(w'.clocks[n].net)
            && Corrected(w.clocks[n], w.now) <= Corrected(w'.clocks[n], w'.now)
            && w.clocks[n].heard <= w'.clocks[n].heard && w'.clocks[n].start == w.clocks[n].start
    decreases |steps|
  {
    hide WorldOk, Next;
    if steps != [] {
      TimePasses(Next(w, steps[0]), steps[1..]);
      StepForward(w, steps[0], n);
      StepKeeps(w, steps[0]);
      ClockNeverGoesBack(Next(w, steps[0]), steps[1..], n);
    }
  }

  /** Stamps respect causality: what a node stamps after handling a packet is never
      earlier than that packet's stamp. */
  lemma StampsFollowCauses(before: seq<Step>, n: NodeId, stamp: Time, between: seq<Step>)
    requires var w := RunFrom(ORIGIN, before);
             n in w.clocks && stamp in w.stamps
    requires NoWrap(RunFrom(Next(RunFrom(ORIGIN, before), Handle(n, stamp)), between))
    ensures var w := RunFrom(Next(RunFrom(ORIGIN, before), Handle(n, stamp)), between);
            n in w.clocks && Micros(stamp) <= Micros(Next(w, Stamp(n)).clocks[n].net)
  {
    hide WorldOk, Advanced;
    var w0 := RunFrom(ORIGIN, before);
    var w1 := Next(w0, Handle(n, stamp));
    var w2 := RunFrom(w1, between);
    TimePasses(w1, between);
    assert WorldOk(ORIGIN) by { OriginOk(); }
    RunKeeps(ORIGIN, before);
    StepKeeps(w0, Handle(n, stamp));
    assert w1.clocks[n].heard >= Micros(stamp);
    ClockNeverGoesBack(w1, between, n);
    RunKeeps(w1, between);
    ClockIsOk(w2, n);
    UpdateKeepsCorrected(w2.clocks[n], w2);
  }

  lemma OriginOk()
    ensures WorldOk(ORIGIN)
  {}

  lemma ClockIsOk(w: World, n: NodeId)
    requires WorldOk(w) && n in w.clocks
    ensures ClockOk(w.clocks[n], w)
  {}
}
