// The mutex and the two condition variables around the ring of
// project-4/logfs.c, before shutdown.  One step is one lock operation, one test
// of a waiting loop, one update of the ring or one signal, so the two threads
// interleave between any two of them.  Waking without a signal is allowed, as
// POSIX allows it.
module RingSync {
  import opened Ring

  datatype Holder = NoOne | ProducerHolds | WorkerHolds

  // Main thread: outside; locking, testing, sleeping on `space`, woken, pushing,
  // signalling and unlocking in write_to_queue; locking and scanning in
  // check_in_wcache.
  datatype Producer = Out | PLock | PTest | PSleep | PWoken | PPush | PSignal | PUnlock | SLock | Scan

  // Worker: the corresponding places of write_to_device, and after the unlock the
  // read of the tag and the device write.
  datatype Consumer = WLock | WTest | WSleep | WWoken | WTake | WSignal | WUnlock | WTag | WDevice

  datatype Sync = Sync(active: nat, holder: Holder, p: Producer, w: Consumer)

  const INITIAL := Sync(0, NoOne, Out, WLock)

  datatype Step = Queue | Search | Producer_ | Worker_ | WakeProducer | WakeWorker

  predicate Enabled(s: Sync, e: Step) {
    match e
    case Queue => s.p.Out?
    case Search => s.p.Out?
    case Producer_ => !s.p.Out? && !s.p.PSleep? && (s.p.PLock? || s.p.PWoken? || s.p.SLock? ==> s.holder.NoOne?)
    case Worker_ => !s.w.WSleep? && (s.w.WLock? || s.w.WWoken? ==> s.holder.NoOne?)
    case WakeProducer => s.p.PSleep?
    case WakeWorker => s.w.WSleep?
  }

  function ProducerStep(s: Sync): Sync {
    match s.p
    case PLock | PWoken => s.(holder := ProducerHolds, p := PTest)
    case PTest => if s.active >= WCACHE_BLOCKS then s.(holder := NoOne, p := PSleep) else s.(p := PPush)
    case PPush => s.(active := s.active + 1, p := PSignal)
    case PSignal => s.(w := if s.w.WSleep? then WWoken else s.w, p := PUnlock)
    case PUnlock => s.(holder := NoOne, p := Out)
    case SLock => s.(holder := ProducerHolds, p := Scan)
    case Scan => s.(holder := NoOne, p := Out)
    case Out | PSleep => s
  }

  function WorkerStep(s: Sync): Sync {
    match s.w
    case WLock | WWoken => s.(holder := WorkerHolds, w := WTest)
    case WTest => if s.active <= 0 then s.(holder := NoOne, w := WSleep) else s.(w := WTake)
    case WTake => s.(active := if s.active > 0 then s.active - 1 else 0, w := WSignal)
    case WSignal => s.(p := if s.p.PSleep? then PWoken else s.p, w := WUnlock)
    case WUnlock => s.(holder := NoOne, w := WTag)
    case WTag => s.(w := WDevice)
    case WDevice => s.(w := WLock)
    case WSleep => s
  }

  function Next(s: Sync, e: Step): Sync {
    match e
    case Queue => s.(p := PLock)
    case Search => s.(p := SLock)
    case Producer_ => ProducerStep(s)
    case Worker_ => WorkerStep(s)
    case WakeProducer => s.(p := PWoken)
    case WakeWorker => s.(w := WWoken)
  }

  function Run(s: Sync, es: seq<Step>): Sync
    decreases |es|
  {
    if es == [] then s else Run(Next(s, es[0]), es[1..])
  }

  ghost predicate IsRun(s: Sync, es: seq<Step>)
    decreases |es|
  {
    es == [] || (Enabled(s, es[0]) && IsRun(Next(s, es[0]), es[1..]))
  }

  predicate ProducerInside(p: Producer) {
    p.PTest? || p.PPush? || p.PSignal? || p.PUnlock? || p.Scan?
  }

  predicate WorkerInside(w: Consumer) {
    w.WTest? || w.WTake? || w.WSignal? || w.WUnlock?
  }

  ghost predicate Inv(s: Sync) {
    && s.active <= WCACHE_BLOCKS
    && (s.holder.ProducerHolds? <==> ProducerInside(s.p))
    && (s.holder.WorkerHolds? <==> WorkerInside(s.w))
    && (s.p.PPush? ==> s.active < WCACHE_BLOCKS)
    && (s.w.WTake? ==> s.active > 0)
    // a sleeping producer means a full ring, unless its signal is on the way
    && (s.p.PSleep? ==> s.active == WCACHE_BLOCKS || s.w.WSignal?)
    // a sleeping worker means an empty ring, unless its signal is on the way
    && (s.w.WSleep? ==> s.active == 0 || s.p.PSignal?)
  }

  lemma {:induction false} InvAlways(s: Sync, es: seq<Step>)
    requires Inv(s) && IsRun(s, es)
    ensures Inv(Run(s, es))
    decreases |es|
  {
    if es == [] {
    } else {
      InvAlways(Next(s, es[0]), es[1..]);
    }
  }

  // In every reachable state: at most one thread is in a critical section, the
  // ring never over- or underflows, and the two threads never sleep together.
  lemma NeverBothAsleep(es: seq<Step>)
    requires IsRun(INITIAL, es)
    ensures var s := Run(INITIAL, es);
      && !(ProducerInside(s.p) && WorkerInside(s.w))
      && s.active <= WCACHE_BLOCKS
      && (s.w.WTake? ==> s.active > 0)
      && !(s.p.PSleep? && s.w.WSleep?)
      && (s.p.PSleep? && s.holder.NoOne? ==> s.active == WCACHE_BLOCKS)
      && (s.w.WSleep? && s.holder.NoOne? ==> s.active == 0)
  {
    InvAlways(INITIAL, es);
  }

  // A thread that is neither asleep nor waiting for the lock always moves.
  lemma NoDeadlock(es: seq<Step>)
    requires IsRun(INITIAL, es)
    ensures var s := Run(INITIAL, es);
      (!s.p.Out? || s.active > 0) ==> Enabled(s, Producer_) || Enabled(s, Worker_)
  {
    InvAlways(INITIAL, es);
  }

  function WorkerRuns(s: Sync, n: nat): Sync
    decreases n
  {
    if n == 0 then s else WorkerRuns(WorkerStep(s), n - 1)
  }

  // No lost wakeup: if the producer sleeps, the worker running alone signals it
  // within seven of its own steps, never having to wait itself.
  lemma ProducerIsWoken(es: seq<Step>)
    requires IsRun(INITIAL, es) && Run(INITIAL, es).p.PSleep?
    ensures var s := Run(INITIAL, es);
      exists n :: 0 <= n <= 7 && WorkerRuns(s, n).p.PWoken? &&
        forall m :: 0 <= m < n ==> Enabled(WorkerRuns(s, m), Worker_)
  {
    InvAlways(INITIAL, es);
    var _ := Countdown(Run(INITIAL, es));
  }

  lemma Countdown(s: Sync) returns (n: nat)
    requires Inv(s) && s.p.PSleep?
    ensures n <= Distance(s.w)
    ensures WorkerRuns(s, n).p.PWoken? && forall m :: 0 <= m < n ==> Enabled(WorkerRuns(s, m), Worker_)
    decreases Distance(s.w)
  {
    var t := WorkerStep(s);
    if t.p.PWoken? {
      n := 1;
      assert WorkerRuns(s, 1) == WorkerRuns(t, 0);
    } else {
      var k := Countdown(t);
      n := k + 1;
      forall m | 0 <= m < n
        ensures Enabled(WorkerRuns(s, m), Worker_)
      {
        if m > 0 {
          assert WorkerRuns(s, m) == WorkerRuns(t, m - 1);
        }
      }
    }
  }

  function Distance(w: Consumer): nat {
    match w
    case WSignal => 1
    case WTake => 2
    case WTest => 3
    case WLock => 4
    case WWoken => 4
    case WSleep => 0
    case WDevice => 5
    case WTag => 6
    case WUnlock => 7
  }

  // ------------------------------------------------ the ring machine underneath

  // Of the steps, these are steps of the ring machine; the others only move a
  // program counter or the lock.
  function RingSteps(s: Sync, e: Step): seq<Ring.Event> {
    if e.Producer_? && s.p.PPush? then [EPush]
    else if e.Worker_? && s.w.WTake? then [ETake]
    else if e.Worker_? && s.w.WTag? then [ETag]
    else if e.Worker_? && s.w.WDevice? then [EStore]
    else []
  }

  function Erased(s: Sync, es: seq<Step>): seq<Ring.Event>
    decreases |es|
  {
    if es == [] then [] else RingSteps(s, es[0]) + Erased(Next(s, es[0]), es[1..])
  }

  ghost predicate Agrees(s: Sync, c: Config) {
    && s.active == c.s.active
    && (c.s.worker.Copied? <==> s.w.WSignal? || s.w.WUnlock? || s.w.WTag?)
    && (c.s.worker.Addressed? <==> s.w.WDevice?)
  }

  lemma StepAgrees(s: Sync, e: Step, c: Config, B: nat)
    requires Inv(s) && Enabled(s, e) && Agrees(s, c) && Ring.Inv(c.s, B, c.h)
    requires RingSteps(s, e) == [EPush] ==> Room(B, c.h.(pushed := c.h.pushed + 1))
    ensures var es := RingSteps(s, e);
      if es == [] then Agrees(Next(s, e), c)
      else es == [es[0]] && Ring.Enabled(c, B, es[0]) && Agrees(Next(s, e), Ring.Next(c, B, es[0]))
  {
    hide Ring.Inv, Ring.Sized, EntryOf;
    InvBounds(c.s, B, c.h);
    WorkerKeeps(c.s, B, c.h);
  }

  lemma RoomForFewer(B: nat, h: Hist, m: nat, n: nat)
    requires Room(B, h.(pushed := n)) && m <= n
    ensures Room(B, h.(pushed := m))
  {
    StartMono(m, n, B);
  }

  // Every run of the two threads, with program counters and lock erased, is a run of
  // the ring machine that ends with as many blocks queued, if the log has the blocks.
  lemma {:induction false} ErasedIsRun(s: Sync, es: seq<Step>, c: Config, B: nat, n: nat)
    requires Inv(s) && IsRun(s, es) && Agrees(s, c) && Ring.Inv(c.s, B, c.h)
    requires c.h.pushed + Pushes(Erased(s, es)) <= n && Room(B, c.h.(pushed := n))
    ensures Ring.Run(c, B, Erased(s, es)) && Agrees(Run(s, es), Last(c, B, Erased(s, es)))
    decreases |es|
  {
    if es == [] {
    } else {
      var evs, t, rest := RingSteps(s, es[0]), Next(s, es[0]), es[1..];
      InvStep(s, es[0]);
      hide Ring.Inv, Inv, Agrees, Room, Ring.Next, Next, Ring.Enabled, Enabled, RingSteps;
      if evs == [] {
        assert Erased(s, es) == Erased(t, rest);
        StepAgrees(s, es[0], c, B);
        ErasedIsRun(t, rest, c, B, n);
      } else {
        assert Erased(s, es) == evs + Erased(t, rest) && (evs + Erased(t, rest))[1..] == evs[1..] + Erased(t, rest);
        OneRingStep(s, es[0]);
        PushFirst(evs[0], Erased(t, rest));
        if evs == [EPush] {
          RoomForFewer(B, c.h, c.h.pushed + 1, n);
        }
        StepAgrees(s, es[0], c, B);
        var d := Ring.Next(c, B, evs[0]);
        StepKeeps(c, B, evs[0]);
        PushedBy(c, B, evs[0]);
        ErasedIsRun(t, rest, d, B, n);
        FirstEvent(c, B, evs[0], Erased(t, rest));
      }
    }
  }

  lemma InvStep(s: Sync, e: Step)
    requires Inv(s) && Enabled(s, e)
    ensures Inv(Next(s, e))
  {
  }

  lemma OneRingStep(s: Sync, e: Step)
    ensures var evs := RingSteps(s, e); evs == [] || evs == [evs[0]]
  {
  }

  lemma PushFirst(e: Ring.Event, es: seq<Ring.Event>)
    ensures Pushes([e] + es) == Pushes(es) + if e.EPush? then 1 else 0
  {
    assert ([e] + es)[1..] == es;
  }

  lemma PushedBy(c: Config, B: nat, e: Ring.Event)
    requires Ring.Inv(c.s, B, c.h) && Ring.Enabled(c, B, e)
    ensures var h' := Ring.Next(c, B, e).h;
      && h'.pushed == c.h.pushed + (if e.EPush? then 1 else 0)
      && forall n: nat :: Room(B, h'.(pushed := n)) == Room(B, c.h.(pushed := n))
  {
  }

  // So what holds of all its runs holds of the two threads: from opening on, every
  // state they reach is one of the ring machine.
  lemma SyncRefinesRing(es: seq<Step>, c: Config, B: nat)
    requires IsRun(INITIAL, es) && Opened(c.s) && Sized(c.s, B) && B > 0 && 3 % B != 0
    requires c.h == Hist(c.h.log, 0, 0, {}, false, c.s.device)
    requires Room(B, c.h.(pushed := Pushes(Erased(INITIAL, es))))
    ensures var evs := Erased(INITIAL, es);
      && Ring.Run(c, B, evs)
      && Run(INITIAL, es).active == Last(c, B, evs).s.active
  {
    OpenedInv(c.s, B, c.h.log);
    ErasedIsRun(INITIAL, es, c, B, Pushes(Erased(INITIAL, es)));
  }
}
