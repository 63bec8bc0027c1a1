// The append-only byte log of project-4/logfs.c: a partly filled current block,
// the write ring drained by the worker, and a direct-mapped read cache.
module LogFs {
  import opened Arith
  import opened Bytes
  import opened Ring

  const RCACHE_BLOCKS := 256

  function Line(k: nat): (i: nat)
    ensures i < RCACHE_BLOCKS
  {
    k % RCACHE_BLOCKS
  }

  // ------------------------------------------------------------- the read cache

  // Block k of the log: a complete block, or the current one.
  ghost function Image(log: Bytes, B: nat, pushed: nat, cur: Bytes, k: nat): Bytes
    requires k <= pushed && Start(pushed, B) <= |log|
  {
    if k < pushed then
      StartMono(k, pushed, B);
      Entry(log, B, k).buf
    else cur
  }

  // A line whose tag is that of a block it can hold caches that block's bytes.
  ghost predicate LineOk(b: Block, log: Bytes, B: nat, pushed: nat, cur: Bytes, stale: set<nat>, k: nat)
    requires Start(pushed, B) <= |log|
  {
    b.blk == Start(k, B) ==> k <= pushed && (k in stale || b.buf == Image(log, B, pushed, cur, k))
  }

  ghost predicate Cached(rc: seq<Block>, log: Bytes, B: nat, pushed: nat, cur: Bytes, stale: set<nat>)
    requires |rc| == RCACHE_BLOCKS
  {
    Start(pushed, B) <= |log| &&
    forall k: nat {:trigger rc[Line(k)]} :: LineOk(rc[Line(k)], log, B, pushed, cur, stale, k)
  }

  // A stretch of the log inside block k is read off the block's image.
  lemma ImageSlice(log: Bytes, B: nat, pushed: nat, curOff: nat, cur: Bytes, k: nat, o: nat, len: nat)
    requires k <= pushed && curOff <= B && |log| == Start(pushed, B) + curOff
    requires cur == log[Start(pushed, B)..] + Zeros(B - curOff)
    requires Start(k, B) <= o && o + len <= Start(k, B) + B && o + len <= |log|
    ensures var im := Image(log, B, pushed, cur, k);
      |im| == B && im[o - Start(k, B)..o - Start(k, B) + len] == log[o..o + len]
  {
    StartMono(k, pushed, B);
    var d := o - Start(k, B);
    if k < pushed {
      SliceOfSlice(log, Start(k, B), Start(k, B) + B, o, len);
    } else {
      SliceOfSlice(log, Start(k, B), |log|, o, len);
      assert log[Start(k, B)..|log|] == log[Start(k, B)..];
      SliceOfPrefix(log[Start(k, B)..], Zeros(B - curOff), d, len);
    }
  }

  lemma SliceOfSlice(s: Bytes, lo: nat, hi: nat, o: nat, len: nat)
    requires lo <= o && o + len <= hi <= |s|
    ensures s[lo..hi][o - lo..o - lo + len] == s[o..o + len]
  {
    var a, b := s[lo..hi][o - lo..o - lo + len], s[o..o + len];
    assert |a| == |b| && forall i :: 0 <= i < |a| ==> a[i] == b[i];
  }

  lemma SliceOfPrefix(s: Bytes, t: Bytes, d: nat, len: nat)
    requires d + len <= |s|
    ensures (s + t)[d..d + len] == s[d..d + len]
  {
    var a, b := (s + t)[d..d + len], s[d..d + len];
    assert |a| == |b| && forall i :: 0 <= i < |a| ==> a[i] == b[i];
  }

  lemma FillBuffer(cur: Bytes, log: Bytes, start: nat, curOff: nat, chunk: Bytes)
    requires start + curOff == |log| && curOff + |chunk| <= |cur|
    requires cur == log[start..] + Zeros(|cur| - curOff)
    ensures cur[..curOff] + chunk + cur[curOff + |chunk|..]
         == (log + chunk)[start..] + Zeros(|cur| - curOff - |chunk|)
  {
    assert (log + chunk)[start..] == log[start..] + chunk;
  }

  // With no block in it the cache is true of an empty log.
  lemma EmptyCached(rc: seq<Block>, B: nat, cur: Bytes)
    requires |rc| == RCACHE_BLOCKS && B > 0 && 3 % B != 0
    requires forall i :: 0 <= i < |rc| ==> rc[i].blk == NO_BLOCK
    ensures Cached(rc, [], B, 0, cur, {})
  {
    forall k: nat
      ensures LineOk(rc[Line(k)], [], B, 0, cur, {}, k)
    {
      TagsDiffer(B, k, k);
    }
  }

  // Blocks that share a line have different tags.
  lemma StoreLine(rc: seq<Block>, log: Bytes, B: nat, pushed: nat, cur: Bytes,
                  stale: set<nat>, stale': set<nat>, k: nat, b: Block)
    requires |rc| == RCACHE_BLOCKS && B > 0 && 3 % B != 0 && Cached(rc, log, B, pushed, cur, stale)
    requires stale - {k} <= stale'
    requires b.blk == NO_BLOCK ||
             (k <= pushed && b.blk == Start(k, B) && (k in stale' || b.buf == Image(log, B, pushed, cur, k)))
    ensures Cached(rc[Line(k) := b], log, B, pushed, cur, stale')
  {
    var rc' := rc[Line(k) := b];
    forall j: nat
      ensures LineOk(rc'[Line(j)], log, B, pushed, cur, stale', j)
    {
      TagsDiffer(B, j, k);
      TagsDiffer(B, k, j);
      assert LineOk(rc[Line(j)], log, B, pushed, cur, stale, j);
    }
  }

  // With the current block out of the cache, the log may grow, complete its
  // block and go on to the next one.
  lemma GrowCached(rc: seq<Block>, log: Bytes, log': Bytes, B: nat, pushed: nat, pushed': nat,
                   cur: Bytes, cur': Bytes, stale: set<nat>)
    requires |rc| == RCACHE_BLOCKS && B > 0 && Cached(rc, log, B, pushed, cur, stale)
    requires rc[Line(pushed)].blk != Start(pushed, B)
    requires log <= log' && pushed <= pushed' && Start(pushed', B) <= |log'|
    ensures Cached(rc, log', B, pushed', cur', stale)
    ensures rc[Line(pushed')].blk != Start(pushed', B)
  {
    forall k: nat
      ensures LineOk(rc[Line(k)], log', B, pushed', cur', stale, k)
    {
      assert LineOk(rc[Line(k)], log, B, pushed, cur, stale, k);
      if rc[Line(k)].blk == Start(k, B) {
        StartMono(k, pushed, B);
        StartMono(k, pushed', B);
      }
    }
    assert LineOk(rc[Line(pushed')], log, B, pushed, cur, stale, pushed');
  }

  // ------------------------------------------------------------------ the class

  class Log {
    const B: nat                 // blk_sz
    const device: array<Bytes>   // one entry per device block
    const curBlk: array<byte>
    const wcache: array<Block>
    const rcache: array<Block>
    // How write_to_queue counts the block in the worker's hands: as gone, which is
    // the code as written (false), or as still queued, which is a worker that gives
    // its slot back after the device write (true).
    const releasesLast: bool
    var off: nat
    var curOff: nat              // cur_off - cur_blk
    var available: nat
    var head: nat
    var tail: nat
    var active: nat
    var worker: Worker           // the worker thread's local variables

    ghost var log: Bytes         // everything appended so far
    ghost var pushed: nat        // complete blocks handed to the ring
    ghost var popped: nat        // blocks the worker has taken
    var overtaken: bool          // a record, not of the program: a push has overtaken the worker
    ghost var gone: set<nat>     // blocks then lost for good, and whether the one in the
    ghost var late: bool         // worker's hands is lost until it is written (see Ring)
    ghost var stale: set<nat>    // blocks that were cached while lost
    ghost var writes: seq<Block> // the device writes, in order
    ghost var trace: seq<Event>  // the steps of producer and worker since the log was opened
    ghost const initial: seq<Bytes>
    ghost const origin: State    // the ring then

    ghost function RingOf(): State
      reads this`head, this`tail, this`active, this`worker, this`writes, wcache, device
    {
      State(head, tail, active, wcache[..], worker, device[..], writes)
    }

    ghost function HistOf(): Hist
      reads this`log, this`pushed, this`popped, this`gone, this`late
    {
      Hist(log, pushed, popped, gone, late, initial)
    }

    // The ring machine as it was opened; the log it is to hold is the one it has now.
    ghost function First(): Config
      reads this`log
    {
      Config(origin, Hist(log, 0, 0, {}, false, initial))
    }

    ghost predicate Shape() {
      && B > 0 && 3 % B != 0
      && curBlk.Length == B
      && wcache.Length == WCACHE_BLOCKS
      && rcache.Length == RCACHE_BLOCKS
      && rcache != wcache
      && device.Length == |initial|
      && Opened(origin) && Sized(origin, B) && origin.device == initial
    }

    ghost predicate RingOk()
      reads this`head, this`tail, this`active, this`worker, this`writes, wcache, device
      reads this`log, this`pushed, this`popped, this`gone, this`late, this`overtaken, this`trace
    {
      && Inv(RingOf(), B, HistOf())
      && (!overtaken ==> Lost(HistOf()) == {})
      && Traced(First(), B, trace, Config(RingOf(), HistOf()), overtaken)
    }

    // The blocks that a read may get wrong: those that cannot be read and those that
    // could not when they were cached.
    ghost function Unsafe(): set<nat>
      reads this`log, this`pushed, this`popped, this`gone, this`late, this`stale
    {
      stale + Lost(HistOf())
    }

    // The current block holds the log's last bytes, then zeros.
    ghost predicate BufferOk()
      reads this`off, this`curOff, this`available, this`log, this`pushed, curBlk
    {
      && curOff <= B == curBlk.Length
      && available == B - curOff
      && off == |log| == Start(pushed, B) + curOff
      && curBlk[..] == log[Start(pushed, B)..] + Zeros(B - curOff)
    }

    ghost predicate CacheOk()
      reads this`log, this`pushed, this`stale, this`overtaken, rcache, curBlk
    {
      && rcache.Length == RCACHE_BLOCKS
      && (!overtaken ==> stale == {})
      && (forall i :: 0 <= i < RCACHE_BLOCKS ==> |rcache[i].buf| == B)
      && Cached(rcache[..], log, B, pushed, curBlk[..], stale)
    }

    ghost predicate Valid()
      reads this, wcache, device, rcache, curBlk
    {
      Shape() && BufferOk() && curOff < B && RingOk() && CacheOk()
    }

    lemma Facts()
      requires Valid()
      ensures B > 0 && off == |log| == Start(pushed, B) + curOff && curOff < B
      ensures !overtaken ==> Unsafe() == {}
    {
    }

    // Whether a push has overtaken the worker since the log was opened is what
    // `overtaken` says: the steps taken since then led here, and say the same.
    lemma OvertakenExact()
      requires Valid()
      ensures Opened(origin) && Sized(origin, B) && origin.device == initial && B > 0 && 3 % B != 0
      ensures Run(First(), B, trace) && Last(First(), B, trace) == Config(RingOf(), HistOf())
      ensures overtaken <==> !NeverOvertakes(First(), B, trace)
    {
    }

    ghost function Repr(): set<object> {
      {this, wcache, rcache, curBlk, device}
    }

    constructor (blkSz: nat, dev: array<Bytes>, releasesLast: bool)
      requires blkSz > 0 && forall i :: 0 <= i < dev.Length ==> |dev[i]| == blkSz
      ensures Valid() <==> 3 % blkSz != 0
      ensures B == blkSz && device == dev && this.releasesLast == releasesLast
      ensures log == [] && !overtaken && Unsafe() == {} && trace == [] && initial == dev[..]
      ensures fresh(Repr() - {dev})
    {
      B, device, this.releasesLast := blkSz, dev, releasesLast;
      off, curOff, available := 0, 0, blkSz;
      head, tail, active := 0, 0, 0;
      worker := Idle;
      curBlk := new byte[blkSz](_ => 0);
      wcache := new Block[WCACHE_BLOCKS](_ => Block(NO_BLOCK, Zeros(blkSz)));
      rcache := new Block[RCACHE_BLOCKS](_ => Block(NO_BLOCK, Zeros(blkSz)));
      log, pushed, popped, overtaken, gone, late, stale, writes := [], 0, 0, false, {}, false, {}, [];
      initial, trace := dev[..], [];
      origin := State(0, 0, 0, seq(WCACHE_BLOCKS, _ => Block(NO_BLOCK, Zeros(blkSz))), Idle, dev[..], []);
      new;
      hide Inv, Traced, Cached;
      assert RingOf() == origin;
      TracedNone(First(), B);
      if 3 % B != 0 {
        OpenedInv(RingOf(), B, []);
        EmptyCached(rcache[..], B, curBlk[..]);
      }
    }

    // ----------------------------------------------------------- worker thread

    // The pieces of write_to_device: the critical section ...
    method TakeSlot()
      requires Shape() && RingOk() && worker.Idle? && active > 0
      modifies this`worker, this`tail, this`active, this`popped, this`trace
      ensures RingOk() && RingOf() == WorkerNext(old(RingOf()), B)
      ensures HistOf() == AfterWorker(old(RingOf()), old(HistOf())) && trace == old(trace) + [ETake]
    {
      hide Inv, Start, Lost, Traced;
      WorkerKeeps(RingOf(), B, HistOf());
      WorkerShrinks(RingOf(), B, HistOf());
      TracedStep(First(), B, trace, Config(RingOf(), HistOf()), overtaken, ETake);
      trace := trace + [ETake];
      worker := Copied(tail, wcache[tail].buf);
      tail := (tail + 1) % WCACHE_BLOCKS;
      active := active - 1;
      popped := popped + 1;
    }

    // ... the tag of the slot given back ...
    method ReadSlotTag()
      requires Shape() && RingOk() && worker.Copied?
      modifies this`worker, this`trace
      ensures RingOk() && RingOf() == WorkerNext(old(RingOf()), B) && trace == old(trace) + [ETag]
    {
      hide Inv, Start, Lost, Traced;
      WorkerKeeps(RingOf(), B, HistOf());
      WorkerShrinks(RingOf(), B, HistOf());
      TracedStep(First(), B, trace, Config(RingOf(), HistOf()), overtaken, ETag);
      worker := Addressed(wcache[worker.slot].blk, worker.data);
      trace := trace + [ETag];
    }

    // ... and the device write.
    method StoreBlock()
      requires Shape() && RingOk() && worker.Addressed?
      modifies this`worker, this`writes, this`late, this`trace, device
      ensures RingOk() && RingOf() == WorkerNext(old(RingOf()), B)
      ensures HistOf() == AfterWorker(old(RingOf()), old(HistOf())) && trace == old(trace) + [EStore]
    {
      hide Inv, Start, Lost, Traced;
      WorkerKeeps(RingOf(), B, HistOf());
      WorkerShrinks(RingOf(), B, HistOf());
      InvBounds(RingOf(), B, HistOf());
      TracedStep(First(), B, trace, Config(RingOf(), HistOf()), overtaken, EStore);
      trace := trace + [EStore];
      device[worker.blk / B] := worker.data;
      writes := writes + [Block(worker.blk, worker.data)];
      worker := Idle;
      late := false;
    }

    // One step of write_to_device.
    method WorkerStep()
      requires Shape() && RingOk()
      modifies this`worker, this`tail, this`active, this`popped, this`writes, this`late, this`trace, device
      ensures RingOk() && RingOf() == WorkerNext(old(RingOf()), B)
      ensures HistOf() == AfterWorker(old(RingOf()), old(HistOf()))
      ensures Unsafe() <= old(Unsafe()) && old(trace) <= trace
    {
      hide Inv, Start, Lost, Take, ReadTag, Store, Traced;
      WorkerShrinks(RingOf(), B, HistOf());
      match worker
      case Idle =>
        if active > 0 {
          TakeSlot();
        }
      case Copied(_, _) => ReadSlotTag();
      case Addressed(_, _) => StoreBlock();
    }

    // The worker may run any number of steps whenever the main thread is about
    // to use what they share.
    method Interfere()
      requires Shape() && RingOk()
      modifies this`worker, this`tail, this`active, this`popped, this`writes, this`late, this`trace, device
      ensures RingOk() && Unsafe() <= old(Unsafe()) && old(trace) <= trace
      ensures active <= old(active) && active + InFlight(RingOf()) <= old(active + InFlight(RingOf()))
    {
      hide Inv, Traced;
      var n: nat :| 0 <= n;
      for i := 0 to n
        invariant RingOk() && Unsafe() <= old(Unsafe()) && old(trace) <= trace
        invariant active <= old(active) && active + InFlight(RingOf()) <= old(active + InFlight(RingOf()))
      {
        WorkerShrinks(RingOf(), B, HistOf());
        WorkerStep();
      }
    }

    // ------------------------------------------------------------- main thread

    method FillSlot(blk: nat)
      requires head < wcache.Length && wcache.Length == WCACHE_BLOCKS
      modifies wcache
      ensures wcache[..] == old(wcache[..])[head := Block(blk, curBlk[..])]
    {
      wcache[head] := Block(blk, curBlk[..]);
    }

    // What the push does to the blocks before it.
    method RecordPush()
      modifies this`pushed, this`overtaken, this`gone, this`late
      ensures HistOf() == Pushed(RingOf(), old(HistOf()))
      ensures overtaken == (old(overtaken) || Overtakes(RingOf()))
    {
      ghost var h := Pushed(RingOf(), HistOf());
      overtaken := overtaken || active + (if worker.Idle? then 0 else 1) >= WCACHE_BLOCKS;
      pushed, gone, late := h.pushed, h.gone, h.late;
    }

    // write_to_queue once there is space: the slot is filled and published.
    method Enqueue(blk: nat)
      requires Shape() && RingOk() && active < WCACHE_BLOCKS
      requires blk == Start(pushed, B) && Start(pushed, B) + B <= |log| && pushed < device.Length
      requires curBlk[..] == log[Start(pushed, B)..Start(pushed, B) + B]
      modifies this`head, this`active, this`pushed, this`overtaken, this`gone, this`late, this`trace, wcache
      ensures RingOk() && RingOf() == Push(old(RingOf()), blk, curBlk[..])
      ensures HistOf() == Pushed(old(RingOf()), old(HistOf()))
      ensures overtaken == (old(overtaken) || Overtakes(old(RingOf()))) && trace == old(trace) + [EPush]
      ensures overtaken && !old(overtaken) ==> Lost(HistOf()) != {}
    {
      hide Inv, Lost, Traced, Start;
      ghost var s := RingOf();
      TracedPush(First(), B, trace, s, HistOf(), overtaken, curBlk[..]);
      hide Overtakes, Pushed;
      trace := trace + [EPush];
      RecordPush();
      FillSlot(blk);
      head := (head + 1) % WCACHE_BLOCKS;
      active := active + 1;
      assert RingOf() == Push(s, blk, curBlk[..]);
    }

    method WriteToQueue(blk: nat)
      requires Shape() && RingOk()
      requires blk == Start(pushed, B) && Start(pushed, B) + B <= |log| && pushed < device.Length
      requires curBlk[..] == log[Start(pushed, B)..Start(pushed, B) + B]
      modifies this`worker, this`tail, this`active, this`popped, this`writes, this`late, this`trace, device
      modifies this`head, this`pushed, this`overtaken, this`gone, wcache
      ensures RingOk() && pushed == old(pushed) + 1 && (old(overtaken) ==> overtaken)
      ensures overtaken && !old(overtaken) ==> Lost(HistOf()) != {} && !releasesLast && pushed > WCACHE_BLOCKS
      ensures old(trace) <= trace
    {
      hide Inv, Lost, Unsafe, Entry, Traced;
      Interfere();
      while active >= WCACHE_BLOCKS || (releasesLast && !worker.Idle? && active + 1 >= WCACHE_BLOCKS)
        invariant RingOk() && old(trace) <= trace
        modifies this`worker, this`tail, this`active, this`popped, this`writes, this`late, this`trace, device
        decreases active, if worker.Copied? then 2 else if worker.Addressed? then 1 else 0
      {
        WorkerKeeps(RingOf(), B, HistOf());
        WorkerStep();
      }
      // signalled, but the worker may go on before this thread has the lock again
      Interfere();
      InvBounds(RingOf(), B, HistOf());
      Enqueue(blk);
    }

    // The scan and copy of check_in_wcache.
    method CheckInWcache(blk: nat) returns (found: bool, buf: Bytes)
      requires Shape() && RingOk()
      modifies this`worker, this`tail, this`active, this`popped, this`writes, this`late, this`trace, device
      ensures RingOk() && Unsafe() <= old(Unsafe()) && old(trace) <= trace
      ensures var r := FindFrom(wcache[..], blk, 0);
        found == (r != -1) && (found ==> buf == wcache[r].buf)
    {
      hide Inv, Traced;
      Interfere();
      found, buf := false, [];
      var i := 0;
      while i < WCACHE_BLOCKS
        invariant i <= WCACHE_BLOCKS
        invariant FindFrom(wcache[..], blk, 0) == FindFrom(wcache[..], blk, i)
        decreases WCACHE_BLOCKS - i
      {
        if blk == wcache[i].blk {
          return true, wcache[i].buf;
        }
        i := i + 1;
      }
    }

    // The part of read_mem that finds a complete block: ring, then device.
    method FetchBlock(blkStart: nat, ghost k: nat) returns (buf: Bytes)
      requires Shape() && RingOk() && k < pushed && blkStart == Start(k, B)
      modifies this`worker, this`tail, this`active, this`popped, this`writes, this`late, this`trace, device
      ensures RingOk() && Unsafe() <= old(Unsafe()) && old(trace) <= trace
      ensures |buf| == B && (k !in Lost(HistOf()) ==> buf == EntryOf(B, HistOf(), k).buf)
    {
      hide Inv, Traced;
      var found;
      found, buf := CheckInWcache(blkStart);
      if !found {
        Interfere();
        InvBounds(RingOf(), B, HistOf());
        StartIsProduct(k, B);
        buf := device[blkStart / B];
      }
      InvBounds(RingOf(), B, HistOf());
      if k !in Lost(HistOf()) {
        FetchExact(RingOf(), B, HistOf(), k);
      }
    }

    // read_mem, first half: block k is brought into its line of the read cache,
    // unless it is there, from the current block, the ring or the device.
    method Load(blkStart: nat, ghost k: nat) returns (rcIdx: nat)
      requires Valid() && k <= pushed && blkStart == Start(k, B)
      modifies this`worker, this`tail, this`active, this`popped, this`writes, this`late, this`trace, device, this`stale, rcache
      ensures Valid() && rcIdx < RCACHE_BLOCKS && Unsafe() <= old(Unsafe()) && old(trace) <= trace
      ensures k !in old(Unsafe()) ==> rcache[rcIdx].buf == Image(log, B, pushed, curBlk[..], k)
    {
      hide Inv, Traced;
      BlockStartOf(blkStart, B, k);
      BlockStartOf(off, B, pushed);
      rcIdx := blkStart / B % RCACHE_BLOCKS;
      assert rcIdx == Line(k);
      if blkStart != rcache[rcIdx].blk {
        var buf;
        if blkStart == BlockStart(off) {
          TagsDiffer(B, k, pushed);
          buf := curBlk[..];
        } else {
          buf := FetchBlock(blkStart, k);
        }
        ghost var im := Image(log, B, pushed, curBlk[..], k);
        ghost var stale' := if buf == im then stale - {k} else stale + {k};
        StoreLine(rcache[..], log, B, pushed, curBlk[..], stale, stale', k, Block(blkStart, buf));
        ghost var rc := rcache[..];
        stale := stale';
        rcache[rcIdx] := Block(blkStart, buf);
        assert rcache[..] == rc[rcIdx := Block(blkStart, buf)];
      }
      assert LineOk(rcache[..][Line(k)], log, B, pushed, curBlk[..], stale, k);
    }

    method ReadMem(blkStart: nat, o: nat, len: nat, ghost k: nat) returns (data: Bytes)
      requires Valid() && k <= pushed && blkStart == Start(k, B)
      requires blkStart <= o && o + len <= blkStart + B && o + len <= off
      modifies this`worker, this`tail, this`active, this`popped, this`writes, this`late, this`trace, device, this`stale, rcache
      ensures Valid() && |data| == len && Unsafe() <= old(Unsafe()) && old(trace) <= trace
      ensures k !in old(Unsafe()) ==> data == log[o..o + len]
    {
      hide Inv, Traced;
      ghost var unsafe := Unsafe();
      var rcIdx := Load(blkStart, k);
      var blkOff := o - blkStart;
      data := rcache[rcIdx].buf[blkOff..blkOff + len];
      if k !in unsafe {
        ImageSlice(log, B, pushed, curOff, curBlk[..], k, o, len);
      }
    }

    method Append(buf: Bytes)
      requires Valid() && off + |buf| <= Start(device.Length, B)
      modifies Repr()
      ensures Valid() && log == old(log) + buf && off == |log|
      ensures (old(overtaken) ==> overtaken) && old(trace) <= trace
      ensures overtaken && !old(overtaken) ==> !releasesLast && Start(WCACHE_BLOCKS + 1, B) <= off
    {
      hide Inv, RingOk, CacheOk;
      var rest := buf;
      Invalidate();
      while |rest| >= available
        invariant Shape() && BufferOk() && curOff < B && RingOk() && CacheOk()
        invariant rcache[Line(pushed)].blk != Start(pushed, B)
        invariant log + rest == old(log) + buf
        invariant (old(overtaken) ==> overtaken) && old(trace) <= trace && old(pushed) <= pushed
        invariant overtaken && !old(overtaken) ==> !releasesLast && pushed > WCACHE_BLOCKS
        decreases |rest|
      {
        var n := available;
        Fill(rest[..n]);
        rest := rest[n..];
        Flush();
      }
      if 0 < |rest| {
        Fill(rest);
      }
      if pushed > WCACHE_BLOCKS {
        StartMono(WCACHE_BLOCKS + 1, pushed, B);
      }
    }

    // The current block is about to change: its line of the read cache is dropped.
    method Invalidate()
      requires Valid()
      modifies rcache
      ensures Valid() && rcache[Line(pushed)].blk != Start(pushed, B)
    {
      hide Inv, Traced;
      BlockStartOf(off, B, pushed);
      TagsDiffer(B, pushed, pushed);
      var blk := BlockStart(off);
      var rcIdx := blk / B % RCACHE_BLOCKS;
      if blk == rcache[rcIdx].blk {
        ghost var rc := rcache[..];
        var b := rcache[rcIdx].(blk := NO_BLOCK);
        StoreLine(rc, log, B, pushed, curBlk[..], stale, stale, pushed, b);
        rcache[rcIdx] := b;
        assert rcache[..] == rc[rcIdx := b];
      }
    }

    // memcpy(cur_off, chunk, |chunk|)
    method CopyIn(chunk: Bytes)
      requires curOff + |chunk| <= curBlk.Length
      modifies curBlk
      ensures curBlk[..] == old(curBlk[..curOff]) + chunk + old(curBlk[curOff + |chunk|..])
    {
      forall i | 0 <= i < |chunk| {
        curBlk[curOff + i] := chunk[i];
      }
    }

    // off, cur_off and available after a copy.
    method Advance(chunk: Bytes)
      requires Shape() && RingOk() && curOff + |chunk| <= B && available == B - curOff
      requires off == |log| == Start(pushed, B) + curOff
      requires curBlk[..] == (log + chunk)[Start(pushed, B)..] + Zeros(B - curOff - |chunk|)
      modifies this`off, this`curOff, this`available, this`log
      ensures BufferOk() && RingOk() && log == old(log) + chunk && curOff == old(curOff) + |chunk|
    {
      hide Inv, Start, Zeros, Traced;
      GrowKeeps(RingOf(), B, HistOf(), log + chunk);
      TracedGrows(First(), B, trace, Config(RingOf(), HistOf()), overtaken, log + chunk);
      log := log + chunk;
      off := off + |chunk|;
      curOff := curOff + |chunk|;
      available := available - |chunk|;
    }

    // Bytes copied to the end of the current block.
    method Fill(chunk: Bytes)
      requires Shape() && BufferOk() && curOff < B && RingOk() && CacheOk()
      requires |chunk| <= available
      requires rcache[Line(pushed)].blk != Start(pushed, B)
      modifies curBlk, this`off, this`curOff, this`available, this`log
      ensures BufferOk() && RingOk() && CacheOk()
      ensures log == old(log) + chunk && curOff == old(curOff) + |chunk|
    {
      hide Inv, Cached, RingOk, Zeros;
      FillBuffer(curBlk[..], log, Start(pushed, B), curOff, chunk);
      ghost var cur := curBlk[..curOff] + chunk + curBlk[curOff + |chunk|..];
      GrowCached(rcache[..], log, log + chunk, B, pushed, pushed, curBlk[..], cur, stale);
      CopyIn(chunk);
      Advance(chunk);
    }

    // The current block is full: it goes to the ring and an empty one replaces it.
    method Flush()
      requires Shape() && BufferOk() && curOff == B && RingOk() && CacheOk()
      requires rcache[Line(pushed)].blk != Start(pushed, B)
      requires off <= Start(device.Length, B)
      modifies this`worker, this`tail, this`active, this`popped, this`writes, this`late, this`trace, device
      modifies this`head, this`pushed, this`overtaken, this`gone, wcache, curBlk, this`curOff, this`available
      ensures BufferOk() && RingOk() && CacheOk() && curOff == 0
      ensures pushed == old(pushed) + 1
      ensures (old(overtaken) ==> overtaken) && old(trace) <= trace
      ensures overtaken && !old(overtaken) ==> !releasesLast && pushed > WCACHE_BLOCKS
      ensures rcache[Line(pushed)].blk != Start(pushed, B)
    {
      hide Inv, Lost, Cached, RingOk;
      BlockStartOf(off - 1, B, pushed);
      if device.Length <= pushed {
        StartMono(device.Length, pushed, B);
      }
      ghost var cur := curBlk[..];
      WriteToQueue(BlockStart(off - 1));
      GrowCached(rcache[..], log, log, B, pushed - 1, pushed, cur, Zeros(B), stale);
      Clear();
      available := B;
      curOff := 0;
      assert log[Start(pushed, B)..] == [];
    }

    // memset(cur_blk, 0, blk_sz)
    method Clear()
      modifies curBlk
      ensures curBlk[..] == Zeros(curBlk.Length)
    {
      forall i | 0 <= i < curBlk.Length {
        curBlk[i] := 0;
      }
    }

    // One read_mem of logfs_read: the next bytes of block k.
    method ReadNext(blkStart: nat, o: nat, data: Bytes, len: nat, ghost k: nat, ghost unsafe: set<nat>)
        returns (more: Bytes)
      requires Valid() && k <= pushed && blkStart == Start(k, B)
      requires Sound(data, log, o, B, unsafe) && Unsafe() <= unsafe
      requires blkStart <= o + |data| && o + |data| + len <= blkStart + B && o + |data| + len <= off
      modifies this`worker, this`tail, this`active, this`popped, this`writes, this`late, this`trace, device, this`stale, rcache
      ensures Valid() && Sound(more, log, o, B, unsafe) && |more| == |data| + len && Unsafe() <= unsafe && old(trace) <= trace
    {
      Facts();
      hide Valid, Sound, Start, Unsafe;
      var chunk := ReadMem(blkStart, o + |data|, len, k);
      SoundGrows(data, chunk, log, o, B, unsafe, k);
      more := data + chunk;
    }

    // Every byte of a block that is not unsafe is the one appended there.
    method Read(o: nat, len: nat) returns (data: Bytes)
      requires Valid() && o + len <= off
      modifies this`worker, this`tail, this`active, this`popped, this`writes, this`late, this`trace, device, this`stale, rcache
      ensures Valid() && |data| == len && Unsafe() <= old(Unsafe()) && old(trace) <= trace
      ensures Sound(data, log, o, B, old(Unsafe()))
      ensures !overtaken ==> data == log[o..o + len]
    {
      hide Valid, Sound, Start, Unsafe;
      Facts();
      ghost var unsafe := Unsafe();
      SoundNone(log, o, B, unsafe);
      ghost var k := BlockOf(o, pushed, B);
      BlockStartOf(o, B, k);
      var blkStart := BlockStart(o);
      var readLen := if len < blkStart + B - o then len else blkStart + B - o;
      data := ReadNext(blkStart, o, [], readLen, k, unsafe);
      StartNext(k, B);
      blkStart := blkStart + B;
      k := k + 1;
      var left := len - readLen;
      while left > B
        invariant Valid() && 0 <= left <= len && |data| == len - left && Unsafe() <= unsafe && old(trace) <= trace
        invariant blkStart == Start(k, B)
        invariant left > 0 ==> blkStart == o + |data|
        invariant Sound(data, log, o, B, unsafe)
        decreases left
      {
        WithinLog(k, pushed, B, off);
        data := ReadNext(blkStart, o, data, B, k, unsafe);
        StartNext(k, B);
        blkStart := blkStart + B;
        k := k + 1;
        left := left - B;
      }
      if left != 0 {
        WithinLog(k, pushed, B, off);
        data := ReadNext(blkStart, o, data, left, k, unsafe);
      }
      SoundWhole(data, log, o, B, unsafe);
    }

    function BlockStart(o: nat): nat
      requires B > 0
    {
      o - o % B
    }
  }

  // What a read may rely on: every byte of a block that is not unsafe is right.
  ghost predicate Sound(data: Bytes, log: Bytes, o: nat, B: nat, unsafe: set<nat>) {
    && B > 0 && o + |data| <= |log|
    && forall i {:trigger data[i]} :: 0 <= i < |data| && (o + i) / B !in unsafe ==> data[i] == log[o + i]
  }

  lemma SoundNone(log: Bytes, o: nat, B: nat, unsafe: set<nat>)
    requires B > 0 && o <= |log|
    ensures Sound([], log, o, B, unsafe)
  {
  }

  lemma SoundWhole(data: Bytes, log: Bytes, o: nat, B: nat, unsafe: set<nat>)
    requires Sound(data, log, o, B, unsafe)
    ensures o + |data| <= |log| && (unsafe == {} ==> data == log[o..o + |data|])
  {
  }

  lemma SoundGrows(data: Bytes, chunk: Bytes, log: Bytes, o: nat, B: nat, unsafe: set<nat>, k: nat)
    requires B > 0 && Sound(data, log, o, B, unsafe) && o + |data| + |chunk| <= |log|
    requires Start(k, B) <= o + |data| && o + |data| + |chunk| <= Start(k, B) + B
    requires k !in unsafe ==> chunk == log[o + |data|..o + |data| + |chunk|]
    ensures Sound(data + chunk, log, o, B, unsafe)
  {
    forall i | 0 <= i < |data + chunk| && (o + i) / B !in unsafe
      ensures (data + chunk)[i] == log[o + i]
    {
      if i >= |data| {
        BlockStartOf(o + i, B, k);
        assert (data + chunk)[i] == chunk[i - |data|];
      }
    }
  }

  lemma BlockStartOf(o: nat, B: nat, k: nat)
    requires B > 0 && Start(k, B) <= o < Start(k, B) + B
    ensures o - o % B == Start(k, B) && Start(k, B) / B == k && o / B == k
  {
    StartIsProduct(k, B);
    DivMod(o, B, k, o - Start(k, B));
  }

  // A block that starts inside the log is not past the current one.
  lemma WithinLog(k: nat, pushed: nat, B: nat, off: nat)
    requires Start(k, B) < off < Start(pushed, B) + B
    ensures k <= pushed
  {
    if k > pushed {
      StartMono(pushed, k, B);
    }
  }

  // The block that holds position o.
  lemma {:induction false} BlockOf(o: nat, pushed: nat, B: nat) returns (k: nat)
    requires B > 0 && o < Start(pushed, B) + B
    ensures k <= pushed && Start(k, B) <= o < Start(k, B) + B
  {
    if Start(pushed, B) <= o {
      k := pushed;
    } else {
      k := BlockOf(o, pushed - 1, B);
    }
  }
}
