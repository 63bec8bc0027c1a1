// The write ring of project-4/logfs.c and the worker that drains it, as a state
// machine whose steps are the pieces of code between two points at which the
// other thread can act.  The worker's order is the one written: it gives its
// slot back under the lock, and only afterwards reads the slot's tag and writes
// the device.
module Ring {
  import opened Arith
  import opened Bytes

  const WCACHE_BLOCKS := 32
  const NO_BLOCK := 3

  datatype Block = Block(blk: nat, buf: Bytes)

  // Where the worker stands: waiting for an item; holding a private copy of a
  // slot it has already released; holding the copy and the tag it read since.
  datatype Worker = Idle | Copied(slot: nat, data: Bytes) | Addressed(blk: nat, data: Bytes)

  datatype State = State(
    head: nat, tail: nat, active: nat, slots: seq<Block>,
    worker: Worker, device: seq<Bytes>,
    writes: seq<Block>)  // history: what was written to the device, in order

  ghost predicate Opened(s: State) {
    && s.head == s.tail == s.active == 0
    && |s.slots| == WCACHE_BLOCKS
    && (forall i :: 0 <= i < WCACHE_BLOCKS ==> s.slots[i].blk == NO_BLOCK)
    && s.worker == Idle
    && s.writes == []
  }

  function InFlight(s: State): nat {
    if s.worker.Idle? then 0 else 1
  }

  // The critical section of write_to_queue.
  function Push(s: State, blk: nat, buf: Bytes): State
    requires s.head < |s.slots|
  {
    s.(slots := s.slots[s.head := Block(blk, buf)],
       head := (s.head + 1) % WCACHE_BLOCKS,
       active := s.active + 1)
  }

  // The critical section of write_to_device.
  function Take(s: State): State
    requires s.active > 0 && s.tail < |s.slots|
  {
    s.(worker := Copied(s.tail, s.slots[s.tail].buf),
       tail := (s.tail + 1) % WCACHE_BLOCKS,
       active := s.active - 1)
  }

  // write_to_device after the unlock: the tag is read from the released slot ...
  function ReadTag(s: State): State
    requires s.worker.Copied? && s.worker.slot < |s.slots|
  {
    s.(worker := Addressed(s.slots[s.worker.slot].blk, s.worker.data))
  }

  // ... and the private copy goes to the device at that offset.
  function Store(s: State, B: nat): State
    requires B > 0 && s.worker.Addressed? && s.worker.blk / B < |s.device|
  {
    s.(device := s.device[s.worker.blk / B := s.worker.data],
       writes := s.writes + [Block(s.worker.blk, s.worker.data)],
       worker := Idle)
  }

  // One step of write_to_device; none while it waits for an item.
  function WorkerNext(s: State, B: nat): State {
    match s.worker
    case Idle => if 0 < s.active && s.tail < |s.slots| then Take(s) else s
    case Copied(slot, _) => if slot < |s.slots| then ReadTag(s) else s
    case Addressed(blk, _) => if B > 0 && blk / B < |s.device| then Store(s, B) else s
  }

  // The scan of check_in_wcache: the first slot from i on with this tag.
  function FindFrom(slots: seq<Block>, blk: nat, i: nat): (r: int)
    requires i <= |slots|
    ensures r == -1 || i <= r < |slots|
    ensures r == -1 ==> forall j :: i <= j < |slots| ==> slots[j].blk != blk
    ensures r != -1 ==> slots[r].blk == blk && forall j :: i <= j < r ==> slots[j].blk != blk
    decreases |slots| - i
  {
    if i == |slots| then -1
    else if slots[i].blk == blk then i
    else FindFrom(slots, blk, i + 1)
  }

  // What a reader gets for complete block k: the ring first, then the device.
  function Fetch(s: State, B: nat, k: nat): Bytes
    requires k < |s.device|
  {
    var i := FindFrom(s.slots, Start(k, B), 0);
    if i != -1 then s.slots[i].buf else s.device[k]
  }

  // ------------------------------------------------------------------ blocks

  // The byte offset of block k.
  function Start(k: nat, B: nat): (o: nat)
  {
    if k == 0 then 0 else Start(k - 1, B) + B
  }

  lemma StartNext(k: nat, B: nat)
    ensures Start(k + 1, B) == Start(k, B) + B
  {
  }

  lemma {:induction false} StartIsProduct(k: nat, B: nat)
    requires B > 0
    ensures Start(k, B) == k * B
    ensures Start(k, B) / B == k && Start(k, B) % B == 0
  {
    if k == 0 {
    } else {
      StartIsProduct(k - 1, B);
      assert k * B == (k - 1) * B + B;
    }
    DivMod(Start(k, B), B, k, 0);
  }

  lemma {:induction false} StartMono(j: nat, k: nat, B: nat)
    requires j <= k
    ensures Start(j, B) <= Start(k, B)
    ensures j < k ==> Start(j, B) + B <= Start(k, B)
  {
    if j < k {
      StartMono(j, k - 1, B);
    }
  }

  // A tag never matches the tag of another block, nor NO_BLOCK.
  lemma TagsDiffer(B: nat, j: nat, k: nat)
    requires B > 0 && 3 % B != 0
    ensures Start(j, B) == Start(k, B) ==> j == k
    ensures Start(k, B) != NO_BLOCK
  {
    StartIsProduct(j, B);
    StartIsProduct(k, B);
  }

  // A block size that divides 3 gives some block the tag of no block: in the opened
  // ring the scan finds it in a slot that was never filled.
  lemma TagClash(s: State, B: nat)
    requires B > 0 && Opened(s)
    ensures (forall k: nat :: FindFrom(s.slots, Start(k, B), 0) == -1) <==> 3 % B != 0
  {
    if 3 % B != 0 {
      forall k: nat
        ensures FindFrom(s.slots, Start(k, B), 0) == -1
      {
        TagsDiffer(B, k, k);
      }
    } else {
      StartIsProduct(3 / B, B);
      assert s.slots[0].blk == NO_BLOCK == Start(3 / B, B);
      assert FindFrom(s.slots, Start(3 / B, B), 0) == 0;
    }
  }

  // Block k of the log, with the tag the ring gives it.
  function Entry(log: Bytes, B: nat, k: nat): (b: Block)
    requires Start(k, B) + B <= |log|
    ensures |b.buf| == B
  {
    Block(Start(k, B), log[Start(k, B)..Start(k, B) + B])
  }

  // --------------------------------------------------------------- invariant

  // What the rest of the program has done so far: `pushed` complete blocks of the
  // log went into the ring and `popped` came out.  A push can go into the slot that
  // the block in the worker's hands has left.  If the worker has not read the tag by
  // then, the block is `gone`; if it has, the block is only `late`.  `initial` is the
  // device as it was found.
  datatype Hist = Hist(log: Bytes, pushed: nat, popped: nat, gone: set<nat>, late: bool, initial: seq<Bytes>)

  // The blocks that cannot be read.
  function Lost(h: Hist): set<nat> {
    h.gone + if h.late && h.popped > 0 then {h.popped - 1} else {}
  }

  ghost predicate Room(B: nat, h: Hist) {
    && B > 0 && 3 % B != 0
    && Start(h.pushed, B) <= |h.log|
    && h.pushed <= |h.initial|
  }

  function Durable(s: State, h: Hist): int {
    h.popped - InFlight(s)
  }

  ghost predicate Counters(s: State, h: Hist) {
    && |s.slots| == WCACHE_BLOCKS
    && |s.device| == |h.initial|
    && h.popped <= h.pushed <= h.popped + WCACHE_BLOCKS
    && s.head == Turn(h.pushed)
    && s.tail == Turn(h.popped)
    && s.active == h.pushed - h.popped
    && Durable(s, h) >= 0
    && (h.late ==> s.worker.Addressed? && h.popped - 1 !in h.gone)
    && (!s.worker.Idle? ==> (h.pushed - Durable(s, h) <= WCACHE_BLOCKS <==> h.popped - 1 !in h.gone && !h.late))
    && (forall k :: k in h.gone ==> k < h.popped && k + WCACHE_BLOCKS < h.pushed)
  }

  // The slot of the k-th block: k modulo 32.
  function Turn(k: nat): (i: nat)
    ensures i < WCACHE_BLOCKS
  {
    if k < WCACHE_BLOCKS then k else Turn(k - WCACHE_BLOCKS)
  }

  lemma {:induction false} TurnIsMod(k: nat)
    ensures Turn(k) == k % WCACHE_BLOCKS
  {
    if k >= WCACHE_BLOCKS {
      TurnIsMod(k - WCACHE_BLOCKS);
    }
  }

  lemma TurnNext(k: nat)
    ensures Turn(k + 1) == (Turn(k) + 1) % WCACHE_BLOCKS
  {
    TurnIsMod(k);
    TurnIsMod(k + 1);
    var q, r := k / WCACHE_BLOCKS, k % WCACHE_BLOCKS;
    if r + 1 < WCACHE_BLOCKS {
      DivMod(k + 1, WCACHE_BLOCKS, q, r + 1);
    } else {
      DivMod(k + 1, WCACHE_BLOCKS, q + 1, 0);
    }
  }

  lemma TurnsDiffer(j: nat, k: nat)
    requires j < k < j + WCACHE_BLOCKS
    ensures Turn(j) != Turn(k)
  {
    TurnIsMod(j);
    TurnIsMod(k);
  }

  // Slot i holds the newest block pushed whose number is i modulo 32.
  ghost predicate Window(s: State, B: nat, h: Hist)
    requires Room(B, h) && Counters(s, h)
  {
    && (forall k {:trigger s.slots[Turn(k)]} :: 0 <= k < h.pushed && h.pushed - WCACHE_BLOCKS <= k ==>
         s.slots[Turn(k)] == EntryOf(B, h, k))
    && (forall i :: h.pushed <= i < WCACHE_BLOCKS ==> s.slots[i].blk == NO_BLOCK)
  }

  ghost function EntryOf(B: nat, h: Hist, k: nat): Block
    requires Room(B, h) && k < h.pushed
  {
    StartMono(k, h.pushed, B);
    Entry(h.log, B, k)
  }

  ghost predicate InHand(s: State, B: nat, h: Hist)
    requires Room(B, h) && Counters(s, h)
  {
    match s.worker
    case Idle => true
    case Copied(slot, data) =>
      slot == Turn(h.popped - 1) && data == EntryOf(B, h, h.popped - 1).buf
    case Addressed(blk, data) =>
      && data == EntryOf(B, h, h.popped - 1).buf
      && blk == Start(Target(h), B)
  }

  // Where the worker is about to write the block in its hands: at its own place, or
  // in the place of the one that took its slot.
  function Target(h: Hist): (k: nat)
    requires h.popped > 0
  {
    if h.popped - 1 in h.gone then h.popped - 1 + WCACHE_BLOCKS else h.popped - 1
  }

  // The k-th device write had the contents of block k, and went to its offset unless
  // the block is gone; so the device holds every block written that is not gone.  At
  // all other places it has what it had, or a block that went astray.
  ghost predicate OnDevice(s: State, B: nat, h: Hist)
    requires Room(B, h) && Counters(s, h)
  {
    && |s.writes| == Durable(s, h)
    && (forall k :: 0 <= k < |s.writes| ==> Written(s, B, h, k))
    && (forall k :: 0 <= k < |s.device| && (k >= |s.writes| || k in h.gone) ==> Unwritten(s, B, h, k))
  }

  ghost predicate Written(s: State, B: nat, h: Hist, k: nat)
    requires Room(B, h) && k < h.pushed && k < |s.writes| && k < |s.device|
  {
    && s.writes[k].buf == EntryOf(B, h, k).buf
    && (k !in h.gone ==> s.writes[k] == EntryOf(B, h, k) && s.device[k] == EntryOf(B, h, k).buf)
  }

  ghost predicate Unwritten(s: State, B: nat, h: Hist, k: nat)
    requires Room(B, h) && Counters(s, h) && k < |s.device|
  {
    || s.device[k] == h.initial[k]
    || (k >= WCACHE_BLOCKS && k - WCACHE_BLOCKS in h.gone
        && s.device[k] == EntryOf(B, h, k - WCACHE_BLOCKS).buf)
  }

  // Every buffer is one block long.
  ghost predicate Sized(s: State, B: nat) {
    && (forall i :: 0 <= i < |s.slots| ==> |s.slots[i].buf| == B)
    && (forall i :: 0 <= i < |s.device| ==> |s.device[i]| == B)
    && (!s.worker.Idle? ==> |s.worker.data| == B)
  }

  ghost predicate Inv(s: State, B: nat, h: Hist) {
    && Room(B, h)
    && Counters(s, h)
    && Sized(s, B)
    && Window(s, B, h)
    && InHand(s, B, h)
    && OnDevice(s, B, h)
  }

  // A push with 32 blocks queued or in flight goes into the slot that the block in
  // the worker's hands has left.
  function Overtakes(s: State): bool {
    s.active + InFlight(s) >= WCACHE_BLOCKS
  }

  function Pushed(s: State, h: Hist): Hist {
    h.(pushed := h.pushed + 1,
       gone := h.gone + if Overtakes(s) && s.worker.Copied? && h.popped > 0 then {h.popped - 1} else {},
       late := h.late || (Overtakes(s) && s.worker.Addressed?))
  }

  function Stored(h: Hist): Hist {
    h.(late := false)
  }

  function Taken(h: Hist): Hist {
    h.(popped := h.popped + 1)
  }

  lemma OpenedInv(s: State, B: nat, log: Bytes)
    requires Opened(s) && Sized(s, B) && B > 0 && 3 % B != 0
    ensures Inv(s, B, Hist(log, 0, 0, {}, false, s.device))
  {
  }

  // A longer log has the same blocks.
  lemma EntrySame(B: nat, h: Hist, h': Hist, k: nat)
    requires Room(B, h) && Room(B, h') && h.log <= h'.log && k < h.pushed && k < h'.pushed
    ensures EntryOf(B, h', k) == EntryOf(B, h, k)
  {
    StartMono(k, h.pushed, B);
  }

  // The history facts do not depend on how far the counters have moved on.
  lemma DeviceKeeps(s: State, s': State, B: nat, h: Hist, h': Hist)
    requires Room(B, h) && Counters(s, h) && OnDevice(s, B, h)
    requires Room(B, h') && Counters(s', h')
    requires h.log <= h'.log && h'.initial == h.initial && h.pushed <= h'.pushed
    requires h.gone <= h'.gone && forall k :: k in h'.gone && k !in h.gone ==> k >= |s.writes|
    requires s'.device == s.device && s'.writes == s.writes && Durable(s', h') == Durable(s, h)
    ensures OnDevice(s', B, h')
  {
    forall k | 0 <= k < |s.writes|
      ensures Written(s', B, h', k)
    {
      EntrySame(B, h, h', k);
      assert Written(s, B, h, k);
    }
    forall k | 0 <= k < |s.device| && (k >= |s.writes| || k in h'.gone)
      ensures Unwritten(s', B, h', k)
    {
      assert Unwritten(s, B, h, k);
      if k >= WCACHE_BLOCKS && k - WCACHE_BLOCKS in h.gone {
        EntrySame(B, h, h', k - WCACHE_BLOCKS);
      }
    }
  }

  lemma PushWindow(s: State, B: nat, h: Hist, buf: Bytes)
    requires Room(B, h) && Counters(s, h) && Window(s, B, h) && s.active < WCACHE_BLOCKS
    requires Room(B, h.(pushed := h.pushed + 1))
    requires buf == EntryOf(B, h.(pushed := h.pushed + 1), h.pushed).buf
    requires Counters(Push(s, Start(h.pushed, B), buf), Pushed(s, h))
    ensures Window(Push(s, Start(h.pushed, B), buf), B, Pushed(s, h))
  {
    var s', h' := Push(s, Start(h.pushed, B), buf), Pushed(s, h);
    forall k | 0 <= k < h'.pushed && h'.pushed - WCACHE_BLOCKS <= k
      ensures s'.slots[Turn(k)] == EntryOf(B, h', k)
    {
      if k < h.pushed {
        assert s.slots[Turn(k)] == EntryOf(B, h, k);
        TurnsDiffer(k, h.pushed);
      }
    }
  }

  lemma PushCounts(s: State, B: nat, h: Hist, buf: Bytes)
    requires Room(B, h) && Counters(s, h) && s.active < WCACHE_BLOCKS
    requires Room(B, h.(pushed := h.pushed + 1))
    ensures Counters(Push(s, Start(h.pushed, B), buf), Pushed(s, h))
  {
    TurnNext(h.pushed);
  }

  // What the worker holds is the same, and if its target has changed it has not read
  // the tag yet.
  lemma PushInHand(s: State, B: nat, h: Hist, buf: Bytes)
    requires Room(B, h) && Counters(s, h) && InHand(s, B, h) && s.active < WCACHE_BLOCKS
    requires Room(B, h.(pushed := h.pushed + 1)) && Counters(Push(s, Start(h.pushed, B), buf), Pushed(s, h))
    ensures InHand(Push(s, Start(h.pushed, B), buf), B, Pushed(s, h))
  {
    if h.popped > 0 {
      EntrySame(B, h, Pushed(s, h), h.popped - 1);
    }
  }

  lemma PushKeeps(s: State, B: nat, h: Hist, buf: Bytes)
    requires Inv(s, B, h) && s.active < WCACHE_BLOCKS
    requires Room(B, h.(pushed := h.pushed + 1))
    requires buf == EntryOf(B, h.(pushed := h.pushed + 1), h.pushed).buf
    ensures Inv(Push(s, Start(h.pushed, B), buf), B, Pushed(s, h))
  {
    hide Window, Written, Unwritten, InHand, Start;
    var s', h' := Push(s, Start(h.pushed, B), buf), Pushed(s, h);
    PushCounts(s, B, h, buf);
    PushWindow(s, B, h, buf);
    PushInHand(s, B, h, buf);
    DeviceKeeps(s, s', B, h, h');
  }

  // Steps that leave the slots alone keep the window.
  lemma WindowKeeps(s: State, s': State, B: nat, h: Hist, h': Hist)
    requires Room(B, h) && Counters(s, h) && Window(s, B, h)
    requires Room(B, h') && Counters(s', h') && h'.log == h.log && h'.pushed == h.pushed && s'.slots == s.slots
    ensures Window(s', B, h')
  {
    forall k | 0 <= k < h.pushed && h.pushed - WCACHE_BLOCKS <= k
      ensures s'.slots[Turn(k)] == EntryOf(B, h', k)
    {
      assert s.slots[Turn(k)] == EntryOf(B, h, k);
    }
  }

  lemma TakeKeeps(s: State, B: nat, h: Hist)
    requires Inv(s, B, h) && s.active > 0 && s.worker.Idle?
    ensures Inv(Take(s), B, Taken(h))
  {
    var s', h' := Take(s), Taken(h);
    TurnNext(h.popped);
    assert s.slots[Turn(h.popped)] == EntryOf(B, h, h.popped);
    WindowKeeps(s, s', B, h, h');
    DeviceKeeps(s, s', B, h, h');
  }

  // Slot i, once used, holds some block that has been pushed.
  lemma SlotHolds(s: State, B: nat, h: Hist, i: nat) returns (k: nat)
    requires Inv(s, B, h) && i < WCACHE_BLOCKS && i < h.pushed
    ensures k < h.pushed && h.pushed - WCACHE_BLOCKS <= k && Turn(k) == i
    ensures s.slots[i] == EntryOf(B, h, k)
  {
    k := h.pushed - 1 - (h.pushed - 1 - i) % WCACHE_BLOCKS;
    TurnIsMod(k);
    assert s.slots[Turn(k)] == EntryOf(B, h, k);
  }

  lemma ReadTagKeeps(s: State, B: nat, h: Hist)
    requires Inv(s, B, h) && s.worker.Copied?
    ensures Inv(ReadTag(s), B, h)
  {
    var k := Target(h);
    TurnIsMod(h.popped - 1);
    TurnIsMod(k);
    assert Turn(k) == Turn(h.popped - 1);
    assert s.slots[Turn(k)] == EntryOf(B, h, k);
    WindowKeeps(s, ReadTag(s), B, h, h);
    DeviceKeeps(s, ReadTag(s), B, h, h);
  }

  lemma StoreOnDevice(s: State, B: nat, h: Hist)
    requires Room(B, h) && Counters(s, h) && InHand(s, B, h) && OnDevice(s, B, h)
    requires s.worker.Addressed? && s.worker.blk / B == Target(h) < |s.device|
    requires Counters(Store(s, B), Stored(h))
    ensures OnDevice(Store(s, B), B, Stored(h))
  {
    var s', h', p := Store(s, B), Stored(h), h.popped - 1;
    forall k | 0 <= k < |s'.writes|
      ensures Written(s', B, h', k)
    {
      if k < p {
        assert Written(s, B, h, k);
      }
    }
    forall k | 0 <= k < |s'.device| && (k >= |s'.writes| || k in h'.gone)
      ensures Unwritten(s', B, h', k)
    {
      assert Unwritten(s, B, h, k);
    }
  }

  lemma StoreKeeps(s: State, B: nat, h: Hist)
    requires Inv(s, B, h) && s.worker.Addressed?
    ensures s.worker.blk / B < |s.device|
    ensures Inv(Store(s, B), B, Stored(h))
  {
    StartIsProduct(Target(h), B);
    WindowKeeps(s, Store(s, B), B, h, Stored(h));
    StoreOnDevice(s, B, h);
  }

  lemma InvBounds(s: State, B: nat, h: Hist)
    requires Inv(s, B, h)
    ensures |s.slots| == WCACHE_BLOCKS && s.head < WCACHE_BLOCKS && s.tail < WCACHE_BLOCKS
    ensures Room(B, h) && |s.device| == |h.initial| && s.active <= WCACHE_BLOCKS
    ensures Sized(s, B) && s.active + InFlight(s) <= h.pushed && s.active == h.pushed - h.popped
  {
  }

  function AfterWorker(s: State, h: Hist): Hist {
    if s.worker.Idle? && s.active > 0 then Taken(h)
    else if s.worker.Addressed? then Stored(h)
    else h
  }

  // No step of the worker is out of bounds, and each keeps the invariant.
  lemma WorkerKeeps(s: State, B: nat, h: Hist)
    requires Inv(s, B, h)
    ensures s.tail < |s.slots|
    ensures s.worker.Copied? ==> s.worker.slot < |s.slots|
    ensures s.worker.Addressed? ==> s.worker.blk / B < |s.device|
    ensures Inv(WorkerNext(s, B), B, AfterWorker(s, h))
  {
    match s.worker
    case Idle =>
      if s.active > 0 {
        TakeKeeps(s, B, h);
      }
    case Copied(_, _) => ReadTagKeeps(s, B, h);
    case Addressed(_, _) => StoreKeeps(s, B, h);
  }

  // Only a push that overtakes the worker loses a block.
  lemma PushLoses(s: State, B: nat, h: Hist)
    requires Inv(s, B, h) && s.active < WCACHE_BLOCKS
    ensures Lost(h) == {} ==> (Lost(Pushed(s, h)) == {} <==> !Overtakes(s))
  {
    if Overtakes(s) {
      assert h.popped - 1 in Lost(Pushed(s, h));
    }
  }

  // The worker alone loses no block and queues none.
  lemma WorkerShrinks(s: State, B: nat, h: Hist)
    requires Inv(s, B, h)
    ensures Lost(AfterWorker(s, h)) <= Lost(h)
    ensures WorkerNext(s, B).active <= s.active
    ensures WorkerNext(s, B).active + InFlight(WorkerNext(s, B)) <= s.active + InFlight(s)
  {
  }

  // Appending to the log leaves the blocks already pushed alone.
  lemma GrowKeeps(s: State, B: nat, h: Hist, log: Bytes)
    requires Inv(s, B, h) && h.log <= log
    ensures Inv(s, B, h.(log := log))
  {
    var h' := h.(log := log);
    DeviceKeeps(s, s, B, h, h');
    if h.popped > 0 {
      EntrySame(B, h, h', h.popped - 1);
    }
    hide Entry;
    forall k | 0 <= k < h.pushed && h.pushed - WCACHE_BLOCKS <= k
      ensures s.slots[Turn(k)] == EntryOf(B, h', k)
    {
      assert s.slots[Turn(k)] == EntryOf(B, h, k);
      EntrySame(B, h, h', k);
    }
  }

  // check_in_wcache finds exactly the 32 newest blocks, in their slots.
  lemma FindExact(s: State, B: nat, h: Hist, k: nat)
    requires Inv(s, B, h) && k < h.pushed
    ensures FindFrom(s.slots, Start(k, B), 0) == if h.pushed - WCACHE_BLOCKS <= k then Turn(k) else -1
  {
    var r := FindFrom(s.slots, Start(k, B), 0);
    TagsDiffer(B, k, k);
    assert h.pushed - WCACHE_BLOCKS <= k ==> s.slots[Turn(k)] == EntryOf(B, h, k);
    if r != -1 {
      var j := SlotHolds(s, B, h, r);
      TagsDiffer(B, j, k);
    }
  }

  // Every pushed block that is not lost can be fetched.
  lemma FetchExact(s: State, B: nat, h: Hist, k: nat)
    requires Inv(s, B, h) && k < h.pushed && k !in Lost(h)
    ensures Fetch(s, B, k) == EntryOf(B, h, k).buf
  {
    FindExact(s, B, h, k);
    if h.pushed - WCACHE_BLOCKS <= k {
      assert s.slots[Turn(k)] == EntryOf(B, h, k);
    } else {
      assert Written(s, B, h, k);
    }
  }

  // And no lost one can, unless the device or the block 32 earlier holds the same by
  // accident: a block that is gone for good, a late one until its device write.
  lemma FetchableIffNotLost(s: State, B: nat, h: Hist, k: nat)
    requires Inv(s, B, h) && k < h.pushed && h.initial[k] != EntryOf(B, h, k).buf
    requires k >= WCACHE_BLOCKS ==> EntryOf(B, h, k - WCACHE_BLOCKS).buf != EntryOf(B, h, k).buf
    ensures Fetch(s, B, k) == EntryOf(B, h, k).buf <==> k !in Lost(h)
  {
    FindExact(s, B, h, k);
    if k in Lost(h) {
      assert Unwritten(s, B, h, k);
    } else {
      FetchExact(s, B, h, k);
    }
  }

  // The first push that overtakes the worker leaves the block in the worker's
  // hands nowhere to be found: a reader gets what the device held at the start.
  lemma OverrunLoses(s: State, B: nat, h: Hist, buf: Bytes)
    requires Inv(s, B, h) && Lost(h) == {} && s.active < WCACHE_BLOCKS <= s.active + InFlight(s)
    requires Room(B, h.(pushed := h.pushed + 1))
    requires buf == EntryOf(B, h.(pushed := h.pushed + 1), h.pushed).buf
    ensures 0 < h.popped <= h.pushed
    ensures Fetch(Push(s, Start(h.pushed, B), buf), B, h.popped - 1) == h.initial[h.popped - 1]
  {
    PushKeeps(s, B, h, buf);
    FindExact(Push(s, Start(h.pushed, B), buf), B, Pushed(s, h), h.popped - 1);
    assert Unwritten(s, B, h, h.popped - 1);
  }

  // ----------------------------------------------------------- whole histories

  datatype Event = EPush | ETake | ETag | EStore

  datatype Config = Config(s: State, h: Hist)

  ghost predicate Enabled(c: Config, B: nat, e: Event) {
    match e
    case EPush =>
      c.s.active < WCACHE_BLOCKS && c.s.head < |c.s.slots| && Room(B, c.h.(pushed := c.h.pushed + 1))
    case ETake => c.s.active > 0 && c.s.tail < |c.s.slots| && c.s.worker.Idle?
    case ETag => c.s.worker.Copied? && c.s.worker.slot < |c.s.slots|
    case EStore => c.s.worker.Addressed? && B > 0 && c.s.worker.blk / B < |c.s.device|
  }

  ghost function Next(c: Config, B: nat, e: Event): Config
    requires Enabled(c, B, e)
  {
    match e
    case EPush =>
      var buf := EntryOf(B, c.h.(pushed := c.h.pushed + 1), c.h.pushed).buf;
      Config(Push(c.s, Start(c.h.pushed, B), buf), Pushed(c.s, c.h))
    case ETake => Config(Take(c.s), Taken(c.h))
    case ETag => Config(ReadTag(c.s), c.h)
    case EStore => Config(Store(c.s, B), Stored(c.h))
  }

  lemma StepKeeps(c: Config, B: nat, e: Event)
    requires Inv(c.s, B, c.h) && Enabled(c, B, e)
    ensures var c' := Next(c, B, e);
      && Inv(c'.s, B, c'.h)
      && c'.h.log == c.h.log && c'.h.initial == c.h.initial
      && c.h.gone <= c'.h.gone
      && (Lost(c.h) == {} ==> (Lost(c'.h) == {} <==> !(e.EPush? && Overtakes(c.s))))
  {
    match e
    case EPush => PushKeeps(c.s, B, c.h, EntryOf(B, c.h.(pushed := c.h.pushed + 1), c.h.pushed).buf);
    case ETake => TakeKeeps(c.s, B, c.h);
    case ETag => ReadTagKeeps(c.s, B, c.h);
    case EStore => StoreKeeps(c.s, B, c.h);
  }

  // A run of producer and worker from c, in any order the guards allow.
  ghost predicate Run(c: Config, B: nat, es: seq<Event>)
    decreases |es|
  {
    es == [] || (Enabled(c, B, es[0]) && Run(Next(c, B, es[0]), B, es[1..]))
  }

  ghost function Last(c: Config, B: nat, es: seq<Event>): Config
    requires Run(c, B, es)
    decreases |es|
  {
    if es == [] then c else Last(Next(c, B, es[0]), B, es[1..])
  }

  // What is gone stays so on every run, and exactly that is what the ring and the
  // device do not give back whenever the worker holds nothing.
  lemma {:induction false} GoneForGood(c: Config, B: nat, es: seq<Event>)
    requires Inv(c.s, B, c.h) && Run(c, B, es)
    ensures var d := Last(c, B, es);
      && Inv(d.s, B, d.h) && d.h.log == c.h.log && d.h.initial == c.h.initial
      && c.h.gone <= d.h.gone
      && (d.s.worker.Idle? ==> Lost(d.h) == d.h.gone)
    decreases |es|
  {
    hide Sized, Window, OnDevice, InHand;
    if es == [] {
    } else {
      StepKeeps(c, B, es[0]);
      GoneForGood(Next(c, B, es[0]), B, es[1..]);
    }
  }

  // A block that is only late can be read again after the worker's next step.
  lemma LateReturns(c: Config, B: nat)
    requires Inv(c.s, B, c.h) && c.h.late
    ensures Enabled(c, B, EStore) && 0 < c.h.popped <= c.h.pushed
    ensures var d := Next(c, B, EStore);
      Fetch(d.s, B, c.h.popped - 1) == EntryOf(B, c.h, c.h.popped - 1).buf
  {
    StoreKeeps(c.s, B, c.h);
    FetchExact(Store(c.s, B), B, Stored(c.h), c.h.popped - 1);
  }

  // No push of the run is made while 32 blocks are queued or in flight.
  ghost predicate NeverOvertakes(c: Config, B: nat, es: seq<Event>)
    requires Run(c, B, es)
    decreases |es|
  {
    es == [] ||
    ((es[0].EPush? ==> c.s.active + InFlight(c.s) < WCACHE_BLOCKS) &&
     NeverOvertakes(Next(c, B, es[0]), B, es[1..]))
  }

  // One more step.
  lemma {:induction false} RunThen(c: Config, B: nat, es: seq<Event>, e: Event)
    requires Run(c, B, es) && Enabled(Last(c, B, es), B, e)
    ensures Run(c, B, es + [e]) && Last(c, B, es + [e]) == Next(Last(c, B, es), B, e)
    ensures NeverOvertakes(c, B, es + [e]) <==>
            NeverOvertakes(c, B, es) && !(e.EPush? && Overtakes(Last(c, B, es).s))
    decreases |es|
  {
    hide Enabled, Next;
    if es == [] {
      assert (es + [e])[0] == e && (es + [e])[1..] == [];
    } else {
      assert (es + [e])[0] == es[0] && (es + [e])[1..] == es[1..] + [e];
      RunThen(Next(c, B, es[0]), B, es[1..], e);
    }
  }

  function WithLog(c: Config, log: Bytes): Config {
    c.(h := c.h.(log := log))
  }

  lemma StepGrows(c: Config, B: nat, e: Event, log: Bytes)
    requires Enabled(c, B, e) && Room(B, c.h) && c.h.log <= log
    ensures Room(B, Next(c, B, e).h) && Next(c, B, e).h.log == c.h.log
    ensures Enabled(WithLog(c, log), B, e) && Next(WithLog(c, log), B, e) == WithLog(Next(c, B, e), log)
  {
    if e.EPush? {
      var h := c.h.(pushed := c.h.pushed + 1);
      EntrySame(B, h, h.(log := log), c.h.pushed);
    }
  }

  // A run is one of every longer log.
  lemma {:induction false} RunGrows(c: Config, B: nat, es: seq<Event>, log: Bytes)
    requires Run(c, B, es) && Room(B, c.h) && c.h.log <= log
    ensures var d := WithLog(c, log);
      && Run(d, B, es) && Last(d, B, es) == WithLog(Last(c, B, es), log)
      && (NeverOvertakes(d, B, es) <==> NeverOvertakes(c, B, es))
    decreases |es|
  {
    hide Enabled, Next, Room;
    if es == [] {
    } else {
      StepGrows(c, B, es[0], log);
      RunGrows(Next(c, B, es[0]), B, es[1..], log);
    }
  }

  // The machine came from `first` to `now` by these events, and whether a push has
  // overtaken the worker on the way.
  ghost predicate Traced(first: Config, B: nat, es: seq<Event>, now: Config, overtaken: bool) {
    && Run(first, B, es)
    && Last(first, B, es) == now
    && (overtaken <==> !NeverOvertakes(first, B, es))
  }

  lemma TracedNone(first: Config, B: nat)
    ensures Traced(first, B, [], first, false)
  {
  }

  lemma TracedStep(first: Config, B: nat, es: seq<Event>, now: Config, overtaken: bool, e: Event)
    requires Traced(first, B, es, now, overtaken) && Enabled(now, B, e)
    ensures Traced(first, B, es + [e], Next(now, B, e), overtaken || (e.EPush? && Overtakes(now.s)))
  {
    RunThen(first, B, es, e);
  }

  // The push of the next block, once the log has its bytes.
  lemma TracedPush(first: Config, B: nat, es: seq<Event>, s: State, h: Hist, overtaken: bool, buf: Bytes)
    requires Inv(s, B, h) && s.active < WCACHE_BLOCKS && Traced(first, B, es, Config(s, h), overtaken)
    requires Start(h.pushed, B) + B <= |h.log| && h.pushed < |h.initial| && (!overtaken ==> Lost(h) == {})
    requires buf == h.log[Start(h.pushed, B)..Start(h.pushed, B) + B]
    ensures s.head < |s.slots|
    ensures var s', h', o := Push(s, Start(h.pushed, B), buf), Pushed(s, h), overtaken || Overtakes(s);
      && Inv(s', B, h') && Traced(first, B, es + [EPush], Config(s', h'), o)
      && (!o ==> Lost(h') == {}) && (o && !overtaken ==> Lost(h') != {})
  {
    hide Traced, Lost;
    PushKeeps(s, B, h, buf);
    PushLoses(s, B, h);
    TracedStep(first, B, es, Config(s, h), overtaken, EPush);
  }

  lemma TracedGrows(first: Config, B: nat, es: seq<Event>, now: Config, overtaken: bool, log: Bytes)
    requires Traced(first, B, es, now, overtaken) && B > 0 && 3 % B != 0
    requires first.h.pushed == 0 && first.h.log <= log
    ensures Traced(WithLog(first, log), B, es, WithLog(now, log), overtaken)
  {
    RunGrows(first, B, es, log);
  }

  // In state c, every block pushed so far can be fetched.
  ghost predicate AllFetchable(c: Config, B: nat) {
    Room(B, c.h) && c.h.pushed <= |c.s.device| &&
    forall k :: 0 <= k < c.h.pushed ==> Fetch(c.s, B, k) == EntryOf(B, c.h, k).buf
  }

  ghost predicate AlwaysFetchable(c: Config, B: nat, es: seq<Event>)
    requires Run(c, B, es)
    decreases |es|
  {
    AllFetchable(c, B) &&
    (es == [] || AlwaysFetchable(Next(c, B, es[0]), B, es[1..]))
  }

  ghost predicate DeviceDiffers(B: nat, log: Bytes, initial: seq<Bytes>)
    requires B > 0
  {
    forall k :: 0 <= k < |initial| && Start(k, B) + B <= |log| ==> initial[k] != Entry(log, B, k).buf
  }

  lemma NowFetchable(c: Config, B: nat)
    requires Inv(c.s, B, c.h) && Lost(c.h) == {}
    ensures AllFetchable(c, B)
  {
    forall k | 0 <= k < c.h.pushed
      ensures Fetch(c.s, B, k) == EntryOf(B, c.h, k).buf
    {
      FetchExact(c.s, B, c.h, k);
    }
  }

  // A push that overtakes the worker leaves some block unfetchable.
  lemma OvertakingBreaks(c: Config, B: nat)
    requires Inv(c.s, B, c.h) && Lost(c.h) == {} && Enabled(c, B, EPush)
    requires c.s.active + InFlight(c.s) >= WCACHE_BLOCKS
    requires DeviceDiffers(B, c.h.log, c.h.initial)
    ensures !AllFetchable(Next(c, B, EPush), B)
  {
    var buf := EntryOf(B, c.h.(pushed := c.h.pushed + 1), c.h.pushed).buf;
    OverrunLoses(c.s, B, c.h, buf);
    hide Inv;
    var k := c.h.popped - 1;
    InvBounds(c.s, B, c.h);
    StartMono(k, c.h.pushed, B);
    assert Fetch(Next(c, B, EPush).s, B, k) == c.h.initial[k] != Entry(c.h.log, B, k).buf;
  }

  // Exactly when the protocol as written serves every read: the run must never
  // push while 32 blocks are queued or in flight.  (The second half needs a
  // device that does not already hold the data by accident.)
  lemma {:induction false} FetchableIffNeverOvertakes(c: Config, B: nat, es: seq<Event>)
    requires Inv(c.s, B, c.h) && Lost(c.h) == {} && Run(c, B, es)
    ensures NeverOvertakes(c, B, es) ==> AlwaysFetchable(c, B, es)
    ensures DeviceDiffers(B, c.h.log, c.h.initial) && AlwaysFetchable(c, B, es) ==> NeverOvertakes(c, B, es)
    decreases |es|
  {
    NowFetchable(c, B);
    if es == [] {
    } else {
      var c' := Next(c, B, es[0]);
      StepKeeps(c, B, es[0]);
      if Lost(c'.h) != {} {
        if DeviceDiffers(B, c.h.log, c.h.initial) {
          OvertakingBreaks(c, B);
          assert !AlwaysFetchable(c', B, es[1..]);
        }
      } else {
        FetchableIffNeverOvertakes(c', B, es[1..]);
      }
    }
  }

  function Pushes(es: seq<Event>): nat {
    if es == [] then 0 else Pushes(es[1..]) + if es[0].EPush? then 1 else 0
  }

  // The overtaking push is reachable: fill the ring, let the worker take one
  // block, and push again before it has written that block.
  lemma {:induction false} OvertakingHappens(c: Config, B: nat) returns (es: seq<Event>)
    requires Inv(c.s, B, c.h) && c.s.worker.Idle?
    requires Room(B, c.h.(pushed := c.h.popped + WCACHE_BLOCKS + 1))
    ensures Run(c, B, es) && !NeverOvertakes(c, B, es)
    ensures Pushes(es) == WCACHE_BLOCKS + 1 - c.s.active
    decreases WCACHE_BLOCKS - c.s.active
  {
    hide Inv, Run, NeverOvertakes, Pushes;
    InvBounds(c.s, B, c.h);
    StartMono(c.h.pushed + 1, c.h.popped + WCACHE_BLOCKS + 1, B);
    var e := if c.s.active == WCACHE_BLOCKS then ETake else EPush;
    assert Enabled(c, B, e);
    var d := Next(c, B, e);
    StepKeeps(c, B, e);
    var rest;
    if e.ETake? {
      InvBounds(d.s, B, d.h);
      rest := [EPush];
      OvertakesNow(d, B);
    } else {
      rest := OvertakingHappens(d, B);
    }
    es := [e] + rest;
    FirstEvent(c, B, e, rest);
  }

  lemma FirstEvent(c: Config, B: nat, e: Event, es: seq<Event>)
    requires Enabled(c, B, e) && Run(Next(c, B, e), B, es)
    ensures Run(c, B, [e] + es) && Pushes([e] + es) == Pushes(es) + if e.EPush? then 1 else 0
    ensures Last(c, B, [e] + es) == Last(Next(c, B, e), B, es)
    ensures !NeverOvertakes(Next(c, B, e), B, es) ==> !NeverOvertakes(c, B, [e] + es)
  {
    hide Enabled, Next;
    assert ([e] + es)[0] == e && ([e] + es)[1..] == es;
  }

  lemma OvertakesNow(c: Config, B: nat)
    requires Enabled(c, B, EPush) && c.s.active + InFlight(c.s) >= WCACHE_BLOCKS
    ensures Run(c, B, [EPush]) && !NeverOvertakes(c, B, [EPush]) && Pushes([EPush]) == 1
  {
    hide Enabled, Next;
    assert [EPush][1..] == [] && Run(Next(c, B, EPush), B, []);
  }

  // Only pushes make the ring full, and a push can overtake only in a full ring.
  lemma {:induction false} FewPushes(c: Config, B: nat, es: seq<Event>)
    requires Inv(c.s, B, c.h) && Run(c, B, es) && c.h.pushed + Pushes(es) <= WCACHE_BLOCKS
    ensures NeverOvertakes(c, B, es)
    decreases |es|
  {
    if es == [] {
    } else {
      InvBounds(c.s, B, c.h);
      StepKeeps(c, B, es[0]);
      FewPushes(Next(c, B, es[0]), B, es[1..]);
    }
  }

  // From the opened ring: every run of at most n pushes serves every read in all
  // of its states, if and only if n is at most 32.
  lemma SafePushes(c: Config, B: nat, n: nat)
    requires Opened(c.s) && Sized(c.s, B) && B > 0 && 3 % B != 0
    requires c.h == Hist(c.h.log, 0, 0, {}, false, c.s.device)
    requires Room(B, c.h.(pushed := WCACHE_BLOCKS + 1)) && DeviceDiffers(B, c.h.log, c.h.initial)
    ensures (forall es :: Run(c, B, es) && Pushes(es) <= n ==> AlwaysFetchable(c, B, es))
      <==> n <= WCACHE_BLOCKS
  {
    OpenedInv(c.s, B, c.h.log);
    hide Inv;
    if n <= WCACHE_BLOCKS {
      forall es | Run(c, B, es) && Pushes(es) <= n
        ensures AlwaysFetchable(c, B, es)
      {
        FewPushes(c, B, es);
        FetchableIffNeverOvertakes(c, B, es);
      }
    } else {
      var es := OvertakingHappens(c, B);
      FetchableIffNeverOvertakes(c, B, es);
      assert Run(c, B, es) && Pushes(es) <= n && !AlwaysFetchable(c, B, es);
    }
  }
}
