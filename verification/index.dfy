// The growing open-addressing table of project-4/index.c: hash values, never 0,
// to offsets.  The hash function itself is a parameter.
module Index {
  import opened Arith
  import opened Bytes
  import opened Options

  datatype Entry = Entry(key: u64, off: u64)  // key 0: the slot is free

  // The i-th slot tried for a key, in 64-bit arithmetic.
  function Slot(key: u64, i: nat, capacity: nat): (j: nat)
    requires capacity > 0
    ensures j < capacity
  {
    (key + i) % TWO64 % capacity
  }

  datatype Probe = Free(slot: nat) | Hit(slot: nat) | Full

  // What the probing loop of update and index_lookup finds from its i-th turn on.
  function ProbeFrom(s: seq<Entry>, key: u64, i: nat): (p: Probe)
    requires i <= |s|
    ensures p.Free? ==> p.slot < |s| && s[p.slot].key == 0
    ensures p.Hit? ==> p.slot < |s| && s[p.slot].key == key
    decreases |s| - i
  {
    if i == |s| then Full
    else
      var j := Slot(key, i, |s|);
      if s[j].key == 0 then Free(j)
      else if s[j].key == key then Hit(j)
      else ProbeFrom(s, key, i + 1)
  }

  // What the table maps a hash value to.
  function Get(s: seq<Entry>, key: u64): Option<u64> {
    match ProbeFrom(s, key, 0)
    case Hit(j) => Some(s[j].off)
    case _ => None
  }

  // Every stored key is found where it is stored: only occupied slots precede
  // it on its own probe sequence, and no key is stored twice.
  ghost predicate Placed(s: seq<Entry>) {
    forall j :: 0 <= j < |s| && s[j].key != 0 ==> ProbeFrom(s, s[j].key, 0) == Hit(j)
  }

  function Used(s: seq<Entry>): nat {
    if s == [] then 0 else Used(s[..|s| - 1]) + if s[|s| - 1].key != 0 then 1 else 0
  }

  lemma NotFoundNotStored(s: seq<Entry>, key: u64)
    requires Placed(s) && key != 0
    ensures !ProbeFrom(s, key, 0).Hit? <==> forall j :: 0 <= j < |s| ==> s[j].key != key
  {
  }

  // ----------------------------------------------------------------- one insert

  // Filling a free slot: the key probes to it, other stored keys are unaffected.
  lemma {:induction false} InsertProbe(s: seq<Entry>, j: nat, e: Entry, key: u64, i: nat)
    requires j < |s| && s[j].key == 0 && e.key != 0 && i <= |s|
    ensures var s' := s[j := e];
      && (ProbeFrom(s, key, i).Hit? ==> ProbeFrom(s', key, i) == ProbeFrom(s, key, i))
      && (ProbeFrom(s, key, i) == Free(j) && key == e.key ==> ProbeFrom(s', key, i) == Hit(j))
    decreases |s| - i
  {
    if i == |s| {
    } else {
      InsertProbe(s, j, e, key, i + 1);
    }
  }

  lemma InsertKeeps(s: seq<Entry>, j: nat, e: Entry)
    requires Placed(s) && ProbeFrom(s, e.key, 0) == Free(j) && e.key != 0
    ensures var s' := s[j := e];
      Placed(s') && forall k: u64 :: k != 0 ==> Get(s', k) == if k == e.key then Some(e.off) else Get(s, k)
  {
    var s' := s[j := e];
    forall k: u64 {
      InsertProbe(s, j, e, k, 0);
    }
    forall k: u64 | k != 0
      ensures Get(s', k) == if k == e.key then Some(e.off) else Get(s, k)
    {
      NotFoundNotStored(s, k);
    }
  }

  lemma {:induction false} SameKeysSameProbe(s: seq<Entry>, t: seq<Entry>, key: u64, i: nat)
    requires |s| == |t| && i <= |s| && forall j :: 0 <= j < |s| ==> s[j].key == t[j].key
    ensures ProbeFrom(s, key, i) == ProbeFrom(t, key, i)
    decreases |s| - i
  {
    if i == |s| {
    } else {
      SameKeysSameProbe(s, t, key, i + 1);
    }
  }

  // Writing through the reference that update returned.
  lemma SetKeeps(s: seq<Entry>, j: nat, off: u64)
    requires Placed(s) && j < |s| && s[j].key != 0
    ensures var s' := s[j := s[j].(off := off)];
      && Placed(s') && Used(s') == Used(s)
      && forall k: u64 :: k != 0 ==> Get(s', k) == if k == s[j].key then Some(off) else Get(s, k)
  {
    var s' := s[j := s[j].(off := off)];
    UsedUpdate(s, j, s[j].(off := off));
    forall k: u64
      ensures ProbeFrom(s', k, 0) == ProbeFrom(s, k, 0)
    {
      SameKeysSameProbe(s, s', k, 0);
    }
  }

  lemma {:induction false} UsedUpdate(s: seq<Entry>, j: nat, e: Entry)
    requires j < |s|
    ensures Used(s[j := e]) + (if s[j].key != 0 then 1 else 0) == Used(s) + if e.key != 0 then 1 else 0
  {
    var n := |s| - 1;
    var s' := s[j := e];
    if j == n {
      assert s'[..n] == s[..n];
    } else {
      UsedUpdate(s[..n], j, e);
      assert s'[..n] == s[..n][j := e];
    }
  }

  // -------------------------------------------------------- when a slot is found

  lemma {:induction false} UsedBound(s: seq<Entry>)
    ensures Used(s) <= |s|
    ensures Used(s) < |s| ==> exists j :: 0 <= j < |s| && s[j].key == 0
  {
    if s == [] {
    } else {
      var n := |s| - 1;
      UsedBound(s[..n]);
      if s[n].key != 0 && Used(s) < |s| {
        var j :| 0 <= j < n && s[..n][j].key == 0;
        assert s[j].key == 0;
      }
    }
  }

  // Full means: every slot of the key's own probe sequence holds another key.
  lemma {:induction false} FullExact(s: seq<Entry>, key: u64, i: nat)
    requires i <= |s|
    ensures ProbeFrom(s, key, i).Full? <==>
            forall t :: i <= t < |s| ==> s[Slot(key, t, |s|)].key !in {0, key}
    decreases |s| - i
  {
    if i == |s| {
    } else {
      FullExact(s, key, i + 1);
    }
  }

  lemma StepsTo(key: nat, capacity: nat, j: nat) returns (i: nat)
    requires j < capacity
    ensures i < capacity && (key + i) % capacity == j
  {
    var q, r := key / capacity, key % capacity;
    assert key == q * capacity + r;
    if j >= r {
      i := j - r;
      DivMod(key + i, capacity, q, j);
    } else {
      i := j - r + capacity;
      assert (q + 1) * capacity == q * capacity + capacity;
      DivMod(key + i, capacity, q + 1, j);
    }
  }

  // -------------------------------------------- what wrap-around leaves unvisited

  // Probing from this key runs past 2^64, and starting again at 0 is not what
  // going on would have been.
  predicate Wraps(key: u64, c: nat)
    requires c > 0
  {
    key + c > TWO64 && TWO64 % c != 0
  }

  // Of c slots, the probe sequence of a key visits those below Low and those from
  // High on.
  function Low(key: u64, c: nat): (a: nat)
    requires c > 0
    ensures a <= c
  {
    var e, w := TWO64 % c, TWO64 - key;
    if !Wraps(key, c) then c else if e > c - w then e else c - w
  }

  function High(key: u64, c: nat): (b: nat)
    requires c > 0
    ensures Low(key, c) <= b <= c
    ensures Wraps(key, c) <==> Low(key, c) < b
  {
    var e, w := TWO64 % c, TWO64 - key;
    if Wraps(key, c) && e < w then c + e - w else c
  }

  function Visited(key: u64, c: nat): (n: nat)
    requires c > 0
    ensures n <= c && (n < c <==> Wraps(key, c))
  {
    Low(key, c) + c - High(key, c)
  }

  lemma SlotUnwrapped(key: u64, c: nat, i: nat)
    requires 0 < c < TWO64 && i < c && !Wraps(key, c)
    ensures Slot(key, i, c) == (key + i) % c
  {
    var n := key + i;
    if n < TWO64 {
      DivMod(n, TWO64, 0, n);
    } else {
      DivMod(n, TWO64, 1, n - TWO64);
      var p, q, r := TWO64 / c, (n - TWO64) / c, (n - TWO64) % c;
      assert TWO64 == p * c && n - TWO64 == q * c + r;
      assert (p + q) * c == p * c + q * c;
      DivMod(n, c, p + q, r);
    }
  }

  // Before the wrap the slots end at e - 1, modulo c; after it they start at 0.
  lemma SlotBeforeWrap(key: u64, c: nat, i: nat)
    requires 0 < c < TWO64 && i < TWO64 - key && i < c && TWO64 - key < c
    ensures var e, w := TWO64 % c, TWO64 - key;
      Slot(key, i, c) == if e + i >= w then e + i - w else c + e + i - w
  {
    var q, e, w, n := TWO64 / c, TWO64 % c, TWO64 - key, key + i;
    assert TWO64 == q * c + e;
    DivMod(n, TWO64, 0, n);
    if e + i >= w {
      DivMod(n, c, q, e + i - w);
    } else {
      assert (q - 1) * c == q * c - c;
      DivMod(n, c, q - 1, c + e + i - w);
    }
  }

  lemma SlotAfterWrap(key: u64, c: nat, i: nat)
    requires TWO64 - key <= i < c < TWO64
    ensures Slot(key, i, c) == i - (TWO64 - key)
  {
    var n := i - (TWO64 - key);
    DivMod(key + i, TWO64, 1, n);
    DivMod(n, c, 0, n);
  }

  lemma SlotWrapped(key: u64, c: nat, i: nat)
    requires 0 < c < TWO64 && i < c && Wraps(key, c)
    ensures var e, w := TWO64 % c, TWO64 - key;
      Slot(key, i, c) == if i >= w then i - w else if e + i >= w then e + i - w else c + e + i - w
  {
    hide Slot;
    if i >= TWO64 - key {
      SlotAfterWrap(key, c, i);
    } else {
      SlotBeforeWrap(key, c, i);
    }
  }

  lemma SlotVisited(key: u64, c: nat, i: nat)
    requires 0 < c < TWO64 && i < c
    ensures Slot(key, i, c) < Low(key, c) || Slot(key, i, c) >= High(key, c)
  {
    if Wraps(key, c) {
      SlotWrapped(key, c, i);
    }
  }

  lemma VisitedSlot(key: u64, c: nat, j: nat) returns (i: nat)
    requires 0 < c < TWO64 && j < c && (j < Low(key, c) || j >= High(key, c))
    ensures i < c && Slot(key, i, c) == j
  {
    var e, w := TWO64 % c, TWO64 - key;
    if !Wraps(key, c) {
      i := StepsTo(key, c, j);
      SlotUnwrapped(key, c, i);
    } else {
      i := if j < c - w then j + w else if j < e then j + w - e else j + w - c - e;
      SlotWrapped(key, c, i);
    }
  }

  // Full says nothing about the slots the probe misses.
  lemma FullIffVisitedTaken(s: seq<Entry>, key: u64)
    requires 0 < |s| < TWO64
    ensures ProbeFrom(s, key, 0).Full? <==>
            forall j :: 0 <= j < |s| && (j < Low(key, |s|) || j >= High(key, |s|)) ==> s[j].key !in {0, key}
  {
    FullExact(s, key, 0);
    if ProbeFrom(s, key, 0).Full? {
      forall j | 0 <= j < |s| && (j < Low(key, |s|) || j >= High(key, |s|))
        ensures s[j].key !in {0, key}
      {
        var i := VisitedSlot(key, |s|, j);
      }
    }
    forall i | 0 <= i < |s|
      ensures Slot(key, i, |s|) < Low(key, |s|) || Slot(key, i, |s|) >= High(key, |s|)
    {
      SlotVisited(key, |s|, i);
    }
  }

  lemma {:induction false} UsedAtLeast(s: seq<Entry>, a: nat, b: nat)
    requires a <= b <= |s|
    requires forall j :: 0 <= j < |s| && (j < a || j >= b) ==> s[j].key != 0
    ensures Used(s) >= a + |s| - b
  {
    if |s| == a {
      AllUsed(s);
    } else {
      var n := |s| - 1;
      UsedAtLeast(s[..n], a, if b <= n then b else n);
    }
  }

  lemma {:induction false} AllUsed(s: seq<Entry>)
    requires forall j :: 0 <= j < |s| ==> s[j].key != 0
    ensures Used(s) == |s|
  {
    if s == [] {
    } else {
      AllUsed(s[..|s| - 1]);
    }
  }

  // A full probe needs this many used slots ...
  lemma FullNeeds(s: seq<Entry>, key: u64)
    requires 0 < |s| < TWO64 && ProbeFrom(s, key, 0).Full?
    ensures Visited(key, |s|) <= Used(s)
  {
    FullIffVisitedTaken(s, key);
    UsedAtLeast(s, Low(key, |s|), High(key, |s|));
  }

  // ... and a table with no more used slots than that can be one.
  function Filler(key: u64, c: nat, j: nat): (k: u64)
    requires j < c < TWO64 / 2
    ensures k != 0 && k != key
  {
    var p := if j == 0 then c else j;
    if p == key then p + c else p
  }

  function Barrier(key: u64, a: nat, b: nat, c: nat): (s: seq<Entry>)
    requires a <= b <= c < TWO64 / 2
    ensures |s| == c
  {
    seq(c, j requires 0 <= j < c => Entry(if j < a || j >= b then Filler(key, c, j) else 0, 0))
  }

  lemma FillerAtHome(key: u64, c: nat, j: nat)
    requires j < c < TWO64 / 2
    ensures Slot(Filler(key, c, j), 0, c) == j
  {
    var k := Filler(key, c, j);
    DivMod(k, TWO64, 0, k);
    DivMod(k, c, if k < c then 0 else if k < 2 * c then 1 else 2, j);
  }

  lemma BarrierPlaced(key: u64, a: nat, b: nat, c: nat)
    requires a <= b <= c < TWO64 / 2
    ensures Placed(Barrier(key, a, b, c))
  {
    var s := Barrier(key, a, b, c);
    forall j | 0 <= j < |s| && s[j].key != 0
      ensures ProbeFrom(s, s[j].key, 0) == Hit(j)
    {
      FillerAtHome(key, c, j);
    }
  }

  lemma {:induction false} BarrierUsed(s: seq<Entry>, a: nat, b: nat)
    requires a <= b <= |s|
    requires forall j :: 0 <= j < |s| ==> (s[j].key != 0 <==> j < a || j >= b)
    ensures Used(s) == a + |s| - b
  {
    if |s| == a {
      AllUsed(s);
    } else {
      var n := |s| - 1;
      BarrierUsed(s[..n], a, if b <= n then b else n);
    }
  }

  // update can reach EXIT in a table of c slots of which at most u are used, if
  // and only if the key's probe sequence visits no more than u slots.
  lemma ExitExact(key: u64, c: nat, u: nat)
    requires 0 < c < TWO64 / 2
    ensures (exists s :: |s| == c && Placed(s) && Used(s) <= u && ProbeFrom(s, key, 0).Full?)
      <==> Visited(key, c) <= u
  {
    forall s | |s| == c && Placed(s) && Used(s) <= u && ProbeFrom(s, key, 0).Full?
      ensures Visited(key, c) <= u
    {
      FullNeeds(s, key);
    }
    if Visited(key, c) <= u {
      var s := Barrier(key, Low(key, c), High(key, c), c);
      BarrierPlaced(key, Low(key, c), High(key, c), c);
      BarrierUsed(s, Low(key, c), High(key, c));
      FullIffVisitedTaken(s, key);
    }
  }

  // With a slot free, no table turns the key away if and only if its probing does
  // not run past 2^64, or the capacity divides 2^64.
  lemma NeverFullExact(key: u64, c: nat)
    requires 0 < c < TWO64 / 2
    ensures (forall s :: |s| == c && Placed(s) && Used(s) < c ==> !ProbeFrom(s, key, 0).Full?)
      <==> key + c <= TWO64 || TWO64 % c == 0
  {
    ExitExact(key, c, c - 1);
  }

  // An instance: a table of the second capacity reached, 363, holding 214 keys,
  // below the load that makes it grow, turns this key away although 149 slots are
  // free.
  const TURNED_AWAY: u64 := TWO64 - 214

  function Crowded(): (s: seq<Entry>)
    ensures |s| == 363
  {
    Barrier(TURNED_AWAY, 214, 363, 363)
  }

  lemma WrapFails()
    ensures Placed(Crowded()) && ProbeFrom(Crowded(), TURNED_AWAY, 0).Full?
    ensures Used(Crowded()) == 214 && !Loaded(214, 363)
  {
    DivMod(TWO64, 363, 50817476787078654, 214);
    BarrierPlaced(TURNED_AWAY, 214, 363, 363);
    BarrierUsed(Crowded(), 214, 363);
    FullIffVisitedTaken(Crowded(), TURNED_AWAY);
  }

  // -------------------------------------------------- which slots a table takes

  // hash never yields key 0.
  function Normal(h: u64): (k: u64)
    ensures k != 0 && (h != 0 ==> k == h)
  {
    if h == 0 then 1 else h
  }

  // LOAD < load, the load of an empty table counting as 1.
  predicate Loaded(size: nat, capacity: nat) {
    capacity == 0 || 7 * capacity < 10 * size
  }

  function NextCapacity(size: nat, capacity: nat): (c: nat)
    ensures c > 0
  {
    if Loaded(size, capacity) then (capacity + 97) * 3 / 2 else capacity
  }

  // A table without its offsets, on which nothing here depends.
  function Bare(s: seq<Entry>): (t: seq<Entry>)
    ensures |t| == |s|
  {
    seq(|s|, j requires 0 <= j < |s| => Entry(s[j].key, 0))
  }

  // update, on the keys; None is EXIT.
  function Put(s: seq<Entry>, key: u64): Option<seq<Entry>> {
    match ProbeFrom(s, key, 0)
    case Free(j) => Some(s[j := Entry(key, 0)])
    case Hit(_) => Some(s)
    case Full => None
  }

  // The loop of grow, after i turns.
  function Rebuild(s: seq<Entry>, i: nat, c: nat): Option<seq<Entry>>
    requires i <= |s|
  {
    if i == 0 then Some(seq(c, _ => Entry(0, 0)))
    else match Rebuild(s, i - 1, c)
      case None => None
      case Some(t) => if s[i - 1].key == 0 then Some(t) else Put(t, s[i - 1].key)
  }

  function Grown(s: seq<Entry>): Option<seq<Entry>> {
    if Loaded(Used(s), |s|) then Rebuild(s, |s|, NextCapacity(Used(s), |s|)) else Some(s)
  }

  // index_update, on the keys.
  function Entered(s: seq<Entry>, key: u64): Option<seq<Entry>> {
    match Grown(s)
    case None => None
    case Some(t) => Put(t, key)
  }

  // In rebuilding, the j-th entry is the one that finds no slot.
  ghost predicate Blocked(s: seq<Entry>, j: nat, c: nat)
    requires j < |s|
  {
    s[j].key != 0 && Rebuild(s, j, c).Some? && ProbeFrom(Rebuild(s, j, c).value, s[j].key, 0).Full?
  }

  lemma {:induction false} RebuildNone(s: seq<Entry>, i: nat, c: nat)
    requires i <= |s|
    ensures Rebuild(s, i, c) == None <==> exists j :: 0 <= j < i && Blocked(s, j, c)
  {
    if i == 0 {
    } else {
      RebuildNone(s, i - 1, c);
      assert Rebuild(s, i - 1, c).Some? ==> (Rebuild(s, i, c) == None <==> Blocked(s, i - 1, c));
    }
  }

  // Exactly when an update exits: some probing is full, that of the key, or that of a
  // stored key while the table is rebuilt.
  lemma EnteredNone(s: seq<Entry>, key: u64)
    ensures Entered(s, key) == None <==>
      || (Loaded(Used(s), |s|) && exists j :: 0 <= j < |s| && Blocked(s, j, NextCapacity(Used(s), |s|)))
      || (Grown(s).Some? && ProbeFrom(Grown(s).value, key, 0).Full?)
  {
    RebuildNone(s, |s|, NextCapacity(Used(s), |s|));
  }

  lemma ProbeBare(s: seq<Entry>, key: u64)
    ensures ProbeFrom(Bare(s), key, 0) == ProbeFrom(s, key, 0)
  {
    SameKeysSameProbe(s, Bare(s), key, 0);
  }

  lemma PlacedBare(s: seq<Entry>)
    requires Placed(s)
    ensures Placed(Bare(s))
  {
    forall j | 0 <= j < |s| && Bare(s)[j].key != 0
      ensures ProbeFrom(Bare(s), Bare(s)[j].key, 0) == Hit(j)
    {
      ProbeBare(s, s[j].key);
    }
  }

  lemma BareInsert(s: seq<Entry>, j: nat, e: Entry)
    requires j < |s|
    ensures Bare(s[j := e]) == Bare(s)[j := Entry(e.key, 0)]
  {
  }

  lemma {:induction false} UsedBare(s: seq<Entry>)
    ensures Used(Bare(s)) == Used(s)
  {
    if s == [] {
    } else {
      var n := |s| - 1;
      UsedBare(s[..n]);
      assert Bare(s)[..n] == Bare(s[..n]);
    }
  }

  lemma {:induction false} RebuildBare(s: seq<Entry>, i: nat, c: nat)
    requires i <= |s|
    ensures Rebuild(Bare(s), i, c) == Rebuild(s, i, c)
  {
    if i == 0 {
    } else {
      RebuildBare(s, i - 1, c);
    }
  }

  // ---------------------------------------------------- what an update can reach

  ghost function Keys(s: seq<Entry>): set<u64> {
    set j | 0 <= j < |s| && s[j].key != 0 :: s[j].key
  }

  lemma PutKeeps(s: seq<Entry>, key: u64)
    requires Placed(s) && key != 0 && |s| < TWO64
    ensures match Put(s, key)
      case None => s == [] || Visited(key, |s|) <= Used(s)
      case Some(t) =>
        && Placed(t) && |t| == |s| && Used(t) <= Used(s) + 1
        && Keys(t) == Keys(s) + {key}
  {
    match ProbeFrom(s, key, 0)
    case Full =>
      if s != [] {
        FullNeeds(s, key);
      }
    case Hit(j) =>
      assert s[j].key in Keys(s);
    case Free(j) =>
      InsertKeeps(s, j, Entry(key, 0));
      UsedUpdate(s, j, Entry(key, 0));
      KeysInsert(s, j, Entry(key, 0));
  }

  lemma KeysInsert(s: seq<Entry>, j: nat, e: Entry)
    requires j < |s| && s[j].key == 0 && e.key != 0
    ensures Keys(s[j := e]) == Keys(s) + {e.key}
  {
    var t := s[j := e];
    forall k | k in Keys(s) + {e.key}
      ensures k in Keys(t)
    {
      if k == e.key {
        assert t[j].key == e.key;
      } else {
        var i :| 0 <= i < |s| && s[i].key == k && k != 0;
        assert t[i].key == k;
      }
    }
  }

  lemma {:induction false} RebuildKeeps(s: seq<Entry>, i: nat, c: nat)
    requires i <= |s| && 0 < c < TWO64
    ensures match Rebuild(s, i, c)
      case None => exists k :: k in Keys(s) && Visited(k, c) <= Used(s[..i])
      case Some(t) => Placed(t) && |t| == c && Used(t) <= Used(s[..i]) && Keys(t) == Keys(s[..i])
  {
    if i == 0 {
      NoneUsed(seq(c, _ => Entry(0, 0)));
    } else {
      RebuildKeeps(s, i - 1, c);
      assert s[..i][..i - 1] == s[..i - 1];
      assert Keys(s[..i]) == Keys(s[..i - 1]) + if s[i - 1].key == 0 then {} else {s[i - 1].key} by {
        KeysGrow(s, i);
      }
      var before := Rebuild(s, i - 1, c);
      if before.Some? && s[i - 1].key != 0 {
        assert s[i - 1].key in Keys(s);
        PutKeeps(before.value, s[i - 1].key);
      }
    }
  }

  lemma KeysGrow(s: seq<Entry>, i: nat)
    requires 0 < i <= |s|
    ensures Keys(s[..i]) == Keys(s[..i - 1]) + if s[i - 1].key == 0 then {} else {s[i - 1].key}
  {
    var a, b := Keys(s[..i]), Keys(s[..i - 1]) + if s[i - 1].key == 0 then {} else {s[i - 1].key};
    forall k | k in b
      ensures k in a
    {
      var j :| 0 <= j < i && s[j].key == k && k != 0;
      assert s[..i][j].key == k;
    }
    forall k | k in a
      ensures k in b
    {
      var j :| 0 <= j < i && s[..i][j].key == k && k != 0;
      if j < i - 1 {
        assert s[..i - 1][j].key == k;
      }
    }
  }

  // One update: the new capacity, how many slots and which keys are in use.  EXIT
  // means that the key, or a stored one if the table had to grow, visits no more
  // slots than are used.
  lemma EnteredKeeps(s: seq<Entry>, key: u64)
    requires Placed(s) && key != 0 && NextCapacity(Used(s), |s|) < TWO64
    ensures var c := NextCapacity(Used(s), |s|);
      match Entered(s, key)
      case None => exists k :: k in {key} + (if c == |s| then {} else Keys(s)) && Visited(k, c) <= Used(s)
      case Some(t) => Placed(t) && |t| == c && Used(t) <= Used(s) + 1 && Keys(t) == Keys(s) + {key}
  {
    var c := NextCapacity(Used(s), |s|);
    assert s[..|s|] == s;
    RebuildKeeps(s, |s|, c);
    var g := Grown(s);
    if g.Some? {
      hide Rebuild;
      PutKeeps(g.value, key);
      if Entered(s, key) == None {
        assert key in {key} && Visited(key, c) <= Used(s);
      }
    }
  }

  // As far as a table can grow while at most this many slots get used.
  function Reach(capacity: nat, used: nat): (c: nat)
    ensures c >= capacity && c > 0
    ensures c == capacity || 14 * c <= 30 * used + 21 * 97
  {
    var c := (10 * used / 7 + 97) * 3 / 2;
    if capacity < c then c else capacity
  }

  lemma ReachGrows(used: nat, capacity: nat, more: nat)
    requires used <= more
    ensures NextCapacity(used, capacity) <= Reach(NextCapacity(used, capacity), more) <= Reach(capacity, more)
  {
  }

  lemma ReachMonotone(capacity: nat, used: nat, more: nat)
    requires used <= more
    ensures Reach(capacity, used) <= Reach(capacity, more)
  {
  }

  // With no key that near to 2^64 an update does not exit.
  lemma NoExit(s: seq<Entry>, key: u64)
    requires Placed(s) && key != 0 && |s| < TWO64
    requires key + NextCapacity(Used(s), |s|) <= TWO64
    requires forall k :: k in Keys(s) ==> k + NextCapacity(Used(s), |s|) <= TWO64
    ensures Entered(s, key).Some?
  {
    EnteredKeeps(s, key);
    NextHolds(s);
  }

  lemma NextHolds(s: seq<Entry>)
    ensures Used(s) < NextCapacity(Used(s), |s|)
  {
    UsedBound(s);
  }

  // The updates of a whole history, on the keys.
  function EnteredAll(s: seq<Entry>, keys: seq<u64>): Option<seq<Entry>> {
    if keys == [] then Some(s)
    else match EnteredAll(s, keys[..|keys| - 1])
      case None => None
      case Some(t) => Entered(t, keys[|keys| - 1])
  }

  // The crowded table arises from an empty one, and the next update exits: keys 1
  // to 213 and 363 are entered, then one within 214 of 2^64.
  function FirstKeys(n: nat): (ks: seq<u64>)
    requires n < TWO64
    ensures |ks| == n
  {
    seq(n, j requires 0 <= j < n => j + 1)
  }

  function Line(n: nat, c: nat): (s: seq<Entry>)
    requires n < TWO64
    ensures |s| == c
  {
    seq(c, j requires 0 <= j < c => Entry(if 0 < j <= n then j else 0, 0))
  }

  lemma {:induction false} LineUsed(s: seq<Entry>, n: nat)
    requires forall j :: 0 <= j < |s| ==> (s[j].key != 0 <==> 0 < j <= n)
    ensures Used(s) == if s == [] then 0 else if n < |s| then n else |s| - 1
  {
    if s == [] {
    } else {
      LineUsed(s[..|s| - 1], n);
    }
  }

  lemma PutLine(n: nat, c: nat)
    requires n + 1 < c < TWO64
    ensures Put(Line(n, c), n + 1) == Some(Line(n + 1, c))
  {
    DivMod(n + 1, TWO64, 0, n + 1);
    DivMod(n + 1, c, 0, n + 1);
    assert Line(n, c)[n + 1 := Entry(n + 1, 0)] == Line(n + 1, c);
  }

  lemma {:induction false} RebuildLine(n: nat, c: nat, i: nat, d: nat)
    requires i <= c && n < d < TWO64
    ensures Rebuild(Line(n, c), i, d) == Some(Line(if i == 0 then 0 else if i - 1 < n then i - 1 else n, d))
  {
    if i == 0 {
      assert Line(0, d) == seq(d, _ => Entry(0, 0));
    } else {
      RebuildLine(n, c, i - 1, d);
      if 0 < i - 1 <= n {
        PutLine(i - 2, d);
      }
    }
  }

  lemma EnteredLine(n: nat, c: nat)
    requires (n < c || n == c == 0) && n + 1 < NextCapacity(n, c) < TWO64
    ensures Entered(Line(n, c), n + 1) == Some(Line(n + 1, NextCapacity(n, c)))
  {
    LineUsed(Line(n, c), n);
    RebuildLine(n, c, c, NextCapacity(n, c));
    PutLine(n, NextCapacity(n, c));
  }

  function CapacityFor(n: nat): nat {
    if n == 0 then 0 else if n <= 102 then 145 else 363
  }

  lemma CapacityNext(n: nat)
    requires n < 213
    ensures (n < CapacityFor(n) || n == CapacityFor(n) == 0) && n + 1 < CapacityFor(n + 1) < TWO64
    ensures NextCapacity(n, CapacityFor(n)) == CapacityFor(n + 1)
  {
  }

  lemma {:induction false} FirstKeysEntered(n: nat)
    requires n <= 213
    ensures EnteredAll([], FirstKeys(n)) == Some(Line(n, CapacityFor(n)))
  {
    if n == 0 {
      assert Line(0, 0) == [];
    } else {
      assert FirstKeys(n)[..n - 1] == FirstKeys(n - 1) && FirstKeys(n)[n - 1] == n;
      hide Entered, Line, FirstKeys, CapacityFor, NextCapacity;
      FirstKeysEntered(n - 1);
      CapacityNext(n - 1);
      EnteredLine(n - 1, CapacityFor(n - 1));
    }
  }

  lemma LastKeyEntered()
    ensures Entered(Line(213, 363), 363) == Some(Crowded())
  {
    var s := Line(213, 363);
    LineUsed(s, 213);
    assert Slot(363, 0, 363) == 0;
    assert Put(s, 363) == Some(s[0 := Entry(363, 0)]);
    hide Put, Rebuild;
    assert s[0 := Entry(363, 0)] == Crowded();
  }

  lemma CrowdedExits()
    ensures Entered(Crowded(), TURNED_AWAY) == None
  {
    WrapFails();
    hide Crowded, Rebuild;
  }

  lemma WrapHappens()
    ensures EnteredAll([], FirstKeys(213) + [363]) == Some(Crowded())
    ensures EnteredAll([], FirstKeys(213) + [363] + [TURNED_AWAY]) == None
  {
    hide Entered, Line, Crowded, FirstKeys;
    var ks := FirstKeys(213);
    FirstKeysEntered(213);
    LastKeyEntered();
    CrowdedExits();
    assert (ks + [363])[..213] == ks;
    assert (ks + [363] + [TURNED_AWAY])[..214] == ks + [363];
  }

  // ------------------------------------------------------------------ the class

  class Table {
    const hash: Bytes -> u64
    var size: nat
    var maps: array<Entry>

    ghost predicate Valid()
      reads this, maps
    {
      Placed(maps[..]) && size == Used(maps[..])
    }

    constructor (hash: Bytes -> u64, capacity: nat)
      ensures Valid() && fresh(maps) && maps.Length == capacity && this.hash == hash && size == 0
      ensures forall j :: 0 <= j < capacity ==> maps[j] == Entry(0, 0)
    {
      this.hash := hash;
      size := 0;
      maps := new Entry[capacity](_ => Entry(0, 0));
      new;
      NoneUsed(maps[..]);
    }

    // update: the slot for this key, taken if the key is new; None is EXIT.
    method Update(key: u64) returns (slot: Option<nat>)
      requires Valid() && key != 0
      modifies this`size, maps
      ensures Valid()
      ensures match ProbeFrom(old(maps[..]), key, 0)
        case Free(j) => slot == Some(j) && maps[..] == old(maps[..])[j := Entry(key, 0)]
        case Hit(j) => slot == Some(j) && maps[..] == old(maps[..])
        case Full => slot == None && maps[..] == old(maps[..])
      ensures match Put(Bare(old(maps[..])), key)
        case None => slot == None
        case Some(t) => slot.Some? && Bare(maps[..]) == t
    {
      ProbeBare(maps[..], key);
      var i := 0;
      while i < maps.Length
        invariant i <= maps.Length && maps[..] == old(maps[..]) && size == old(size)
        invariant ProbeFrom(maps[..], key, 0) == ProbeFrom(maps[..], key, i)
      {
        var j := Slot(key, i, maps.Length);
        if maps[j].key == 0 {
          InsertKeeps(maps[..], j, Entry(key, 0));
          UsedUpdate(maps[..], j, Entry(key, 0));
          BareInsert(maps[..], j, Entry(key, 0));
          maps[j] := Entry(key, 0);
          size := size + 1;
          return Some(j);
        }
        if maps[j].key == key {
          return Some(j);
        }
        i := i + 1;
      }
      slot := None;
    }

    // The store through the reference that update returned.
    method SetOff(j: nat, off: u64)
      requires Valid() && j < maps.Length && maps[j].key != 0
      modifies maps
      ensures Valid() && maps[..] == old(maps[..])[j := old(maps[j]).(off := off)]
      ensures Bare(maps[..]) == Bare(old(maps[..]))
    {
      SetKeeps(maps[..], j, off);
      maps[j] := maps[j].(off := off);
    }

    function Key(key: Bytes): (h: u64)
      ensures h != 0
    {
      Normal(hash(key))
    }

    // index_update: the slot whose offset the caller reads and overwrites.
    method IndexUpdate(key: Bytes) returns (slot: Option<nat>)
      requires Valid() && |key| > 0
      modifies this`maps, this`size, maps
      ensures slot.Some? ==> Valid() && slot.value < maps.Length && maps[slot.value].key == Key(key)
      ensures slot.Some? ==> forall h: u64 :: h != 0 ==> Head(maps[..], h) == Head(old(maps[..]), h)
      ensures slot.Some? ==> maps[slot.value].off == Head(old(maps[..]), Key(key))
      ensures maps == old(maps) || fresh(maps)
      ensures match Entered(Bare(old(maps[..])), Key(key))
        case None => slot == None
        case Some(t) => slot.Some? && Bare(maps[..]) == t
    {
      hide Grown;
      var ok := Grow();
      if !ok {
        return None;
      }
      var h := Key(key);
      ghost var before := maps[..];
      slot := Update(h);
      if slot.Some? && ProbeFrom(before, h, 0).Free? {
        InsertKeeps(before, slot.value, Entry(h, 0));
      }
    }

    method IndexLookup(key: Bytes) returns (slot: Option<nat>)
      requires |key| > 0
      ensures match ProbeFrom(maps[..], Key(key), 0)
        case Hit(j) => slot == Some(j)
        case _ => slot == None
    {
      var h := Key(key);
      var i := 0;
      while i < maps.Length
        invariant i <= maps.Length
        invariant ProbeFrom(maps[..], h, 0) == ProbeFrom(maps[..], h, i)
      {
        var j := Slot(h, i, maps.Length);
        if maps[j].key == 0 {
          return None;
        }
        if maps[j].key == h {
          return Some(j);
        }
        i := i + 1;
      }
      slot := None;
    }

    // grow: a table that is loaded is rebuilt larger.  False is EXIT.
    method Grow() returns (ok: bool)
      requires Valid()
      modifies this`maps, this`size
      ensures ok ==> Valid() && size == old(size) < maps.Length
      ensures ok ==> forall k: u64 :: k != 0 ==> Get(maps[..], k) == Get(old(maps[..]), k)
      ensures maps == old(maps) || fresh(maps)
      ensures ok && old(maps.Length) > 0 && 10 * old(size) <= 7 * old(maps.Length) ==> maps.Length == old(maps.Length)
      ensures ok && (old(maps.Length) == 0 || 10 * old(size) > 7 * old(maps.Length)) ==>
        maps.Length == (old(maps.Length) + 97) * 3 / 2
      ensures match Grown(Bare(old(maps[..])))
        case None => !ok
        case Some(t) => ok && Bare(maps[..]) == t
    {
      hide Placed, Get, Rebuild;
      UsedBound(maps[..]);
      UsedBare(maps[..]);
      ok := true;
      if Loaded(size, maps.Length) {
        RebuildBare(maps[..], maps.Length, (maps.Length + 97) * 3 / 2);
        var grown := new Table(hash, (maps.Length + 97) * 3 / 2);
        ok := grown.Refill(maps);
        if ok {
          maps, size := grown.maps, grown.size;
        }
      }
    }

    method MoveOne(from: array<Entry>, i: nat) returns (ok: bool)
      requires Valid() && from != maps && Placed(from[..]) && i < from.Length
      requires from[i].key != 0 && Moved(from[..], i, maps[..])
      modifies this`size, maps
      ensures Valid()
      ensures ok ==> size == old(size) + 1 && Moved(from[..], i + 1, maps[..])
      ensures match Put(Bare(old(maps[..])), from[i].key)
        case None => !ok
        case Some(t) => ok && Bare(maps[..]) == t
    {
      hide Placed, Moved, Put;
      NotYetMoved(from[..], i, maps[..]);
      ghost var before := maps[..];
      ghost var p := ProbeFrom(before, from[i].key, 0);
      var slot := Update(from[i].key);
      if slot == None {
        return false;
      }
      assert p == Free(slot.value);
      MovedStep(from[..], i, before, slot.value);
      UsedUpdate(before, slot.value, Entry(from[i].key, 0));
      SetOff(slot.value, from[i].off);
      assert maps[..] == before[slot.value := from[i]];
      UsedUpdate(before, slot.value, from[i]);
      ok := true;
    }

    // The loop of grow: every entry of the old table is put into this one.
    method Refill(from: array<Entry>) returns (ok: bool)
      requires Valid() && from != maps && Placed(from[..])
      requires forall j :: 0 <= j < maps.Length ==> maps[j] == Entry(0, 0)
      modifies this`size, maps
      ensures Valid()
      ensures ok ==> size == Used(from[..])
      ensures ok ==> forall k: u64 :: k != 0 ==> Get(maps[..], k) == Get(from[..], k)
      ensures match Rebuild(from[..], from.Length, maps.Length)
        case None => !ok
        case Some(t) => ok && Bare(maps[..]) == t
    {
      hide Placed, ProbeFrom, Moved, Put, Get;
      ghost var fs, c := from[..], maps.Length;
      NoneUsed(maps[..]);
      MovedNone(fs, maps[..]);
      assert Bare(maps[..]) == seq(c, _ => Entry(0, 0));
      ok := true;
      var i := 0;
      while i < from.Length
        invariant i <= from.Length && from[..] == fs && Valid() && size == Used(fs[..i])
        invariant ok && Moved(fs, i, maps[..])
        invariant Rebuild(fs, i, c) == Some(Bare(maps[..]))
      {
        assert fs[..i + 1][..i] == fs[..i];
        if from[i].key != 0 {
          ok := MoveOne(from, i);
          if !ok {
            RebuildStops(fs, i + 1, c, |fs|);
            return;
          }
        } else {
          MovedSkip(fs, i, maps[..]);
        }
        i := i + 1;
      }
      assert fs[..i] == fs;
      MovedAll(from[..], maps[..]);
    }
  }

  lemma {:induction false} RebuildStops(s: seq<Entry>, i: nat, c: nat, n: nat)
    requires i <= n <= |s| && Rebuild(s, i, c) == None
    ensures Rebuild(s, n, c) == None
  {
    if i == n {
    } else {
      RebuildStops(s, i, c, n - 1);
    }
  }

  // What the chain of a hash value starts from: 0 if there is none.
  function Head(s: seq<Entry>, h: u64): (off: u64)
  {
    match Get(s, h)
    case Some(off) => off
    case None => 0
  }

  lemma HeadOfSlot(s: seq<Entry>, j: nat)
    requires Placed(s) && j < |s| && s[j].key != 0
    ensures Head(s, s[j].key) == s[j].off
  {
  }

  // The table t holds the first i entries of s and nothing else.
  ghost predicate Moved(s: seq<Entry>, i: nat, t: seq<Entry>)
    requires i <= |s|
  {
    && (forall j :: 0 <= j < i && s[j].key != 0 ==> Get(t, s[j].key) == Some(s[j].off))
    && (forall m :: 0 <= m < |t| && t[m].key != 0 ==> exists j :: 0 <= j < i && s[j].key == t[m].key)
  }

  lemma MovedNone(s: seq<Entry>, t: seq<Entry>)
    requires forall m :: 0 <= m < |t| ==> t[m].key == 0
    ensures Moved(s, 0, t)
  {
  }

  lemma MovedSkip(s: seq<Entry>, i: nat, t: seq<Entry>)
    requires i < |s| && s[i].key == 0 && Moved(s, i, t)
    ensures Moved(s, i + 1, t)
  {
    forall m | 0 <= m < |t| && t[m].key != 0
      ensures exists j :: 0 <= j < i + 1 && s[j].key == t[m].key
    {
      var j :| 0 <= j < i && s[j].key == t[m].key;
    }
  }

  // No key occurs twice in s, so its i-th has not been moved before its turn.
  lemma NotYetMoved(s: seq<Entry>, i: nat, t: seq<Entry>)
    requires Placed(s) && i < |s| && s[i].key != 0 && Moved(s, i, t)
    ensures !ProbeFrom(t, s[i].key, 0).Hit?
  {
  }

  lemma MovedStep(s: seq<Entry>, i: nat, t: seq<Entry>, slot: nat)
    requires Placed(t) && i < |s| && s[i].key != 0 && Moved(s, i, t)
    requires ProbeFrom(t, s[i].key, 0) == Free(slot)
    ensures Placed(t[slot := s[i]]) && Moved(s, i + 1, t[slot := s[i]])
  {
    var t' := t[slot := s[i]];
    InsertKeeps(t, slot, s[i]);
    hide Placed, ProbeFrom, Get;
    forall m | 0 <= m < |t'| && t'[m].key != 0
      ensures exists j :: 0 <= j < i + 1 && s[j].key == t'[m].key
    {
      if m == slot {
        assert s[i].key == t'[m].key;
      } else {
        var j :| 0 <= j < i && s[j].key == t[m].key;
      }
    }
    forall j | 0 <= j < i + 1 && s[j].key != 0
      ensures Get(t', s[j].key) == Some(s[j].off)
    {
      if j < i && s[j].key == s[i].key {
        assert Get(t, s[j].key) == Some(s[j].off);
        SomeIsHit(t, s[j].key);
      }
    }
  }

  lemma SomeIsHit(s: seq<Entry>, key: u64)
    ensures Get(s, key).Some? <==> ProbeFrom(s, key, 0).Hit?
  {
  }

  lemma MovedAll(s: seq<Entry>, t: seq<Entry>)
    requires Placed(s) && Placed(t) && Moved(s, |s|, t)
    ensures forall k: u64 :: k != 0 ==> Get(t, k) == Get(s, k)
  {
    forall k: u64 | k != 0
      ensures Get(t, k) == Get(s, k)
    {
      NotFoundNotStored(s, k);
      NotFoundNotStored(t, k);
    }
  }

  lemma {:induction false} NoneUsed(s: seq<Entry>)
    requires forall j :: 0 <= j < |s| ==> s[j].key == 0
    ensures Used(s) == 0
  {
    if s == [] {
    } else {
      NoneUsed(s[..|s| - 1]);
    }
  }
}
