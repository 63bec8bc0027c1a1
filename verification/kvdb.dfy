// The key/value store of project-4/kvdb.c: the index maps a hash value to the
// newest record of its chain, and the chain is searched on the log.
module Kvdb {
  import opened Bytes
  import opened Kvraw
  import opened Index
  import LogFs
  import Ring
  import opened Options

  type Hash = Bytes -> u64
  type Map = map<Bytes, Bytes>

  function H(hash: Hash, key: Bytes): (h: u64)
    ensures h != 0
  {
    Normal(hash(key))
  }

  // The newest record with this key, or 0 (the dummy) if there is none.
  ghost function Newest(recs: seq<Rec>, key: Bytes): (i: nat)
    requires |recs| > 0
    ensures i < |recs| && (i > 0 ==> recs[i].key == key)
    ensures forall j :: i < j < |recs| ==> recs[j].key != key
  {
    var n := |recs| - 1;
    if n == 0 || recs[n].key == key then n else Newest(recs[..n], key)
  }

  // The newest record whose key has this hash value, or 0.
  ghost function NewestIn(recs: seq<Rec>, hash: Hash, h: u64): (i: nat)
    requires |recs| > 0
    ensures i < |recs| && (i > 0 ==> H(hash, recs[i].key) == h)
    ensures forall j :: i < j < |recs| ==> H(hash, recs[j].key) != h
  {
    var n := |recs| - 1;
    if n == 0 || H(hash, recs[n].key) == h then n else NewestIn(recs[..n], hash, h)
  }

  // Every real record links to the previous one with its hash value.
  ghost predicate Linked(recs: seq<Rec>, hash: Hash) {
    forall i :: 0 < i < |recs| ==>
      recs[i].link == recs[NewestIn(recs[..i], hash, H(hash, recs[i].key))].off
  }

  ghost predicate HeadsOk(recs: seq<Rec>, hash: Hash, maps: seq<Entry>)
    requires |recs| > 0
  {
    forall h: u64 :: h != 0 ==> Head(maps, h) == recs[NewestIn(recs, hash, h)].off
  }

  // ------------------------------------------------------- what the log means

  // The map a log stands for: each record sets its key, and an empty value
  // removes it.
  ghost function Replay(recs: seq<Rec>): Map {
    if |recs| <= 1 then map[]
    else
      var n := |recs| - 1;
      var m := Replay(recs[..n]);
      if recs[n].val == [] then m - {recs[n].key} else m[recs[n].key := recs[n].val]
  }

  lemma {:induction false} ReplayNewest(recs: seq<Rec>, key: Bytes)
    requires |recs| > 0
    ensures var i := Newest(recs, key);
      && (key in Replay(recs) <==> i > 0 && recs[i].val != [])
      && (key in Replay(recs) ==> Replay(recs)[key] == recs[i].val)
    decreases |recs|
  {
    if |recs| > 1 {
      ReplayNewest(recs[..|recs| - 1], key);
    }
  }

  ghost function Stored(recs: seq<Rec>): nat {
    if |recs| <= 1 then 0
    else Stored(recs[..|recs| - 1]) + if recs[|recs| - 1].val == [] then 0 else 1
  }

  // ------------------------------------------------------------------- chains

  // Following back-links on the log itself.
  ghost function Follow(log: Bytes, off: nat): seq<nat>
    decreases off
  {
    if off == 0 then []
    else match LookupAt(log, off, 0, 0)
      case Found(_, _, _, _, link) => [off] + if link < off then Follow(log, link) else []
      case _ => [off]
  }

  // The offsets of all records with this hash value, newest first.
  ghost function ChainOf(recs: seq<Rec>, hash: Hash, h: u64): seq<nat> {
    if |recs| <= 1 then []
    else
      var n := |recs| - 1;
      (if H(hash, recs[n].key) == h then [recs[n].off] else []) + ChainOf(recs[..n], hash, h)
  }

  lemma {:induction false} ChainSkips(recs: seq<Rec>, hash: Hash, h: u64)
    requires |recs| > 0
    ensures var i := NewestIn(recs, hash, h);
      ChainOf(recs, hash, h) == if i == 0 then [] else [recs[i].off] + ChainOf(recs[..i], hash, h)
    decreases |recs|
  {
    var n := |recs| - 1;
    if n > 0 && H(hash, recs[n].key) != h {
      ChainSkips(recs[..n], hash, h);
      var i := NewestIn(recs, hash, h);
      assert recs[..n][..i] == recs[..i];
    }
  }

  lemma FirstOffset(log: Bytes, recs: seq<Rec>)
    requires Layout(log, recs)
    ensures |recs| > 0 && recs[0].off == 0
  {
  }

  // From a hash value's newest record on, the links visit exactly the records
  // with that hash value, newest first, at strictly falling offsets.
  lemma {:induction false} FollowIsChain(log: Bytes, recs: seq<Rec>, hash: Hash, h: u64, n: nat)
    requires Layout(log, recs) && Linked(recs, hash) && 0 < n <= |recs|
    ensures Follow(log, recs[NewestIn(recs[..n], hash, h)].off) == ChainOf(recs[..n], hash, h)
    decreases n
  {
    hide Layout, LookupAt;
    var i := NewestIn(recs[..n], hash, h);
    FirstOffset(log, recs);
    ChainSkips(recs[..n], hash, h);
    if i == 0 {
    } else {
      OffsetsGrow(log, recs, 0, i);
      RecordAt(log, recs, i, 0, 0);
      var p := NewestIn(recs[..i], hash, h);
      OffsetsGrow(log, recs, p, i);
      FollowIsChain(log, recs, hash, h, i);
      assert recs[..n][..i] == recs[..i];
    }
  }

  ghost predicate Falls(s: seq<nat>) {
    forall a, b :: 0 <= a < b < |s| ==> s[a] > s[b]
  }

  lemma FallsOn(x: nat, s: seq<nat>)
    requires Falls(s) && forall o :: o in s ==> o < x
    ensures Falls([x] + s)
  {
    assert forall a :: 0 <= a < |s| ==> s[a] in s;
  }

  // The chain has the offsets of all these records and no others ...
  lemma {:induction false} ChainMembers(recs: seq<Rec>, hash: Hash, h: u64, n: nat, o: nat)
    requires 0 < n <= |recs|
    ensures o in ChainOf(recs[..n], hash, h) <==>
      exists i :: 0 < i < n && H(hash, recs[i].key) == h && recs[i].off == o
    decreases n
  {
    if n > 1 {
      ChainMembers(recs, hash, h, n - 1, o);
      ChainUnfolds(recs, hash, h, n);
    }
  }

  lemma ChainUnfolds(recs: seq<Rec>, hash: Hash, h: u64, n: nat)
    requires 1 < n <= |recs|
    ensures var rest := ChainOf(recs[..n - 1], hash, h);
      ChainOf(recs[..n], hash, h) == if H(hash, recs[n - 1].key) == h then [recs[n - 1].off] + rest else rest
  {
    assert recs[..n][..n - 1] == recs[..n - 1];
  }

  lemma ChainBelow(log: Bytes, recs: seq<Rec>, hash: Hash, h: u64, n: nat, o: nat)
    requires Layout(log, recs) && 0 < n < |recs| && o in ChainOf(recs[..n], hash, h)
    ensures o < recs[n].off
  {
    hide Layout;
    ChainMembers(recs, hash, h, n, o);
    var i :| 0 < i < n && recs[i].off == o;
    OffsetsGrow(log, recs, i, n);
  }

  // ... newest first.
  lemma {:induction false} ChainFalls(log: Bytes, recs: seq<Rec>, hash: Hash, h: u64, n: nat)
    requires Layout(log, recs) && 0 < n <= |recs|
    ensures Falls(ChainOf(recs[..n], hash, h))
    decreases n
  {
    hide Layout, Falls, ChainOf;
    if n == 1 {
      FallsNone(recs[..1], hash, h);
    } else {
      ChainFalls(log, recs, hash, h, n - 1);
      ChainUnfolds(recs, hash, h, n);
      var rest := ChainOf(recs[..n - 1], hash, h);
      forall o | o in rest
        ensures o < recs[n - 1].off
      {
        ChainBelow(log, recs, hash, h, n - 1, o);
      }
      FallsOn(recs[n - 1].off, rest);
    }
  }

  lemma FallsNone(recs: seq<Rec>, hash: Hash, h: u64)
    requires |recs| <= 1
    ensures Falls(ChainOf(recs, hash, h))
  {
  }

  // ------------------------------------------------------------ one more record

  lemma LinkedGrows(recs: seq<Rec>, hash: Hash, maps: seq<Entry>, maps': seq<Entry>, r: Rec)
    requires |recs| > 0 && Linked(recs, hash) && HeadsOk(recs, hash, maps)
    requires r.link == Head(maps, H(hash, r.key))
    requires forall h: u64 :: h != 0 ==>
      Head(maps', h) == if h == H(hash, r.key) then r.off else Head(maps, h)
    ensures Linked(recs + [r], hash) && HeadsOk(recs + [r], hash, maps')
  {
    var recs' := recs + [r];
    assert recs'[..|recs|] == recs;
    forall i | 0 < i < |recs'|
      ensures recs'[i].link == recs'[NewestIn(recs'[..i], hash, H(hash, recs'[i].key))].off
    {
      if i < |recs| {
        assert recs'[..i] == recs[..i];
      }
    }
  }

  lemma ReplayGrows(recs: seq<Rec>, r: Rec)
    requires |recs| > 0
    ensures Replay(recs + [r]) == if r.val == [] then Replay(recs) - {r.key} else Replay(recs)[r.key := r.val]
    ensures Stored(recs + [r]) == Stored(recs) + if r.val == [] then 0 else 1
  {
    assert (recs + [r])[..|recs|] == recs;
  }

  // ------------------------------------------------------------- a plain map

  datatype Mode = Remove | Insert | Update | Replace

  // What each mutator does to a plain map: its return code and the new map.
  function OnMap(m: Map, mode: Mode, key: Bytes, val: Bytes): (int, Map) {
    match mode
    case Remove => if key in m then (0, m - {key}) else (1, m)
    case Insert => if key in m then (1, m) else (0, m[key := val])
    case Update => (0, m[key := val])
    case Replace => if key in m then (0, m[key := val]) else (1, m)
  }

  // What these calls do for each other, key by key.
  lemma OnMapLaws(m: Map, mode: Mode, key: Bytes, val: Bytes)
    ensures var (code, m') := OnMap(m, mode, key, val);
      && code in {0, 1}
      && (mode.Update? ==> code == 0)
      && (mode.Insert? ==> (code == 0 <==> key !in m))
      && (mode.Remove? || mode.Replace? ==> (code == 0 <==> key in m))
      && (code == 1 ==> m' == m)
      && (code == 0 && !mode.Remove? ==> key in m' && m'[key] == val)
      && (code == 0 && mode.Remove? ==> key !in m')
      && (forall k :: k != key ==> (k in m' <==> k in m))
      && (forall k :: k != key && k in m ==> m'[k] == m[k])
  {
  }

  // The key's value in the map: its whole length, and as much as the buffer takes.
  ghost predicate Gives(m: Map, key: Bytes, cap: nat, len: nat, out: Bytes) {
    key in m && len == |m[key]| && out == if len <= cap then m[key] else m[key][..cap]
  }

  // Return codes of the program; Exited is the EXIT of index.c.
  datatype Result = Exited | Code(code: int)

  class Db {
    var size: nat
    var waste: nat
    const raw: Raw
    const index: Table

    ghost function Hash(): Hash {
      index.hash
    }

    ghost predicate Apart()
      reads index
    {
      && this !in raw.Repr() && index !in raw.Repr() && index.maps !in raw.Repr()
    }

    ghost predicate Valid()
      reads this, raw, raw.fs, raw.fs.wcache, raw.fs.device, raw.fs.rcache, raw.fs.curBlk, index, index.maps
    {
      && Core()
      && size == |Contents()|
      && size + waste == Stored(raw.recs)
    }

    ghost predicate Core()
      reads raw, raw.fs, raw.fs.wcache, raw.fs.device, raw.fs.rcache, raw.fs.curBlk, index, index.maps
    {
      && raw.Valid() && index.Valid() && Apart()
      && |raw.recs| > 0
      && Linked(raw.recs, Hash())
      && HeadsOk(raw.recs, Hash(), index.maps[..])
    }

    // How the index took the key: into these slots, or not at all, which is EXIT.
    ghost predicate Indexed(before: seq<Entry>, key: Bytes, ok: bool)
      reads index, index.maps
    {
      match Entered(before, index.Key(key))
      case None => !ok
      case Some(t) => ok && Bare(index.maps[..]) == t
    }

    // At most this much was written, the steps of the ring went on from these, and the
    // worker was overtaken only if that can happen at all in a log of this size.
    ghost predicate Went(size: nat, n: nat, trace: seq<Ring.Event>)
      reads raw, raw.fs, raw.fs.wcache, raw.fs.device, raw.fs.rcache, raw.fs.curBlk
    {
      && raw.Valid() && trace <= raw.fs.trace
      && raw.size <= size + n && (raw.fs.overtaken ==> raw.Overtakable(raw.size))
    }

    lemma CoreApart()
      requires Core()
      ensures Apart() && raw.Valid()
    {
    }

    // The map from keys to non-empty values that the store stands for.
    ghost function Contents(): Map
      reads raw
    {
      Replay(raw.recs)
    }

    constructor (r: Raw, t: Table)
      requires r.Valid() && r.recs == [Rec(0, 0, [0], [0])]
      requires t.Valid() && t.maps.Length == 0 && t !in r.Repr() && t.maps !in r.Repr()
      ensures Valid() && raw == r && index == t && Contents() == map[] && size == waste == 0
    {
      raw, index, size, waste := r, t, 0, 0;
    }

    // One turn of chain_lookup's loop: is the record at this offset the key's?
    method Matches(key: Bytes, valCap: nat, off: nat, ghost i: nat)
        returns (code: int, found: bool, valLen: nat, val: Bytes, link: nat)
      requires raw.Valid() && !raw.fs.overtaken && off != 0
      requires i < |raw.recs| && raw.recs[i].off == off
      modifies raw.Repr() - {raw}
      ensures raw.Valid() && !raw.fs.overtaken && old(raw.fs.trace) <= raw.fs.trace && code == 0 && link == raw.recs[i].link
      ensures found <==> raw.recs[i].key == key
      ensures found ==> valLen == |raw.recs[i].val| && val == raw.recs[i].val[..Min(valLen, valCap)]
    {
      hide LogFs.Log.Valid, Layout, LookupAt;
      ghost var r0 := raw.recs[i];
      RecordAt(raw.fs.log, raw.recs, i, Min(|key|, 256), valCap);
      var r := raw.Lookup(Min(|key|, 256), valCap, off);
      code, found, valLen, val, link := 0, false, 0, [], 0;
      if !r.Found? {
        code := -1;
        return;
      }
      valLen, val, link := r.valLen, r.val, r.link;
      if r.keyLen != |key| || r.key[..Min(|key|, 8)] != key[..Min(|key|, 8)] {
        return;
      }
      if r.keyLen > 8 {
        RecordAt(raw.fs.log, raw.recs, i, r.keyLen, 0);
        r := raw.Lookup(r.keyLen, 0, off);
        if !r.Found? {
          code := -1;
          return;
        }
      }
      found := r.key[..|key|] == key;
      assert r0.key[..|r0.key|] == r0.key && key[..|key|] == key;
    }

    // chain_lookup: from the head of the key's chain to its newest record.
    method ChainLookup(key: Bytes, valCap: nat, head: nat)
        returns (code: int, off: nat, valLen: nat, val: Bytes)
      requires raw.Valid() && !raw.fs.overtaken && Linked(raw.recs, Hash())
      requires head == raw.recs[NewestIn(raw.recs, Hash(), H(Hash(), key))].off
      modifies raw.Repr() - {raw}
      ensures raw.Valid() && !raw.fs.overtaken && old(raw.fs.trace) <= raw.fs.trace && code == 0
      ensures off == raw.recs[Newest(raw.recs, key)].off
      ensures off == 0 <==> Newest(raw.recs, key) == 0
      ensures if Newest(raw.recs, key) == 0 then valLen == valCap
              else var v := raw.recs[Newest(raw.recs, key)].val;
                valLen == |v| && val == v[..Min(valLen, valCap)]
    {
      hide LogFs.Log.Valid, Layout, Reached, Linked, Newest, NewestIn;
      ghost var recs := raw.recs;
      ghost var i: nat := NewestIn(recs, Hash(), H(Hash(), key));
      off, valLen, val, code := head, valCap, [], 0;
      ChainStart(raw.fs.log, recs, Hash(), key);
      while off != 0
        invariant raw.Valid() && !raw.fs.overtaken && old(raw.fs.trace) <= raw.fs.trace && code == 0
        invariant Reached(recs, Hash(), key, i) && i < |recs| && off == recs[i].off && (off == 0 <==> i == 0)
        invariant valLen == valCap
        decreases off
      {
        var found, len, link;
        code, found, len, val, link := Matches(key, valCap, off, i);
        if code != 0 {
          return;
        }
        if found {
          valLen := len;
          ChainEnd(recs, Hash(), key, i);
          return;
        }
        i := ChainStep(raw.fs.log, recs, Hash(), key, i);
        off := link;
      }
      ChainEnd(recs, Hash(), key, i);
    }

    // kvdb_remove: mutate in its mode REMOVE.  outCap is the room for the removed
    // value; None is a caller that does not want it.
    method KvdbRemove(key: Bytes, outCap: Option<nat>) returns (r: Result, outLen: nat, out: Bytes)
      requires Valid() && !raw.fs.overtaken && 0 < |key| <= MAX_KEY
      requires raw.RoomFor(META_LEN + |key|)
      modifies this`size, this`waste, raw.Repr(), index`size, index`maps, index.maps
      ensures r.Code? ==> Valid()
      ensures r.Code? ==> (r.code, Contents()) == OnMap(old(Contents()), Remove, key, [])
      ensures r.Code? ==> waste == old(waste) + 1 - r.code
      ensures r == Code(0) && outCap.Some? ==> var v := old(Contents())[key];
        outLen == |v| && (|v| <= outCap.value ==> out == v) && (outCap.value < |v| ==> out == v[..outCap.value])
      ensures r != Code(0) && outCap.Some? ==> outLen == outCap.value
      ensures Indexed(old(Bare(index.maps[..])), key, r.Code?)
      ensures Went(old(raw.size), META_LEN + |key|, old(raw.fs.trace)) && (index.maps == old(index.maps) || fresh(index.maps))
    {
      hide Core, Replay, Stored, Entered, Bare, Raw.Repr, Raw.Valid;
      CoreApart();
      MapSizes(Contents(), key, []);
      var slot, head, code, off, len, v;
      slot, head, code, off, len, v := Find(key, if outCap.Some? then outCap.value else 0);
      outLen, out := if outCap.Some? then outCap.value else 0, v;
      if slot.None? {
        r := Exited;
        return;
      }
      if code != 0 {
        r := Code(-1);
        return;
      }
      if off == 0 || len == 0 {
        r := Code(1);
        return;
      }
      Put(slot.value, key, [], head);
      outLen := len;
      size := size - 1;
      waste := waste + 1;
      r := Code(0);
    }

    // kvdb_insert: mode INSERT.
    method KvdbInsert(key: Bytes, val: Bytes) returns (r: Result)
      requires Valid() && !raw.fs.overtaken && 0 < |key| <= MAX_KEY && 0 < |val| <= MAX_VAL
      requires raw.RoomFor(META_LEN + |key| + |val|)
      modifies this`size, this`waste, raw.Repr(), index`size, index`maps, index.maps
      ensures r.Code? ==> Valid()
      ensures r.Code? ==> (r.code, Contents()) == OnMap(old(Contents()), Insert, key, val)
      ensures r.Code? ==> waste == old(waste)
      ensures Indexed(old(Bare(index.maps[..])), key, r.Code?)
      ensures Went(old(raw.size), META_LEN + |key| + |val|, old(raw.fs.trace)) && (index.maps == old(index.maps) || fresh(index.maps))
    {
      hide Core, Replay, Stored, Entered, Bare, Raw.Repr, Raw.Valid;
      CoreApart();
      MapSizes(Contents(), key, val);
      var slot, head, code, off, len, v;
      slot, head, code, off, len, v := Find(key, 0);
      if slot.None? {
        return Exited;
      }
      if code != 0 {
        return Code(-1);
      }
      if off != 0 && len != 0 {
        return Code(1);
      }
      Put(slot.value, key, val, head);
      size := size + 1;
      r := Code(0);
    }

    // kvdb_update: mode UPDATE.
    method KvdbUpdate(key: Bytes, val: Bytes) returns (r: Result)
      requires Valid() && !raw.fs.overtaken && 0 < |key| <= MAX_KEY && 0 < |val| <= MAX_VAL
      requires raw.RoomFor(META_LEN + |key| + |val|)
      modifies this`size, this`waste, raw.Repr(), index`size, index`maps, index.maps
      ensures r.Code? ==> Valid()
      ensures r.Code? ==> (r.code, Contents()) == OnMap(old(Contents()), Update, key, val)
      ensures r.Code? ==> waste == old(waste) + if key in old(Contents()) then 1 else 0
      ensures Indexed(old(Bare(index.maps[..])), key, r.Code?)
      ensures Went(old(raw.size), META_LEN + |key| + |val|, old(raw.fs.trace)) && (index.maps == old(index.maps) || fresh(index.maps))
    {
      hide Core, Replay, Stored, Entered, Bare, Raw.Repr, Raw.Valid;
      CoreApart();
      MapSizes(Contents(), key, val);
      var slot, head, code, off, len, v;
      slot, head, code, off, len, v := Find(key, 0);
      if slot.None? {
        return Exited;
      }
      if code != 0 {
        return Code(-1);
      }
      if off == 0 || len == 0 {
        size := size + 1;
      } else {
        waste := waste + 1;
      }
      Put(slot.value, key, val, head);
      r := Code(0);
    }

    // kvdb_replace: mode REPLACE.
    method KvdbReplace(key: Bytes, val: Bytes) returns (r: Result)
      requires Valid() && !raw.fs.overtaken && 0 < |key| <= MAX_KEY && 0 < |val| <= MAX_VAL
      requires raw.RoomFor(META_LEN + |key| + |val|)
      modifies this`size, this`waste, raw.Repr(), index`size, index`maps, index.maps
      ensures r.Code? ==> Valid()
      ensures r.Code? ==> (r.code, Contents()) == OnMap(old(Contents()), Replace, key, val)
      ensures r.Code? ==> waste == old(waste) + 1 - r.code
      ensures Indexed(old(Bare(index.maps[..])), key, r.Code?)
      ensures Went(old(raw.size), META_LEN + |key| + |val|, old(raw.fs.trace)) && (index.maps == old(index.maps) || fresh(index.maps))
    {
      hide Core, Replay, Stored, Entered, Bare, Raw.Repr, Raw.Valid;
      CoreApart();
      MapSizes(Contents(), key, val);
      var slot, head, code, off, len, v;
      slot, head, code, off, len, v := Find(key, 0);
      if slot.None? {
        return Exited;
      }
      if code != 0 {
        return Code(-1);
      }
      if off == 0 || len == 0 {
        return Code(1);
      }
      Put(slot.value, key, val, head);
      waste := waste + 1;
      r := Code(0);
    }

    // kvdb_lookup: nothing changes but what the log's readers cache.
    method KvdbLookup(key: Bytes, outCap: Option<nat>) returns (code: int, outLen: nat, out: Bytes)
      requires Valid() && !raw.fs.overtaken && 0 < |key| <= MAX_KEY
      modifies raw.Repr() - {raw}
      ensures Valid() && !raw.fs.overtaken && Contents() == old(Contents())
      ensures Went(old(raw.size), 0, old(raw.fs.trace))
      ensures code == if key in Contents() then 0 else 1
      ensures code == 0 && outCap.Some? ==> var v := Contents()[key];
        outLen == |v| && (|v| <= outCap.value ==> out == v) && (outCap.value < |v| ==> out == v[..outCap.value])
      ensures code != 0 && outCap.Some? ==> outLen == outCap.value
    {
      hide LogFs.Log.Valid, Layout, Placed, Used, Linked, Replay, Stored;
      var cap := if outCap.Some? then outCap.value else 0;
      var slot := index.IndexLookup(key);
      ReplayNewest(raw.recs, key);
      if slot.None? || index.maps[slot.value].off == 0 {
        NoHeadNoKey(raw.fs.log, raw.recs, Hash(), index.maps[..], key);
        return 1, cap, [];
      }
      var off, len;
      code, off, len, out := ChainLookup(key, cap, index.maps[slot.value].off);
      outLen := cap;
      if code != 0 {
        return;
      }
      if off == 0 || len == 0 {
        code := 1;
        return;
      }
      outLen := len;
    }

    // The first half of mutate: the index entry, and the key's newest record.
    method Find(key: Bytes, cap: nat)
        returns (slot: Option<nat>, head: u64, code: int, off: nat, outLen: nat, out: Bytes)
      requires Core() && !raw.fs.overtaken && 0 < |key| <= MAX_KEY
      modifies raw.Repr() - {raw}, index`size, index`maps, index.maps
      ensures index.maps == old(index.maps) || fresh(index.maps)
      ensures raw.Valid() && raw.fs.overtaken == old(raw.fs.overtaken) && old(raw.fs.trace) <= raw.fs.trace
      ensures Indexed(old(Bare(index.maps[..])), key, slot.Some?)
      ensures slot.Some? ==> Core() && code == 0
      ensures slot.Some? ==>
        slot.value < index.maps.Length && index.maps[slot.value] == Entry(H(Hash(), key), head)
      ensures slot.Some? ==> (off != 0 && outLen != 0 <==> key in Contents())
      ensures slot.Some? && key in Contents() ==> Gives(Contents(), key, cap, outLen, out)
    {
      hide LogFs.Log.Valid, Layout, Placed, Used, Linked, Replay;
      head, code, off, outLen, out := 0, 0, 0, 0, [];
      slot := index.IndexUpdate(key);
      if slot.None? {
        return;
      }
      head := index.maps[slot.value].off;
      assert Core();
      code, off, outLen, out := ChainLookup(key, cap, head);
      ReplayNewest(raw.recs, key);
    }

    // kvraw_append with the index entry as the link to read and to overwrite.
    method Put(slot: nat, key: Bytes, val: Bytes, head: u64)
      requires Core() && slot < index.maps.Length && index.maps[slot] == Entry(H(Hash(), key), head)
      requires 0 < |key| <= MAX_KEY && |val| <= MAX_VAL && raw.RoomFor(META_LEN + |key| + |val|)
      modifies raw.Repr(), index.maps
      ensures Bare(index.maps[..]) == old(Bare(index.maps[..]))
      ensures Core() && raw.Valid() && raw.size == old(raw.size) + META_LEN + |key| + |val|
      ensures raw.fs.overtaken && !old(raw.fs.overtaken) ==> raw.Overtakable(raw.size)
      ensures old(raw.fs.trace) <= raw.fs.trace
      ensures Contents() == if val == [] then old(Contents()) - {key} else old(Contents())[key := val]
      ensures Stored(raw.recs) == old(Stored(raw.recs)) + if val == [] then 0 else 1
    {
      hide LogFs.Log.Valid, Layout, Linked, HeadsOk, Placed, Used, Replay, Stored, Head;
      ghost var maps := index.maps[..];
      HeadOfSlot(maps, slot);
      var off := raw.Append(key, val, head);
      SetKeeps(maps, slot, off);
      index.SetOff(slot, off);
      HeadsAfterSet(maps, slot, off);
      LinkedGrows(old(raw.recs), Hash(), maps, index.maps[..], Rec(off, head, key, val));
      ReplayGrows(old(raw.recs), Rec(off, head, key, val));
    }
  }

  lemma MapSizes(m: Map, key: Bytes, val: Bytes)
    ensures |m[key := val]| == |m| + if key in m then 0 else 1
    ensures |m - {key}| == |m| - if key in m then 1 else 0
  {
    assert (m - {key}).Keys == m.Keys - {key};
    assert m[key := val].Keys == m.Keys + {key};
    assert |m[key := val].Keys| == |m.Keys| + if key in m then 0 else 1;
    assert |(m - {key}).Keys| == |m.Keys| - if key in m then 1 else 0;
  }

  lemma HeadsAfterSet(maps: seq<Entry>, slot: nat, off: u64)
    requires Placed(maps) && slot < |maps| && maps[slot].key != 0
    ensures var maps' := maps[slot := maps[slot].(off := off)];
      forall h: u64 :: h != 0 ==> Head(maps', h) == if h == maps[slot].key then off else Head(maps, h)
  {
    SetKeeps(maps, slot, off);
  }

  // Searching for the key, the search has come down its chain to record i.
  ghost predicate Reached(recs: seq<Rec>, hash: Hash, key: Bytes, i: nat) {
    i < |recs| && (i > 0 ==> H(hash, recs[i].key) == H(hash, key)) &&
    forall j :: i < j < |recs| ==> recs[j].key != key
  }

  lemma ChainStart(log: Bytes, recs: seq<Rec>, hash: Hash, key: Bytes)
    requires Layout(log, recs)
    ensures var i := NewestIn(recs, hash, H(hash, key));
      Reached(recs, hash, key, i) && (recs[i].off == 0 <==> i == 0)
  {
    OffsetIsIndex(log, recs, NewestIn(recs, hash, H(hash, key)));
  }

  lemma ChainStep(log: Bytes, recs: seq<Rec>, hash: Hash, key: Bytes, i: nat) returns (p: nat)
    requires Layout(log, recs) && Linked(recs, hash) && Reached(recs, hash, key, i)
    requires i > 0 && recs[i].key != key
    ensures p < i && recs[i].link == recs[p].off < recs[i].off
    ensures Reached(recs, hash, key, p) && (recs[p].off == 0 <==> p == 0)
  {
    hide Layout, NewestIn;
    p := NewestIn(recs[..i], hash, H(hash, key));
    OffsetsGrow(log, recs, p, i);
    OffsetIsIndex(log, recs, p);
    forall j | p < j < |recs|
      ensures recs[j].key != key
    {
      if j < i {
        assert recs[..i][j] == recs[j];
      }
    }
  }

  lemma ChainEnd(recs: seq<Rec>, hash: Hash, key: Bytes, i: nat)
    requires |recs| > 0 && Reached(recs, hash, key, i) && (i == 0 || recs[i].key == key)
    ensures Newest(recs, key) == i
  {
  }

  lemma NoHeadNoKey(log: Bytes, recs: seq<Rec>, hash: Hash, maps: seq<Entry>, key: Bytes)
    requires Layout(log, recs) && HeadsOk(recs, hash, maps)
    requires Head(maps, H(hash, key)) == 0
    ensures Newest(recs, key) == 0
  {
    ChainStart(log, recs, hash, key);
    ChainEnd(recs, hash, key, 0);
  }

  lemma OffsetIsIndex(log: Bytes, recs: seq<Rec>, i: nat)
    requires Layout(log, recs) && i < |recs|
    ensures recs[i].off == 0 <==> i == 0
    ensures recs[i].off < |log|
    ensures recs[0].off == 0
  {
    if i > 0 {
      OffsetsGrow(log, recs, 0, i);
    }
  }
}
