// Whole histories of the store of project-4: any sequence of calls of kvdb.h,
// against a plain map.
module History {
  import opened Bytes
  import opened Kvraw
  import opened Index
  import opened Kvdb
  import opened Options

  // A call: a mutator, or a lookup.  `cap` is the room in the caller's buffer, None
  // if it passes none.
  datatype Call =
    | Mutate(mode: Mode, key: Bytes, val: Bytes, cap: Option<nat>)
    | LookUp(key: Bytes, cap: Option<nat>)

  // What comes back: the return code, and the value if one was asked for and found.
  datatype Reply = Reply(code: int, got: Option<(nat, Bytes)>)

  // What kvdb.c asserts of its arguments.
  predicate Legal(c: Call) {
    && 0 < |c.key| <= MAX_KEY
    && (c.Mutate? && !c.mode.Remove? ==> 0 < |c.val| <= MAX_VAL)
  }

  // The most a call can add to the log.
  function Cost(c: Call): (n: nat)
    ensures c.LookUp? ==> n == 0
    ensures c.Mutate? ==> n <= META_LEN + |c.key| + |c.val|
  {
    if c.LookUp? then 0 else META_LEN + |c.key| + if c.mode.Remove? then 0 else |c.val|
  }

  function TotalCost(calls: seq<Call>): nat {
    if calls == [] then 0 else Cost(calls[0]) + TotalCost(calls[1..])
  }

  // --------------------------------------------------------------- a plain map

  function Value(m: Map, key: Bytes, cap: Option<nat>): (got: Option<(nat, Bytes)>) {
    if key in m && cap.Some? then Some((|m[key]|, if |m[key]| <= cap.value then m[key] else m[key][..cap.value])) else None
  }

  function Answer(m: Map, c: Call): (Reply, Map) {
    match c
    case LookUp(key, cap) => (Reply(if key in m then 0 else 1, Value(m, key, cap)), m)
    case Mutate(mode, key, val, cap) =>
      var (code, m') := OnMap(m, mode, key, val);
      (Reply(code, if mode.Remove? then Value(m, key, cap) else None), m')
  }

  // The replies of a plain map to a sequence of calls, and what it then holds.
  function Answers(m: Map, calls: seq<Call>): (seq<Reply>, Map) {
    if calls == [] then ([], m)
    else
      var n := |calls| - 1;
      var (replies, m') := Answers(m, calls[..n]);
      var (reply, m'') := Answer(m', calls[n]);
      (replies + [reply], m'')
  }

  // The i-th call has changed what the map holds for this key.
  ghost predicate Sets(m: Map, calls: seq<Call>, i: nat, key: Bytes)
    requires i < |calls|
  {
    AnswersLength(m, calls);
    calls[i].Mutate? && calls[i].key == key && Answers(m, calls).0[i].code == 0
  }

  lemma {:induction false} AnswersLength(m: Map, calls: seq<Call>)
    ensures |Answers(m, calls).0| == |calls|
  {
    if calls == [] {
    } else {
      AnswersLength(m, calls[..|calls| - 1]);
    }
  }

  lemma SetsBefore(m: Map, calls: seq<Call>, i: nat, key: Bytes)
    requires i < |calls| - 1
    ensures Sets(m, calls, i, key) <==> Sets(m, calls[..|calls| - 1], i, key)
  {
    AnswersLength(m, calls[..|calls| - 1]);
  }

  // A lookup of a key is answered by the last of the calls that has changed it: with
  // the value that one gave, or not at all if it was a removal ...
  lemma {:induction false} LastWriteWins(m: Map, calls: seq<Call>, i: nat, key: Bytes, cap: nat)
    requires i < |calls| && Sets(m, calls, i, key)
    requires forall j :: i < j < |calls| ==> !Sets(m, calls, j, key)
    ensures var reply := Answer(Answers(m, calls).1, LookUp(key, Some(cap))).0;
      var val := calls[i].val;
      if calls[i].mode.Remove? then reply == Reply(1, None)
      else
        && reply.code == 0 && reply.got.Some? && reply.got.value.0 == |val|
        && (|val| <= cap ==> reply.got.value.1 == val)
        && (cap < |val| ==> reply.got.value.1 == val[..cap])
    decreases |calls|
  {
    var n := |calls| - 1;
    var c, before := calls[n], Answers(m, calls[..n]).1;
    AnswersLength(m, calls[..n]);
    if c.Mutate? {
      OnMapLaws(before, c.mode, c.key, c.val);
    }
    if i < n {
      SetsBefore(m, calls, i, key);
      forall j | i < j < n
        ensures !Sets(m, calls[..n], j, key)
      {
        SetsBefore(m, calls, j, key);
      }
      assert !Sets(m, calls, n, key);
      LastWriteWins(m, calls[..n], i, key, cap);
    }
  }

  // ... and as before the calls if there is none.
  lemma {:induction false} UntouchedStays(m: Map, calls: seq<Call>, key: Bytes, cap: Option<nat>)
    requires forall j :: 0 <= j < |calls| ==> !Sets(m, calls, j, key)
    ensures Answer(Answers(m, calls).1, LookUp(key, cap)).0 == Answer(m, LookUp(key, cap)).0
  {
    if calls == [] {
    } else {
      var n := |calls| - 1;
      var c, before := calls[n], Answers(m, calls[..n]).1;
      AnswersLength(m, calls[..n]);
      if c.Mutate? {
        OnMapLaws(before, c.mode, c.key, c.val);
      }
      assert !Sets(m, calls, n, key);
      forall j | 0 <= j < n
        ensures !Sets(m, calls[..n], j, key)
      {
        SetsBefore(m, calls, j, key);
      }
      UntouchedStays(m, calls[..n], key, cap);
    }
  }

  // ------------------------------------------------------- how far the index goes

  // How many calls are served before the first EXIT, if there is one.  It depends
  // on the slots that are taken and on the hash values of the keys.
  function Served(s: seq<Entry>, hash: Hash, calls: seq<Call>): (n: nat)
    ensures n <= |calls|
    decreases |calls|
  {
    if calls == [] then 0
    else if calls[0].LookUp? then 1 + Served(s, hash, calls[1..])
    else match Entered(s, H(hash, calls[0].key))
      case None => 0
      case Some(t) => 1 + Served(t, hash, calls[1..])
  }

  // The hash values the calls enter.
  ghost function Hashes(hash: Hash, calls: seq<Call>): set<u64> {
    set i | 0 <= i < |calls| && calls[i].Mutate? :: H(hash, calls[i].key)
  }

  function TableAfter(s: seq<Entry>, hash: Hash, calls: seq<Call>): Option<seq<Entry>>
    decreases |calls|
  {
    if calls == [] then Some(s)
    else if calls[0].LookUp? then TableAfter(s, hash, calls[1..])
    else match Entered(s, H(hash, calls[0].key))
      case None => None
      case Some(t) => TableAfter(t, hash, calls[1..])
  }

  // The n-th call is a mutation whose hash value finds no slot in the table that the
  // calls before it have left.
  predicate StopsAt(s: seq<Entry>, hash: Hash, calls: seq<Call>, n: nat)
    requires n < |calls|
  {
    && calls[n].Mutate?
    && TableAfter(s, hash, calls[..n]).Some?
    && Entered(TableAfter(s, hash, calls[..n]).value, H(hash, calls[n].key)) == None
  }

  lemma {:induction false} StopsAtExit(s: seq<Entry>, hash: Hash, calls: seq<Call>)
    requires Served(s, hash, calls) < |calls|
    ensures StopsAt(s, hash, calls, Served(s, hash, calls))
    decreases |calls|
  {
    hide Entered;
    var n := Served(s, hash, calls);
    if n == 0 {
      assert calls[..0] == [];
    } else {
      assert calls[..n][0] == calls[0] && calls[..n][1..] == calls[1..][..n - 1];
      StopsAtExit(
        if calls[0].LookUp? then s else Entered(s, H(hash, calls[0].key)).value, hash, calls[1..]);
    }
  }

  // No hash value, stored or entered, is within the largest capacity that these
  // calls can reach of 2^64.
  ghost predicate FarFromWrap(s: seq<Entry>, hash: Hash, calls: seq<Call>) {
    var c := Reach(|s|, Used(s) + |calls|);
    && c < TWO64
    && (forall h :: h in Keys(s) ==> h + c <= TWO64)
    && (forall h :: h in Hashes(hash, calls) ==> h + c <= TWO64)
  }

  lemma FarStep(s: seq<Entry>, hash: Hash, calls: seq<Call>)
    requires Placed(s) && FarFromWrap(s, hash, calls) && calls != [] && calls[0].Mutate?
    ensures var t := Entered(s, H(hash, calls[0].key));
      t.Some? && Placed(t.value) && FarFromWrap(t.value, hash, calls[1..])
  {
    hide Hashes, Keys, Placed, Used, Entered, Reach, NextCapacity;
    var h := H(hash, calls[0].key);
    HashesSplit(hash, calls);
    ReachGrows(Used(s), |s|, Used(s) + |calls|);
    NoExit(s, h);
    EnteredKeeps(s, h);
    var t := Entered(s, h).value;
    ReachMonotone(|t|, Used(t) + |calls[1..]|, Used(s) + |calls|);
  }

  lemma FarSkip(s: seq<Entry>, hash: Hash, calls: seq<Call>)
    requires FarFromWrap(s, hash, calls) && calls != []
    ensures FarFromWrap(s, hash, calls[1..])
  {
    hide Hashes, Keys, Used, Reach;
    HashesSplit(hash, calls);
    ReachMonotone(|s|, Used(s) + |calls[1..]|, Used(s) + |calls|);
  }

  // Then all calls are served.
  lemma {:induction false} AllServed(s: seq<Entry>, hash: Hash, calls: seq<Call>)
    requires Placed(s) && FarFromWrap(s, hash, calls)
    ensures Served(s, hash, calls) == |calls|
    decreases |calls|
  {
    hide Placed, FarFromWrap, Entered;
    if calls == [] {
    } else if calls[0].LookUp? {
      FarSkip(s, hash, calls);
      AllServed(s, hash, calls[1..]);
    } else {
      FarStep(s, hash, calls);
      AllServed(Entered(s, H(hash, calls[0].key)).value, hash, calls[1..]);
    }
  }

  // The EXIT does happen in a store that starts empty: with a hash function that
  // takes these values, the 215th of these updates is not served.
  function Value64(key: Bytes): u64 {
    if Nat(key) < TWO64 then Nat(key) else 0
  }

  function Updates(hs: seq<u64>): (calls: seq<Call>)
    ensures |calls| == |hs|
  {
    seq(|hs|, i requires 0 <= i < |hs| => Mutate(Update, Le(hs[i], 8), [1], None))
  }

  lemma {:induction false} EnteredFirst(s: seq<Entry>, hs: seq<u64>)
    requires hs != []
    ensures EnteredAll(s, hs) ==
            match Entered(s, hs[0])
            case None => None
            case Some(t) => EnteredAll(t, hs[1..])
    decreases |hs|
  {
    hide Entered;
    var n := |hs| - 1;
    if n == 0 {
      assert hs[..0] == [] && hs[1..] == [];
    } else {
      EnteredFirst(s, hs[..n]);
      assert hs[..n][1..] == hs[1..][..n - 1];
    }
  }

  lemma {:induction false} UpdatesServed(s: seq<Entry>, hs: seq<u64>)
    requires forall i :: 0 <= i < |hs| ==> hs[i] != 0
    ensures Served(s, Value64, Updates(hs)) == |hs| <==> EnteredAll(s, hs).Some?
    decreases |hs|
  {
    hide Entered;
    if hs == [] {
    } else {
      EnteredFirst(s, hs);
      Widths();
      NatOfLe(hs[0], 8);
      assert Updates(hs)[1..] == Updates(hs[1..]);
      if Entered(s, hs[0]).Some? {
        UpdatesServed(Entered(s, hs[0]).value, hs[1..]);
      }
    }
  }

  lemma StoreExits()
    ensures var calls := Updates(FirstKeys(213) + [363] + [TURNED_AWAY]);
      |calls| == 215 && (forall i :: 0 <= i < |calls| ==> Legal(calls[i])) &&
      Served([], Value64, calls) < |calls|
  {
    hide EnteredAll, Served;
    WrapHappens();
    UpdatesServed([], FirstKeys(213) + [363] + [TURNED_AWAY]);
  }

  lemma HashesSplit(hash: Hash, calls: seq<Call>)
    requires calls != []
    ensures Hashes(hash, calls[1..]) <= Hashes(hash, calls)
    ensures calls[0].Mutate? ==> H(hash, calls[0].key) in Hashes(hash, calls)
  {
    forall h | h in Hashes(hash, calls[1..])
      ensures h in Hashes(hash, calls)
    {
      var i :| 0 <= i < |calls| - 1 && calls[1..][i].Mutate? && H(hash, calls[1..][i].key) == h;
      assert calls[i + 1] == calls[1..][i];
    }
  }

  // ------------------------------------------------------------------ the store

  // `overtaken` says whether a push has overtaken the worker among the steps that the
  // ring has made since it was opened, and these led to the state it is in.
  ghost predicate Told(fs: LogFs.Log)
    reads fs, fs.wcache, fs.device
  {
    && Ring.Opened(fs.origin) && fs.origin.device == fs.initial
    && Ring.Run(fs.First(), fs.B, fs.trace)
    && Ring.Last(fs.First(), fs.B, fs.trace) == Ring.Config(fs.RingOf(), fs.HistOf())
    && (fs.overtaken <==> !Ring.NeverOvertakes(fs.First(), fs.B, fs.trace))
  }

  lemma ToldOf(raw: Raw)
    requires raw.Valid()
    ensures Told(raw.fs)
  {
    hide Layout;
    raw.fs.OvertakenExact();
  }

  // One call; None is EXIT.
  method One(db: Db, c: Call) returns (reply: Option<Reply>)
    requires db.Valid() && Legal(c) && db.raw.RoomFor(Cost(c)) && !db.raw.fs.overtaken
    modifies db`size, db`waste, db.raw.Repr(), db.index`size, db.index`maps, db.index.maps
    ensures reply.Some? ==> db.Valid() && (reply.value, db.Contents()) == Answer(old(db.Contents()), c)
    ensures if c.LookUp? then reply.Some? && Bare(db.index.maps[..]) == old(Bare(db.index.maps[..]))
            else db.Indexed(old(Bare(db.index.maps[..])), c.key, reply.Some?)
    ensures db.Went(old(db.raw.size), Cost(c), old(db.raw.fs.trace))
    ensures db.index.maps == old(db.index.maps) || fresh(db.index.maps)
  {
    hide Db.Core, Entered, Bare, Db.Contents, Kvraw.Raw.Repr, Kvraw.Raw.Valid;
    db.CoreApart();
    reply := None;
    match c
    case LookUp(key, cap) =>
      var code, len, out := db.KvdbLookup(key, cap);
      reply := Some(Reply(code, if code == 0 && cap.Some? then Some((len, out)) else None));
    case Mutate(mode, key, val, cap) =>
      var r, got := Exited, None;
      match mode {
        case Remove =>
          var len, out;
          r, len, out := db.KvdbRemove(key, cap);
          if r == Code(0) && cap.Some? {
            got := Some((len, out));
          }
        case Insert => r := db.KvdbInsert(key, val);
        case Update => r := db.KvdbUpdate(key, val);
        case Replace => r := db.KvdbReplace(key, val);
      }
      if r.Code? {
        reply := Some(Reply(r.code, got));
      }
  }

  lemma FarServed(db: Db, calls: seq<Call>)
    requires db.Valid()
    ensures db.raw.Valid()
    ensures FarFromWrap(Bare(db.index.maps[..]), db.Hash(), calls)
      ==> Served(Bare(db.index.maps[..]), db.Hash(), calls) == |calls|
  {
    PlacedBare(db.index.maps[..]);
    hide Placed, FarFromWrap, Served, Bare;
    if FarFromWrap(Bare(db.index.maps[..]), db.Hash(), calls) {
      AllServed(Bare(db.index.maps[..]), db.Hash(), calls);
    }
  }

  // Any sequence of calls.  Every reply and the final contents are those of a plain
  // map, exactly up to the first EXIT, if there is one, or the first call in which a
  // push overtakes the worker: that one's reply is still right, and what comes after
  // is not told.  The hash function and the interleaving with the worker are any.
  method Session(db: Db, calls: seq<Call>) returns (replies: seq<Reply>)
    requires db.Valid() && !db.raw.fs.overtaken
    requires forall i :: 0 <= i < |calls| ==> Legal(calls[i])
    requires db.raw.RoomFor(TotalCost(calls))
    modifies db`size, db`waste, db.raw.Repr(), db.index`size, db.index`maps, db.index.maps
    ensures var n := Served(old(Bare(db.index.maps[..])), db.Hash(), calls);
      && |replies| <= n && (!db.raw.fs.overtaken ==> |replies| == n)
      && (|replies| == n < |calls| ==> StopsAt(old(Bare(db.index.maps[..])), db.Hash(), calls, n))
      && (old(FarFromWrap(Bare(db.index.maps[..]), db.Hash(), calls)) ==> n == |calls|)
      && (|replies| < n || n == |calls| ==>
           db.Valid() && db.Contents() == Answers(old(db.Contents()), calls[..|replies|]).1)
    ensures replies == Answers(old(db.Contents()), calls[..|replies|]).0
    ensures db.raw.fs.overtaken ==> db.raw.Overtakable(db.raw.size)
    ensures db.raw.Valid() && old(db.raw.fs.trace) <= db.raw.fs.trace && Told(db.raw.fs)
    ensures db.raw.size <= old(db.raw.size) + TotalCost(calls)
    ensures db.index.maps == old(db.index.maps) || fresh(db.index.maps)
  {
    hide Db.Valid, Entered, Bare, Db.Contents, Kvraw.Raw.Repr, Kvraw.Raw.Valid, Told, Answer, Cost, Legal, FarFromWrap, StopsAt;
    FarServed(db, calls);
    if Served(Bare(db.index.maps[..]), db.Hash(), calls) < |calls| {
      StopsAtExit(Bare(db.index.maps[..]), db.Hash(), calls);
    }
    ghost var m, s := db.Contents(), Bare(db.index.maps[..]);
    replies := [];
    while |replies| < |calls| && !db.raw.fs.overtaken
      invariant |replies| <= |calls| && db.Valid() && (db.raw.fs.overtaken ==> db.raw.Overtakable(db.raw.size))
      invariant db.raw.Valid() && old(db.raw.fs.trace) <= db.raw.fs.trace
      invariant (replies, db.Contents()) == Answers(m, calls[..|replies|])
      invariant Served(s, db.Hash(), calls)
             == |replies| + Served(Bare(db.index.maps[..]), db.Hash(), calls[|replies|..])
      invariant db.raw.size + TotalCost(calls[|replies|..]) <= old(db.raw.size) + TotalCost(calls)
      invariant db.index.maps == old(db.index.maps) || fresh(db.index.maps)
      decreases |calls| - |replies|
    {
      var i := |replies|;
      assert calls[i..][1..] == calls[i + 1..];
      assert calls[..i + 1][..i] == calls[..i];
      var reply := One(db, calls[i]);
      if reply.None? {
        ToldOf(db.raw);
        return;
      }
      replies := replies + [reply.value];
    }
    ToldOf(db.raw);
  }

  // kvraw_open on a device.
  method KvrawOpen(dev: array<Bytes>, blkSz: nat, releasesLast: bool) returns (raw: Raw)
    requires blkSz > 0 && 3 % blkSz != 0 && forall i :: 0 <= i < dev.Length ==> |dev[i]| == blkSz
    requires META_LEN + 2 <= Ring.Start(dev.Length, blkSz) <= TWO64
    modifies dev
    ensures raw.Valid() && raw.recs == [Rec(0, 0, [0], [0])] && fresh(raw.Repr() - {dev})
    ensures raw.fs.device == dev && raw.fs.B == blkSz && raw.fs.releasesLast == releasesLast
    ensures raw.size == META_LEN + 2 && !raw.fs.overtaken && raw.fs.initial == old(dev[..])
  {
    hide LogFs.Log.Valid, Layout;
    Ring.StartIsProduct(Ring.WCACHE_BLOCKS + 1, blkSz);
    var log := new LogFs.Log(blkSz, dev, releasesLast);
    raw := new Raw(log);
  }

  // kvdb_open on it.
  method KvdbOpen(raw: Raw, hash: Hash) returns (db: Db)
    requires raw.Valid() && raw.recs == [Rec(0, 0, [0], [0])]
    ensures db.Valid() && db.raw == raw && db.Hash() == hash && db.Contents() == map[]
    ensures fresh(db) && fresh(db.index) && fresh(db.index.maps) && Bare(db.index.maps[..]) == []
  {
    hide LogFs.Log.Valid, Layout;
    assert allocated(raw.Repr());
    var table := new Table(hash, 0);
    assert Bare(table.maps[..]) == [];
    db := new Db(raw, table);
  }

  // From opening a device to the last reply, with the steps of the ring on the way.
  method OpenAndServe(dev: array<Bytes>, blkSz: nat, releasesLast: bool, hash: Hash, calls: seq<Call>)
      returns (replies: seq<Reply>, overtaken: bool, ghost first: Ring.Config, ghost steps: seq<Ring.Event>)
    requires blkSz > 0 && 3 % blkSz != 0 && forall i :: 0 <= i < dev.Length ==> |dev[i]| == blkSz
    requires forall i :: 0 <= i < |calls| ==> Legal(calls[i])
    requires META_LEN + 2 + TotalCost(calls) <= Ring.Start(dev.Length, blkSz) <= TWO64
    modifies dev
    ensures |replies| <= Served([], hash, calls) && (!overtaken ==> |replies| == Served([], hash, calls))
    ensures FarFromWrap([], hash, calls) && !overtaken ==> |replies| == |calls|
    ensures replies == Answers(map[], calls[..|replies|]).0
    ensures Ring.Opened(first.s) && first.h == Ring.Hist(first.h.log, 0, 0, {}, false, old(dev[..]))
    ensures Ring.Run(first, blkSz, steps) && Ring.Last(first, blkSz, steps).s.device == dev[..]
    ensures overtaken <==> !Ring.NeverOvertakes(first, blkSz, steps)
    ensures overtaken ==>
      !releasesLast && Ring.Start(Ring.WCACHE_BLOCKS + 1, blkSz) <= META_LEN + 2 + TotalCost(calls)
  {
    hide Db.Valid, Raw.Valid, Served, Answers, Legal, TotalCost, Bare, FarFromWrap;
    var raw := KvrawOpen(dev, blkSz, releasesLast);
    var db := KvdbOpen(raw, hash);
    replies := Session(db, calls);
    overtaken, first, steps := raw.fs.overtaken, raw.fs.First(), raw.fs.trace;
  }
}
