// The persistent heap of project-3/scm.c: one mapped file, three words of
// bookkeeping, then chunks laid end to end, each a 16-byte header (in-use flag,
// size) and its payload.  Addresses are offsets into the file.
module Scm {
  import opened Bytes
  import opened Options

  const PREFIX := 24                  // SIZE_INFO_BYTES
  const HEADER := 16                  // ADDR_INFO_BYTES
  const FIRST := PREFIX + HEADER      // where the first payload starts
  const SIZE_INFO_ID: u64 := TWO64 - 2

  // A chunk: where its payload starts, how long it is, whether it is in use.
  datatype Chunk = Chunk(addr: nat, size: u64, live: bool)

  function Next(c: Chunk): nat {
    c.addr + c.size + HEADER
  }

  function Word(m: Bytes, at: nat): nat
    requires at + 8 <= |m|
  {
    Nat(m[at..at + 8])
  }

  function WithWord(m: Bytes, at: nat, v: u64): (m': Bytes)
    requires at + 8 <= |m|
    ensures |m'| == |m|
  {
    m[..at] + Le(v, 8) + m[at + 8..]
  }

  lemma WordWritten(m: Bytes, at: nat, v: u64)
    requires at + 8 <= |m|
    ensures Word(WithWord(m, at, v), at) == v
    ensures forall b :: 0 <= b && b + 8 <= at ==> Word(WithWord(m, at, v), b) == Word(m, b)
    ensures forall b :: at + 8 <= b && b + 8 <= |m| ==> Word(WithWord(m, at, v), b) == Word(m, b)
  {
    var m' := WithWord(m, at, v);
    Widths();
    NatOfLe(v, 8);
    assert m'[at..at + 8] == Le(v, 8);
    forall b | 0 <= b && b + 8 <= at
      ensures Word(m', b) == Word(m, b)
    {
      assert m'[b..b + 8] == m[b..b + 8];
    }
    forall b | at + 8 <= b && b + 8 <= |m|
      ensures Word(m', b) == Word(m, b)
    {
      assert m'[b..b + 8] == m[b..b + 8];
    }
  }

  // ------------------------------------------------------------------- the layout

  // Chunks follow each other without gaps and fill exactly the used bytes.
  ghost predicate Chained(cs: seq<Chunk>, used: nat) {
    if cs == [] then used == 0
    else
      && cs[0].addr == FIRST
      && (forall i :: 0 < i < |cs| ==> cs[i].addr == Next(cs[i - 1]))
      && Next(cs[|cs| - 1]) == FIRST + used
  }

  // The bytes before a payload say what the chunk is.
  ghost predicate HeadOk(m: Bytes, c: Chunk) {
    && FIRST <= c.addr <= |m|
    && Word(m, c.addr - 16) == (if c.live then 1 else 0)
    && Word(m, c.addr - 8) == c.size
  }

  ghost predicate Laid(m: Bytes, cs: seq<Chunk>, used: nat) {
    && PREFIX + used <= |m|
    && Chained(cs, used)
    && forall i :: 0 <= i < |cs| ==> HeadOk(m, cs[i])
  }

  // Two chunks never share a byte, headers included.
  lemma {:induction false} Apart(cs: seq<Chunk>, used: nat, i: nat, j: nat)
    requires Chained(cs, used) && i < j < |cs|
    ensures cs[i].addr + cs[i].size <= cs[j].addr - HEADER
    decreases j
  {
    if i < j - 1 {
      Apart(cs, used, i, j - 1);
    }
  }

  lemma Inside(cs: seq<Chunk>, used: nat, i: nat)
    requires Chained(cs, used) && i < |cs|
    ensures FIRST <= cs[i].addr && cs[i].addr + cs[i].size <= PREFIX + used
  {
    if i > 0 {
      Apart(cs, used, 0, i);
    }
    if i < |cs| - 1 {
      Apart(cs, used, i, |cs| - 1);
    }
  }

  // The bytes determine the chunks: there is one way to walk them.
  lemma {:induction false} WalkPrefix(m: Bytes, cs: seq<Chunk>, ds: seq<Chunk>, used: nat, n: nat)
    requires Laid(m, cs, used) && Laid(m, ds, used) && n <= |cs|
    ensures n <= |ds| && forall i :: 0 <= i < n ==> cs[i] == ds[i]
  {
    hide Word;
    if n == 0 {
    } else {
      WalkPrefix(m, cs, ds, used, n - 1);
      Inside(cs, used, n - 1);
      assert HeadOk(m, cs[n - 1]);
      if n - 1 < |ds| {
        assert HeadOk(m, ds[n - 1]);
        assert n > 1 ==> cs[n - 2] == ds[n - 2];
        assert cs[n - 1] == ds[n - 1];
      }
    }
  }

  lemma WalkUnique(m: Bytes, cs: seq<Chunk>, ds: seq<Chunk>, used: nat)
    requires Laid(m, cs, used) && Laid(m, ds, used)
    ensures cs == ds
  {
    WalkPrefix(m, cs, ds, used, |cs|);
    WalkPrefix(m, ds, cs, used, |ds|);
  }

  // ------------------------------------------------- what each operation does to it

  // addr_info[0] = live
  lemma LaidFlag(m: Bytes, cs: seq<Chunk>, used: nat, i: nat, live: bool)
    requires Laid(m, cs, used) && i < |cs|
    ensures FIRST <= cs[i].addr <= |m|
    ensures Laid(WithWord(m, cs[i].addr - 16, if live then 1 else 0), cs[i := cs[i].(live := live)], used)
  {
    hide Word, WithWord;
    var c := cs[i];
    assert HeadOk(m, c);
    var m' := WithWord(m, c.addr - 16, if live then 1 else 0);
    var cs' := cs[i := c.(live := live)];
    WordWritten(m, c.addr - 16, if live then 1 else 0);
    forall j | 0 <= j < |cs'|
      ensures HeadOk(m', cs'[j])
    {
      assert HeadOk(m, cs[j]);
      if j < i {
        Apart(cs, used, j, i);
      } else if j > i {
        Apart(cs, used, i, j);
      }
    }
  }

  // A new chunk after the last one.
  lemma LaidAppend(m: Bytes, cs: seq<Chunk>, used: nat, n: u64)
    requires Laid(m, cs, used) && FIRST + used + n <= |m|
    ensures var m' := WithWord(WithWord(m, PREFIX + used, 1), PREFIX + used + 8, n);
      Laid(m', cs + [Chunk(FIRST + used, n, true)], used + n + HEADER)
  {
    hide Word, WithWord;
    var m1 := WithWord(m, PREFIX + used, 1);
    var m' := WithWord(m1, PREFIX + used + 8, n);
    var cs' := cs + [Chunk(FIRST + used, n, true)];
    WordWritten(m, PREFIX + used, 1);
    WordWritten(m1, PREFIX + used + 8, n);
    forall j | 0 <= j < |cs'|
      ensures HeadOk(m', cs'[j])
    {
      if j < |cs| {
        assert HeadOk(m, cs[j]);
        Inside(cs, used, j);
      }
    }
  }

  // The first free chunk of at least n bytes, or |cs|.
  function FirstFit(cs: seq<Chunk>, n: u64, i: nat): (k: nat)
    requires i <= |cs|
    ensures i <= k <= |cs|
    ensures k < |cs| ==> !cs[k].live && cs[k].size >= n
    ensures forall j :: i <= j < k ==> cs[j].live || cs[j].size < n
    decreases |cs| - i
  {
    if i == |cs| || (!cs[i].live && cs[i].size >= n) then i else FirstFit(cs, n, i + 1)
  }

  // The bytes of the chunks in use.
  function LiveBytes(cs: seq<Chunk>): nat {
    if cs == [] then 0 else LiveBytes(cs[..|cs| - 1]) + if cs[|cs| - 1].live then cs[|cs| - 1].size else 0
  }

  lemma {:induction false} LiveFlag(cs: seq<Chunk>, i: nat, live: bool)
    requires i < |cs|
    ensures LiveBytes(cs[i := cs[i].(live := live)]) + (if cs[i].live then cs[i].size else 0)
         == LiveBytes(cs) + if live then cs[i].size else 0
  {
    var n := |cs| - 1;
    var cs' := cs[i := cs[i].(live := live)];
    if i == n {
      assert cs'[..n] == cs[..n];
    } else {
      LiveFlag(cs[..n], i, live);
      assert cs'[..n] == cs[..n][i := cs[i].(live := live)];
    }
  }

  lemma LiveAppend(cs: seq<Chunk>, c: Chunk)
    ensures LiveBytes(cs + [c]) == LiveBytes(cs) + if c.live then c.size else 0
  {
    assert (cs + [c])[..|cs|] == cs;
  }

  function Payload(m: Bytes, c: Chunk): Bytes
    requires c.addr + c.size <= |m|
  {
    m[c.addr..c.addr + c.size]
  }

  // The payloads of these chunks are the same in both images.
  ghost predicate SamePayloads(m: Bytes, m': Bytes, cs: seq<Chunk>) {
    forall i :: 0 <= i < |cs| ==>
      cs[i].addr + cs[i].size <= |m| && cs[i].addr + cs[i].size <= |m'| && Payload(m, cs[i]) == Payload(m', cs[i])
  }

  // A word written outside a payload leaves it alone.
  lemma PayloadKept(m: Bytes, at: nat, v: u64, c: Chunk)
    requires at + 8 <= |m| && c.addr + c.size <= |m| && (at + 8 <= c.addr || c.addr + c.size <= at)
    ensures Payload(WithWord(m, at, v), c) == Payload(m, c)
  {
  }

  lemma HeaderKeeps(m: Bytes, cs: seq<Chunk>, used: nat, i: nat, v: u64)
    requires Laid(m, cs, used) && i < |cs|
    ensures FIRST <= cs[i].addr <= |m| && SamePayloads(m, WithWord(m, cs[i].addr - 16, v), cs)
  {
    Inside(cs, used, i);
    forall j | 0 <= j < |cs|
      ensures cs[j].addr + cs[j].size <= |m|
      ensures Payload(m, cs[j]) == Payload(WithWord(m, cs[i].addr - 16, v), cs[j])
    {
      Inside(cs, used, j);
      if j < i {
        Apart(cs, used, j, i);
      } else if i < j {
        Apart(cs, used, i, j);
      }
      PayloadKept(m, cs[i].addr - 16, v, cs[j]);
    }
  }

  lemma OutsideKeeps(m: Bytes, cs: seq<Chunk>, used: nat, at: nat, v: u64)
    requires Laid(m, cs, used) && at + 8 <= |m| && (at + 8 <= PREFIX || PREFIX + used <= at)
    ensures SamePayloads(m, WithWord(m, at, v), cs)
  {
    forall j | 0 <= j < |cs|
      ensures cs[j].addr + cs[j].size <= |m|
      ensures Payload(m, cs[j]) == Payload(WithWord(m, at, v), cs[j])
    {
      Inside(cs, used, j);
      PayloadKept(m, at, v, cs[j]);
    }
  }

  ghost function Shortfall(live: nat, user: u64): (lost: nat)
    ensures Agrees(user, lost, live)
  {
    (live + TWO64 - user) % TWO64
  }

  lemma NoShortfall()
    ensures Shortfall(0, 0) == 0
  {
  }

  // user_bytes is `lost` short of the bytes in use, in 64-bit arithmetic.
  ghost predicate Agrees(user: nat, lost: nat, live: nat) {
    (user + lost) % TWO64 == live % TWO64
  }

  function Plus(user: u64, n: u64): u64 {
    (user + n) % TWO64
  }

  function Minus(user: u64, n: u64): u64 {
    (user + TWO64 - n) % TWO64
  }

  lemma AgreesPlus(user: u64, lost: nat, live: nat, n: u64)
    requires Agrees(user, lost, live)
    ensures Agrees(Plus(user, n), lost, live + n)
    ensures Agrees(user, lost + n, live + n)
  {
    ModShift(user + lost, live, n);
    ModInside(user + n, lost);
  }

  lemma AgreesMinus(user: u64, lost: nat, live: nat, n: u64)
    requires Agrees(user, lost, live)
    ensures n <= live ==> Agrees(Minus(user, n), lost, live - n)
    ensures Agrees(Minus(user, n), lost + n, live)
  {
    var a := user + TWO64 - n;
    ModInside(a, lost);
    ModInside(a, lost + n);
    assert a + lost + n == user + lost + 1 * TWO64;
    ModWraps(user + lost);
    if n <= live {
      ModShift(user + lost, live, TWO64 - n);
      ModWraps(live - n);
    }
  }

  lemma AgreesExact(user: u64, lost: nat, live: u64)
    requires Agrees(user, lost, live)
    ensures user == live <==> lost % TWO64 == 0
  {
    var q := (user + lost) / TWO64 - live / TWO64;
    assert user + lost == live + q * TWO64;
  }

  lemma {:induction false} LiveAtMost(cs: seq<Chunk>, used: nat)
    requires Chained(cs, used)
    ensures LiveBytes(cs) <= used
  {
    if cs == [] {
    } else {
      var n := |cs| - 1;
      Inside(cs, used, n);
      var before := cs[n].addr - FIRST;
      assert Chained(cs[..n], before);
      LiveAtMost(cs[..n], before);
    }
  }

  lemma ModShift(a: nat, b: nat, n: nat)
    requires a % TWO64 == b % TWO64
    ensures (a + n) % TWO64 == (b + n) % TWO64
  {
    var q := a / TWO64 - b / TWO64;
    assert a + n == b + n + q * TWO64;
  }

  lemma ModInside(a: nat, b: nat)
    ensures (a % TWO64 + b) % TWO64 == (a + b) % TWO64
  {
    ModShift(a % TWO64, a, b);
  }

  lemma ModWraps(a: nat)
    ensures (a + TWO64) % TWO64 == a % TWO64
  {
  }

  // The words size_info[1] and size_info[2].
  function WithCounts(m: Bytes, used: u64, user: u64): (m': Bytes)
    requires PREFIX <= |m|
    ensures |m'| == |m|
  {
    WithWord(WithWord(m, 8, used), 16, user)
  }

  ghost predicate Counts(m: Bytes, used: nat, user: u64) {
    PREFIX <= |m| < TWO64 && Word(m, 0) == SIZE_INFO_ID && Word(m, 8) == used && Word(m, 16) == user
  }

  lemma CountsWritten(m: Bytes, used: u64, user: u64)
    requires PREFIX <= |m| < TWO64 && Word(m, 0) == SIZE_INFO_ID
    ensures Counts(WithCounts(m, used, user), used, user)
  {
    hide Word, WithWord;
    WordWritten(m, 8, used);
    WordWritten(WithWord(m, 8, used), 16, user);
  }

  // Words written in front of the chunks or behind them.
  lemma OutsideLaid(m: Bytes, cs: seq<Chunk>, used: nat, at: nat, v: u64)
    requires Laid(m, cs, used) && at + 8 <= |m| && (at + 8 <= PREFIX || PREFIX + used <= at)
    ensures Laid(WithWord(m, at, v), cs, used) && SamePayloads(m, WithWord(m, at, v), cs)
  {
    hide Word, WithWord;
    WordWritten(m, at, v);
    OutsideKeeps(m, cs, used, at, v);
    forall j | 0 <= j < |cs|
      ensures HeadOk(WithWord(m, at, v), cs[j])
    {
      assert HeadOk(m, cs[j]);
      Inside(cs, used, j);
    }
  }

  lemma SameTrans(a: Bytes, b: Bytes, c: Bytes, cs: seq<Chunk>)
    requires SamePayloads(a, b, cs) && SamePayloads(b, c, cs)
    ensures SamePayloads(a, c, cs)
  {
  }

  lemma CountsKeep(m: Bytes, cs: seq<Chunk>, used: nat, u: u64, v: u64)
    requires Laid(m, cs, used) && PREFIX <= |m|
    ensures Laid(WithCounts(m, u, v), cs, used) && SamePayloads(m, WithCounts(m, u, v), cs)
  {
    hide Laid, WithWord, SamePayloads;
    OutsideLaid(m, cs, used, 8, u);
    OutsideLaid(WithWord(m, 8, u), cs, used, 16, v);
    SameTrans(m, WithWord(m, 8, u), WithCounts(m, u, v), cs);
  }

  lemma NoChunks(m: Bytes)
    requires PREFIX <= |m|
    ensures Laid(m, [], 0)
  {
  }

  lemma WordBound(m: Bytes, at: nat)
    requires at + 8 <= |m|
    ensures Word(m, at) < TWO64
  {
    Widths();
    LeOfNat(m[at..at + 8]);
  }

  // Chunk lists that agree on where the payloads are.
  lemma SameForPrefix(m: Bytes, m': Bytes, cs: seq<Chunk>, ds: seq<Chunk>)
    requires SamePayloads(m, m', ds) && |cs| <= |ds|
    requires forall i :: 0 <= i < |cs| ==> cs[i].addr == ds[i].addr && cs[i].size == ds[i].size
    ensures SamePayloads(m, m', cs)
  {
  }

  // The file, its counters and its chunks, in any state of a run.  `lost` is what
  // user_bytes falls short of the bytes in use, modulo 2^64.
  ghost predicate Good(m: Bytes, used: nat, user: u64, cs: seq<Chunk>, lost: nat) {
    && Laid(m, cs, used)
    && Counts(m, used, user)
    && Agrees(user, lost, LiveBytes(cs))
  }

  lemma Room(m: Bytes, cs: seq<Chunk>, used: nat)
    requires Laid(m, cs, used)
    ensures PREFIX + used <= |m|
  {
  }

  lemma HeadOfChunk(m: Bytes, cs: seq<Chunk>, used: nat, k: nat)
    requires Laid(m, cs, used) && k < |cs|
    ensures HeadOk(m, cs[k]) && used <= |m| - PREFIX
    ensures cs[k].size <= LiveBytes(cs) || !cs[k].live
  {
    LiveFlag(cs, k, false);
  }

  // ------------------------------------------------------ the operations on values

  function Extended(m: Bytes, used: nat, user: u64, n: u64): Bytes
    requires FIRST + used + n <= |m| < TWO64
  {
    WithCounts(WithWord(WithWord(m, PREFIX + used, 1), PREFIX + used + 8, n), used + n + HEADER, Plus(user, n))
  }

  lemma ExtendGood(m: Bytes, used: nat, user: u64, cs: seq<Chunk>, lost: nat, n: u64)
    requires Good(m, used, user, cs, lost) && FIRST + used + n <= |m|
    ensures var m' := Extended(m, used, user, n);
      && Good(m', used + n + HEADER, Plus(user, n), cs + [Chunk(FIRST + used, n, true)], lost)
      && SamePayloads(m, m', cs)
  {
    hide Agrees, Plus, Minus, Laid, Word, WithWord, SamePayloads, LiveBytes, WithCounts;
    var cs' := cs + [Chunk(FIRST + used, n, true)];
    var m1 := WithWord(m, PREFIX + used, 1);
    var m2 := WithWord(m1, PREFIX + used + 8, n);
    Room(m, cs, used);
    LaidAppend(m, cs, used, n);
    LiveAppend(cs, Chunk(FIRST + used, n, true));
    AgreesPlus(user, lost, LiveBytes(cs), n);
    WordWritten(m, PREFIX + used, 1);
    WordWritten(m1, PREFIX + used + 8, n);
    assert Word(m2, 0) == SIZE_INFO_ID;
    OutsideLaid(m, cs, used, PREFIX + used, 1);
    OutsideLaid(m1, cs, used, PREFIX + used + 8, n);
    CountsKeep(m2, cs', used + n + HEADER, used + n + HEADER, Plus(user, n));
    CountsWritten(m2, used + n + HEADER, Plus(user, n));
    SameForPrefix(m2, Extended(m, used, user, n), cs, cs');
    SameTrans(m, m1, m2, cs);
    SameTrans(m, m2, Extended(m, used, user, n), cs);
  }

  lemma ReuseGood(m: Bytes, used: nat, user: u64, cs: seq<Chunk>, lost: nat, k: nat)
    requires Good(m, used, user, cs, lost) && k < |cs| && !cs[k].live
    ensures FIRST <= cs[k].addr <= |m|
    ensures var m' := WithWord(m, cs[k].addr - 16, 1);
      && Good(m', used, user, cs[k := cs[k].(live := true)], lost + cs[k].size)
      && SamePayloads(m, m', cs)
  {
    hide Agrees, Plus, Minus, Laid, Word, WithWord, SamePayloads, LiveBytes, WithCounts;
    LaidFlag(m, cs, used, k, true);
    HeaderKeeps(m, cs, used, k, 1);
    LiveFlag(cs, k, true);
    HeadOfChunk(m, cs, used, k);
    AgreesPlus(user, lost, LiveBytes(cs), cs[k].size);
    WordWritten(m, cs[k].addr - 16, 1);
    hide Agrees, Laid, SamePayloads, LiveBytes;
  }

  function Released(m: Bytes, used: nat, user: u64, c: Chunk): Bytes
    requires FIRST <= c.addr <= |m| && used < TWO64
  {
    WithCounts(WithWord(m, c.addr - 16, 0), used, Minus(user, c.size))
  }

  lemma ReleaseGood(m: Bytes, used: nat, user: u64, cs: seq<Chunk>, lost: nat, k: nat)
    requires Good(m, used, user, cs, lost) && k < |cs|
    ensures used < TWO64 && FIRST <= cs[k].addr <= |m| && Word(m, cs[k].addr - 8) == cs[k].size
    ensures var m' := Released(m, used, user, cs[k]);
      && Good(m', used, Minus(user, cs[k].size), cs[k := cs[k].(live := false)],
              if cs[k].live then lost else lost + cs[k].size)
      && SamePayloads(m, m', cs)
  {
    hide Agrees, Plus, Minus, Laid, Word, WithWord, SamePayloads, LiveBytes, WithCounts;
    var c := cs[k];
    var cs' := cs[k := c.(live := false)];
    HeadOfChunk(m, cs, used, k);
    var m1 := WithWord(m, c.addr - 16, 0);
    LaidFlag(m, cs, used, k, false);
    HeaderKeeps(m, cs, used, k, 0);
    LiveFlag(cs, k, false);
    AgreesMinus(user, lost, LiveBytes(cs), c.size);
    WordWritten(m, c.addr - 16, 0);
    assert Word(m1, 0) == SIZE_INFO_ID;
    CountsKeep(m1, cs', used, used, Minus(user, c.size));
    CountsWritten(m1, used, Minus(user, c.size));
    SameForPrefix(m1, Released(m, used, user, c), cs, cs');
    SameTrans(m, m1, Released(m, used, user, c), cs);
  }

  // Payload starts are distinct.
  lemma OneAt(cs: seq<Chunk>, used: nat, k: nat)
    requires Chained(cs, used) && k < |cs|
    ensures forall i :: 0 <= i < |cs| && cs[i].addr == cs[k].addr ==> i == k
  {
    forall i | 0 <= i < |cs| && i != k
      ensures cs[i].addr != cs[k].addr
    {
      Apart(cs, used, if i < k then i else k, if i < k then k else i);
    }
  }

  // The check of scm_malloc, which forgets the words in front and the wrap.
  predicate CheckPasses(length: nat, used: nat, n: u64) {
    (used + n + HEADER) % TWO64 <= length
  }

  // What an allocation comes to: an address, EXIT, or a chunk that would reach past
  // the mapped region, where the program goes on writing and the model stops.
  datatype Allocation = At(addr: nat) | Exit | Beyond

  class Scm {
    const mem: array<byte>
    var used: nat
    var user: u64
    ghost var chunks: seq<Chunk>
    ghost var lost: nat

    ghost predicate Valid()
      reads this, mem
    {
      Good(mem[..], used, user, chunks, lost)
    }

    function GetWord(at: nat): nat
      requires at + 8 <= mem.Length
      reads mem
    {
      Word(mem[..], at)
    }

    method PutWord(at: nat, v: u64)
      requires at + 8 <= mem.Length
      modifies mem
      ensures mem[..] == WithWord(old(mem[..]), at, v)
    {
      var bs := Le(v, 8);
      forall i | 0 <= i < 8 {
        mem[at + i] := bs[i];
      }
    }

    method PutCounts()
      requires PREFIX <= mem.Length && used < TWO64
      modifies mem
      ensures mem[..] == WithCounts(old(mem[..]), used, user)
    {
      hide WithWord;
      PutWord(8, used);
      PutWord(16, user);
    }

    // scm_open.  A file with the mark has been left by scm_close.
    constructor (file: array<byte>, truncate: bool)
      requires PREFIX <= file.Length < TWO64
      requires Word(file[..], 0) == SIZE_INFO_ID && !truncate ==> exists cs :: Laid(file[..], cs, Word(file[..], 8))
      modifies file
      ensures Valid() && mem == file && lost == Shortfall(LiveBytes(chunks), user)
      ensures if old(Word(file[..], 0)) == SIZE_INFO_ID && !truncate then
                && mem[..] == old(file[..]) && Laid(old(file[..]), chunks, old(Word(file[..], 8)))
                && used == old(Word(file[..], 8)) && user == old(Word(file[..], 16))
              else chunks == [] && used == user == lost == 0
    {
      hide Laid, Word, WithWord, WithCounts, Agrees, Shortfall;
      WordBound(file[..], 8);
      WordBound(file[..], 16);
      ghost var cs := [];
      if Word(file[..], 0) == SIZE_INFO_ID && !truncate {
        cs :| Laid(file[..], cs, Word(file[..], 8));
      }
      mem := file;
      chunks := cs;
      lost := 0;
      used := Word(file[..], 8);
      user := Word(file[..], 16);
      new;
      if GetWord(0) != SIZE_INFO_ID || truncate {
        ghost var m := mem[..];
        WordWritten(m, 0, SIZE_INFO_ID);
        PutWord(0, SIZE_INFO_ID);
        CountsWritten(mem[..], 0, 0);
        used, user, chunks := 0, 0, [];
        PutCounts();
        NoChunks(mem[..]);
      }
      NoShortfall();
      lost := Shortfall(LiveBytes(chunks), user);
    }

    // scm_close: the file keeps the chunks and both counters for the next scm_open.
    method Close()
      requires Valid()
      modifies mem
      ensures Word(mem[..], 0) == SIZE_INFO_ID && Laid(mem[..], chunks, Word(mem[..], 8))
      ensures Word(mem[..], 8) == used && Word(mem[..], 16) == user
      ensures SamePayloads(old(mem[..]), mem[..], chunks)
    {
      hide Laid, Word, WithWord, WithCounts, SamePayloads;
      ghost var m := mem[..];
      Room(m, chunks, used);
      WordWritten(m, 0, SIZE_INFO_ID);
      OutsideLaid(m, chunks, used, 0, SIZE_INFO_ID);
      PutWord(0, SIZE_INFO_ID);
      ghost var m1 := mem[..];
      CountsKeep(m1, chunks, used, used, user);
      CountsWritten(m1, used, user);
      PutCounts();
      SameTrans(m, m1, mem[..], chunks);
    }

    // scm_utilized gives the bytes in use if and only if reuse, or freeing twice, has
    // not taken it off by something else than a multiple of 2^64.
    lemma UtilizedExact()
      requires Valid()
      ensures user == LiveBytes(chunks) <==> lost % TWO64 == 0
    {
      LiveAtMost(chunks, used);
      AgreesExact(user, lost, LiveBytes(chunks));
    }

    // scm_mbase
    function Base(): nat
      reads this
    {
      if used > 0 then FIRST else PREFIX
    }

    // Where a walk stands after k chunks.
    ghost function Place(k: nat): nat
      reads this
    {
      if k < |chunks| then chunks[k].addr else Base() + used
    }

    lemma Position(k: nat)
      requires Valid() && k <= |chunks|
      ensures Place(k) < Base() + used <==> k < |chunks|
      ensures k < |chunks| ==> FIRST <= Place(k) <= mem.Length && HeadOk(mem[..], chunks[k])
      ensures k < |chunks| ==> Next(chunks[k]) == Place(k + 1)
      ensures Place(0) == Base()
    {
      if k < |chunks| {
        Inside(chunks, used, k);
        assert HeadOk(mem[..], chunks[k]);
      }
    }

    // scm_allocated_addr: exactly the payload starts, freed chunks included.
    method AllocatedAddr(p: nat) returns (r: bool)
      requires Valid()
      ensures r <==> exists k :: 0 <= k < |chunks| && chunks[k].addr == p
    {
      hide Laid, Word;
      var addr := Base();
      ghost var k := 0;
      Position(0);
      while addr < Base() + used
        invariant k <= |chunks| && addr == Place(k)
        invariant forall j :: 0 <= j < k ==> chunks[j].addr != p
        decreases |chunks| - k
      {
        Position(k);
        if addr == p {
          return true;
        }
        addr := addr + GetWord(addr - 8) + HEADER;
        k := k + 1;
      }
      Position(k);
      r := false;
    }

    // The walk of scm_malloc: the first free chunk that is large enough.
    method FindFit(n: u64) returns (p: Option<nat>, ghost k: nat)
      requires Valid()
      ensures k == FirstFit(chunks, n, 0)
      ensures var first := FirstFit(chunks, n, 0);
        p == if first < |chunks| then Some(chunks[first].addr) else None
    {
      hide Laid, Word;
      var addr := Base();
      k := 0;
      Position(0);
      while addr < Base() + used
        invariant k <= |chunks| && addr == Place(k)
        invariant FirstFit(chunks, n, 0) == FirstFit(chunks, n, k)
        decreases |chunks| - k
      {
        Position(k);
        if GetWord(addr - 16) == 0 && GetWord(addr - 8) >= n {
          return Some(addr), k;
        }
        addr := addr + GetWord(addr - 8) + HEADER;
        k := k + 1;
      }
      Position(k);
      p := None;
    }

    // A new chunk after the last one: the end of scm_malloc, and all of
    // scm_strdup but its copying.
    method Extend(n: u64) returns (p: nat)
      requires Valid() && FIRST + used + n <= mem.Length
      modifies this, mem
      ensures Valid() && SamePayloads(old(mem[..]), mem[..], old(chunks))
      ensures p == FIRST + old(used) && chunks == old(chunks) + [Chunk(p, n, true)]
      ensures used == old(used) + n + HEADER && user == Plus(old(user), n) && lost == old(lost)
    {
      hide Good, Laid, Word, WithWord, WithCounts, SamePayloads, Plus, Minus, LiveBytes;
      InRange(mem[..], used, user, chunks, lost);
      ExtendGood(mem[..], used, user, chunks, lost, n);
      var info := PREFIX + used;
      PutWord(info, 1);
      PutWord(info + 8, n);
      user := Plus(user, n);
      used := used + n + HEADER;
      PutCounts();
      p := info + HEADER;
      chunks := chunks + [Chunk(p, n, true)];
    }

    // addr_info[0] = 1 on a free chunk
    method Reuse(p: nat, ghost k: nat)
      requires Valid() && k < |chunks| && !chunks[k].live && p == chunks[k].addr
      modifies mem, this`chunks, this`lost
      ensures Valid() && SamePayloads(old(mem[..]), mem[..], old(chunks))
      ensures chunks == old(chunks)[k := old(chunks)[k].(live := true)]
      ensures lost == old(lost) + old(chunks)[k].size
    {
      hide Good, Laid, Word, WithWord, WithCounts, SamePayloads, Plus, Minus, LiveBytes;
      ReuseGood(mem[..], used, user, chunks, lost, k);
      PutWord(p - 16, 1);
      lost := lost + chunks[k].size;
      chunks := chunks[k := chunks[k].(live := true)];
    }

    // scm_malloc.
    method Malloc(n: u64) returns (r: Allocation)
      requires Valid()
      modifies this, mem
      ensures Valid() && SamePayloads(old(mem[..]), mem[..], old(chunks))
      ensures var cs, k := old(chunks), FirstFit(old(chunks), n, 0);
        if k < |cs| then
          && r == At(cs[k].addr) && chunks == cs[k := cs[k].(live := true)]
          && used == old(used) && user == old(user) && lost == old(lost) + cs[k].size
        else if !CheckPasses(mem.Length, old(used), n) then
          r == Exit && chunks == cs && used == old(used) && user == old(user) && lost == old(lost)
        else if FIRST + old(used) + n <= mem.Length then
          && r == At(FIRST + old(used)) && chunks == cs + [Chunk(FIRST + old(used), n, true)]
          && used == old(used) + n + HEADER && user == Plus(old(user), n) && lost == old(lost)
        else
          r == Beyond && chunks == cs && used == old(used) && user == old(user) && lost == old(lost)
    {
      hide Good, Laid, Word, WithWord, WithCounts, SamePayloads, Plus, Minus, LiveBytes;
      SameSelf(mem[..], used, user, chunks, lost);
      var p, k := FindFit(n);
      if p.Some? {
        Fits(chunks, n);
        Reuse(p.value, k);
        return At(p.value);
      }
      if (used + n + HEADER) % TWO64 > mem.Length {
        return Exit;
      }
      if FIRST + used + n > mem.Length {
        return Beyond;
      }
      var q := Extend(n);
      r := At(q);
    }

    lemma OneChunk(k: nat)
      requires Valid() && k < |chunks|
      ensures forall i :: 0 <= i < |chunks| && chunks[i].addr == chunks[k].addr ==> i == k
    {
      OneAt(chunks, used, k);
    }

    // scm_free: nothing for an address that is no payload start; otherwise the
    // chunk is free and its size is taken off user_bytes.
    method Free(p: nat)
      requires Valid()
      modifies this, mem
      ensures Valid() && used == old(used) && SamePayloads(old(mem[..]), mem[..], old(chunks))
      ensures (forall k :: 0 <= k < |old(chunks)| ==> old(chunks)[k].addr != p) ==>
        chunks == old(chunks) && user == old(user) && lost == old(lost)
      ensures forall k :: 0 <= k < |old(chunks)| && old(chunks)[k].addr == p ==>
        && chunks == old(chunks)[k := old(chunks)[k].(live := false)]
        && user == Minus(old(user), old(chunks)[k].size)
        && lost == old(lost) + if old(chunks)[k].live then 0 else old(chunks)[k].size
    {
      hide Good, Laid, Word, WithWord, WithCounts, SamePayloads, Plus, Minus, LiveBytes;
      SameSelf(mem[..], used, user, chunks, lost);
      var r := AllocatedAddr(p);
      if !r {
        return;
      }
      ghost var k :| 0 <= k < |chunks| && chunks[k].addr == p;
      OneChunk(k);
      Release(p, k);
    }

    method Release(p: nat, ghost k: nat)
      requires Valid() && k < |chunks| && p == chunks[k].addr
      modifies this, mem
      ensures Valid() && used == old(used) && SamePayloads(old(mem[..]), mem[..], old(chunks))
      ensures chunks == old(chunks)[k := old(chunks)[k].(live := false)]
      ensures user == Minus(old(user), old(chunks)[k].size)
      ensures lost == old(lost) + if old(chunks)[k].live then 0 else old(chunks)[k].size
    {
      hide Good, Laid, Word, WithWord, WithCounts, SamePayloads, Plus, Minus, LiveBytes;
      ReleaseGood(mem[..], used, user, chunks, lost, k);
      var size := GetWord(p - 8);
      PutWord(p - 16, 0);
      user := Minus(user, size);
      PutCounts();
      lost := if chunks[k].live then lost else lost + size;
      chunks := chunks[k := chunks[k].(live := false)];
    }

    method Write(at: nat, data: Bytes)
      requires at + |data| <= mem.Length
      modifies mem
      ensures mem[..] == Stored(old(mem[..]), at, data)
    {
      forall i | 0 <= i < |data| {
        mem[at + i] := data[i];
      }
    }

    // The client writes inside a chunk: chunks and other payloads stay.
    method Store(p: nat, at: nat, data: Bytes, ghost k: nat)
      requires Valid() && k < |chunks| && p == chunks[k].addr && at + |data| <= chunks[k].size
      modifies mem
      ensures Valid()
      ensures SamePayloads(old(mem[..]), mem[..], chunks[..k]) && SamePayloads(old(mem[..]), mem[..], chunks[k + 1..])
      ensures p + chunks[k].size <= mem.Length && Payload(mem[..], chunks[k])
           == old(Payload(mem[..], chunks[k]))[..at] + data + old(Payload(mem[..], chunks[k]))[at + |data|..]
    {
      hide Good, Laid, Word, WithWord, WithCounts, SamePayloads, Plus, Minus, LiveBytes, Stored, Payload;
      StoreGood(mem[..], used, user, chunks, lost, k, at, data);
      Write(p + at, data);
    }

    // scm_strdup, for a string without its terminating zero.
    method Strdup(s: Bytes) returns (r: Allocation)
      requires Valid()
      modifies this, mem
      ensures Valid() && SamePayloads(old(mem[..]), mem[..], old(chunks))
      ensures var p := FIRST + old(used);
        if p + |s| + 1 <= mem.Length then
          && r == At(p) && chunks == old(chunks) + [Chunk(p, |s| + 1, true)]
          && mem[p..p + |s| + 1] == s + [0]
          && used == old(used) + |s| + 1 + HEADER && user == Plus(old(user), |s| + 1) && lost == old(lost)
        else
          r == Beyond && chunks == old(chunks) && used == old(used) && user == old(user) && lost == old(lost)
    {
      hide Good, Laid, Word, WithWord, WithCounts, SamePayloads, Plus, Minus, LiveBytes;
      ghost var m, cs := mem[..], chunks;
      InRange(mem[..], used, user, chunks, lost);
      SameSelf(mem[..], used, user, chunks, lost);
      if FIRST + used + |s| + 1 > mem.Length {
        return Beyond;
      }
      var p := Extend(|s| + 1);
      ghost var m1 := mem[..];
      Store(p, 0, s + [0], |cs|);
      assert chunks[..|cs|] == cs;
      SameTrans(m, m1, mem[..], cs);
      r := At(p);
    }
  }

  // scm_close and then scm_open: the same chunks, counters and payloads.
  method Reopen(s: Scm) returns (t: Scm)
    requires s.Valid()
    modifies s.mem
    ensures t.Valid() && t.mem == s.mem && t.chunks == s.chunks && t.used == s.used && t.user == s.user
    ensures SamePayloads(old(s.mem[..]), t.mem[..], t.chunks)
  {
    InRange(s.mem[..], s.used, s.user, s.chunks, s.lost);
    hide Good, Laid, Word, SamePayloads, LiveBytes, Shortfall;
    s.Close();
    t := new Scm(s.mem, false);
    WalkUnique(t.mem[..], t.chunks, s.chunks, s.used);
  }

  // Allocating, freeing and allocating the same size again leaves it in use and
  // scm_utilized at 0.
  method Drift(file: array<byte>, n: u64) returns (s: Scm)
    requires FIRST + n <= file.Length && file.Length + HEADER < TWO64
    modifies file
    ensures s.Valid() && s.user == 0 && LiveBytes(s.chunks) == n
  {
    hide Good, Laid, Word, SamePayloads, CheckPasses;
    CheckSound(file.Length, 0, n);
    s := new Scm(file, true);
    var r := s.Malloc(n);
    s.Free(FIRST);
    r := s.Malloc(n);
  }

  // The check lets through a chunk that does not fit exactly when the missing
  // 24 bytes, or the 64-bit wrap, make the difference.
  lemma CheckGap(length: nat, used: nat, n: u64)
    requires PREFIX + used <= length < TWO64
    ensures CheckPasses(length, used, n) && FIRST + used + n > length <==>
      var end := used + n + HEADER;
      length - PREFIX < end <= length || TWO64 <= end <= TWO64 + length
  {
    var end := used + n + HEADER;
    if end < TWO64 {
      assert end % TWO64 == end;
    } else {
      assert end % TWO64 == end - TWO64;
    }
  }

  // It turns no chunk away that fits: it lets through exactly those and these.
  lemma CheckSound(length: nat, used: nat, n: u64)
    requires length < TWO64
    ensures FIRST + used + n <= length ==> CheckPasses(length, used, n)
  {
    var end := used + n + HEADER;
    assert end < TWO64 ==> end % TWO64 == end;
  }

  // For instance, in an empty region of any size: a request for all but the header.
  lemma CheckFails(length: nat)
    requires FIRST <= length < TWO64
    ensures var n := length - HEADER;
      FirstFit([], n, 0) == 0 && CheckPasses(length, 0, n) && FIRST + 0 + n > length
  {
    assert length % TWO64 == length;
  }

  lemma InRange(m: Bytes, used: nat, user: u64, cs: seq<Chunk>, lost: nat)
    requires Good(m, used, user, cs, lost)
    ensures |m| < TWO64
  {
  }

  lemma Fits(cs: seq<Chunk>, n: u64)
    ensures FirstFit(cs, n, 0) < |cs| ==> !cs[FirstFit(cs, n, 0)].live
  {
  }

  lemma SameSelf(m: Bytes, used: nat, user: u64, cs: seq<Chunk>, lost: nat)
    requires Good(m, used, user, cs, lost)
    ensures SamePayloads(m, m, cs)
  {
    forall j | 0 <= j < |cs|
      ensures cs[j].addr + cs[j].size <= |m|
    {
      Inside(cs, used, j);
    }
  }

  function Stored(m: Bytes, at: nat, data: Bytes): (m': Bytes)
    requires at + |data| <= |m|
    ensures |m'| == |m|
  {
    m[..at] + data + m[at + |data|..]
  }

  lemma StoredElsewhere(m: Bytes, at: nat, data: Bytes, lo: nat, hi: nat)
    requires at + |data| <= |m| && lo <= hi <= |m| && (hi <= at || at + |data| <= lo)
    ensures Stored(m, at, data)[lo..hi] == m[lo..hi]
  {
  }

  lemma PayloadStored(m: Bytes, c: Chunk, at: nat, data: Bytes)
    requires c.addr + c.size <= |m| && at + |data| <= c.size
    ensures Payload(Stored(m, c.addr + at, data), c)
         == Payload(m, c)[..at] + data + Payload(m, c)[at + |data|..]
  {
  }

  // A chunk that the write does not reach.
  lemma StoredApart(m: Bytes, cs: seq<Chunk>, used: nat, k: nat, at: nat, data: Bytes, j: nat)
    requires Laid(m, cs, used) && k < |cs| && at + |data| <= cs[k].size && j < |cs|
    ensures cs[j].addr + cs[j].size <= |m| && cs[k].addr + cs[k].size <= |m|
    ensures var m' := Stored(m, cs[k].addr + at, data);
      HeadOk(m', cs[j]) && (j != k ==> Payload(m', cs[j]) == Payload(m, cs[j]))
  {
    hide Word, Stored;
    assert HeadOk(m, cs[j]);
    Inside(cs, used, j);
    Inside(cs, used, k);
    var w := cs[k].addr + at;
    if j < k {
      Apart(cs, used, j, k);
      StoredElsewhere(m, w, data, cs[j].addr, cs[j].addr + cs[j].size);
    } else if j > k {
      Apart(cs, used, k, j);
      StoredElsewhere(m, w, data, cs[j].addr, cs[j].addr + cs[j].size);
    }
    StoredWord(m, w, data, cs[j].addr - 16);
    StoredWord(m, w, data, cs[j].addr - 8);
  }

  lemma StoreGood(m: Bytes, used: nat, user: u64, cs: seq<Chunk>, lost: nat, k: nat, at: nat, data: Bytes)
    requires Good(m, used, user, cs, lost) && k < |cs| && at + |data| <= cs[k].size
    ensures cs[k].addr + cs[k].size <= |m|
    ensures var m' := Stored(m, cs[k].addr + at, data);
      && Good(m', used, user, cs, lost)
      && SamePayloads(m, m', cs[..k]) && SamePayloads(m, m', cs[k + 1..])
      && Payload(m', cs[k]) == Payload(m, cs[k])[..at] + data + Payload(m, cs[k])[at + |data|..]
  {
    hide Word, Stored, Payload, HeadOk, Chained, LiveBytes;
    Inside(cs, used, k);
    var w := cs[k].addr + at;
    PayloadStored(m, cs[k], at, data);
    StoredWord(m, w, data, 0);
    StoredWord(m, w, data, 8);
    StoredWord(m, w, data, 16);
    forall j | 0 <= j < |cs|
      ensures cs[j].addr + cs[j].size <= |m|
      ensures HeadOk(Stored(m, w, data), cs[j])
      ensures j != k ==> Payload(Stored(m, w, data), cs[j]) == Payload(m, cs[j])
    {
      StoredApart(m, cs, used, k, at, data, j);
    }
  }

  lemma StoredWord(m: Bytes, at: nat, data: Bytes, b: nat)
    requires at + |data| <= |m| && b + 8 <= |m| && (b + 8 <= at || at + |data| <= b)
    ensures Word(Stored(m, at, data), b) == Word(m, b)
  {
    StoredElsewhere(m, at, data, b, b + 8);
  }
}
