// The records of project-4/kvraw.c: a packed header, a key and a value, laid
// end to end in the byte log and linked backwards by offset.
module Kvraw {
  import opened Bytes
  import opened LogFs
  import opened Options
  import Ring

  const META_LEN := 16
  const MARK: Bytes := [75, 86]  // 'K', 'V'
  const MAX_KEY := 0xffff
  const MAX_VAL := 0xffff_ffff

  datatype Meta = Meta(mark: Bytes, off: nat, keyLen: nat, valLen: nat)

  function EncodeMeta(off: nat, keyLen: nat, valLen: nat): (bs: Bytes)
    ensures |bs| == META_LEN
  {
    MARK + Le(off, 8) + Le(keyLen, 2) + Le(valLen, 4)
  }

  function DecodeMeta(bs: Bytes): Meta
    requires |bs| == META_LEN
  {
    Meta(bs[..2], Nat(bs[2..10]), Nat(bs[10..12]), Nat(bs[12..]))
  }

  lemma MetaRoundTrip(off: nat, keyLen: nat, valLen: nat)
    requires off < TWO64 && keyLen <= MAX_KEY && valLen <= MAX_VAL
    ensures DecodeMeta(EncodeMeta(off, keyLen, valLen)) == Meta(MARK, off, keyLen, valLen)
  {
    var bs := EncodeMeta(off, keyLen, valLen);
    assert bs[2..10] == Le(off, 8) && bs[10..12] == Le(keyLen, 2) && bs[12..] == Le(valLen, 4);
    Widths();
    NatOfLe(off, 8);
    NatOfLe(keyLen, 2);
    NatOfLe(valLen, 4);
  }

  // A record: where it starts, the offset it links back to, its key and value.
  datatype Rec = Rec(off: nat, link: nat, key: Bytes, val: Bytes)

  function Size(r: Rec): nat {
    META_LEN + |r.key| + |r.val|
  }

  function Encode(r: Rec): (bs: Bytes)
    ensures |bs| == Size(r)
  {
    EncodeMeta(r.link, |r.key|, |r.val|) + r.key + r.val
  }

  predicate Fits(r: Rec) {
    r.link < TWO64 && 0 < |r.key| <= MAX_KEY && |r.val| <= MAX_VAL
  }

  ghost predicate Holds(log: Bytes, r: Rec) {
    r.off + Size(r) <= |log| && log[r.off..r.off + Size(r)] == Encode(r)
  }

  // What kvraw_lookup makes of the bytes at some offset, given the room in the
  // caller's two buffers.  Astray is an offset so near to 2^64 that a sum wraps around
  // and passes a test it should not: the program then reads outside the log, and the
  // model stops.
  datatype Lookup =
    | Corrupt
    | Astray
    | Found(key: Bytes, keyLen: nat, val: Bytes, valLen: nat, link: nat)

  // The same for read_meta.
  datatype Header = Bad | Wrapped | Good(meta: Meta)

  function Min(a: nat, b: nat): (m: nat)
    ensures m <= a && m <= b && (m == a || m == b)
  {
    if a < b then a else b
  }

  ghost function HeaderAt(log: Bytes, off: nat): (h: Header)
    ensures h.Good? ==> off + META_LEN + h.meta.keyLen + h.meta.valLen <= |log|
  {
    if (off + META_LEN) % TWO64 > |log| then Bad
    else if off + META_LEN > |log| then Wrapped
    else
      var m := DecodeMeta(log[off..off + META_LEN]);
      var end := off + META_LEN + m.keyLen + m.valLen;
      if m.mark != MARK || end % TWO64 > |log| then Bad
      else if end > |log| then Wrapped
      else Good(m)
  }

  ghost function LookupAt(log: Bytes, off: nat, keyCap: nat, valCap: nat): Lookup {
    match HeaderAt(log, off)
    case Bad => Corrupt
    case Wrapped => Astray
    case Good(m) =>
      var k := off + META_LEN;
      var v := k + m.keyLen;
      Found(log[k..k + Min(m.keyLen, keyCap)], m.keyLen, log[v..v + Min(m.valLen, valCap)], m.valLen, m.off)
  }

  // The first bytes of a part of something stored at off.
  lemma PartAt(log: Bytes, off: nat, bs: Bytes, a: nat, b: nat, len: nat)
    requires off + |bs| <= |log| && log[off..off + |bs|] == bs
    requires a <= b <= |bs| && len <= b - a
    ensures log[off + a..off + a + len] == bs[a..b][..len]
  {
    forall i | 0 <= i < len
      ensures log[off + a + i] == bs[a..b][i]
    {
      assert log[off..off + |bs|][a + i] == log[off + a + i];
    }
  }

  lemma RecordParts(log: Bytes, r: Rec, keyLen: nat, valLen: nat)
    requires Holds(log, r) && keyLen <= |r.key| && valLen <= |r.val|
    ensures var k := r.off + META_LEN;
      var v := k + |r.key|;
      && r.off + Size(r) <= |log|
      && log[r.off..k] == EncodeMeta(r.link, |r.key|, |r.val|)
      && log[k..k + keyLen] == r.key[..keyLen] && log[v..v + valLen] == r.val[..valLen]
  {
    EncodeParts(r);
    hide EncodeMeta, Encode;
    var bs, k, v := Encode(r), META_LEN, META_LEN + |r.key|;
    PartAt(log, r.off, bs, 0, k, k);
    PartAt(log, r.off, bs, k, v, keyLen);
    PartAt(log, r.off, bs, v, Size(r), valLen);
    assert bs[0..k][..k] == bs[0..k];
  }

  lemma ModAtMost(n: nat)
    ensures n % TWO64 <= n
  {
  }

  // A record decodes to itself, cut to the caller's buffers.
  lemma LookupOfRecord(log: Bytes, r: Rec, keyCap: nat, valCap: nat)
    requires Holds(log, r) && Fits(r)
    ensures LookupAt(log, r.off, keyCap, valCap)
         == Found(r.key[..Min(|r.key|, keyCap)], |r.key|, r.val[..Min(|r.val|, valCap)], |r.val|, r.link)
  {
    hide EncodeMeta, DecodeMeta, Holds;
    MetaRoundTrip(r.link, |r.key|, |r.val|);
    ModAtMost(r.off + META_LEN);
    ModAtMost(r.off + Size(r));
    RecordParts(log, r, Min(|r.key|, keyCap), Min(|r.val|, valCap));
  }

  lemma EncodeParts(r: Rec)
    ensures var bs, k := Encode(r), META_LEN;
      && bs[0..k] == EncodeMeta(r.link, |r.key|, |r.val|)
      && bs[k..k + |r.key|] == r.key
      && bs[k + |r.key|..Size(r)] == r.val
  {
    hide EncodeMeta;
  }

  lemma HeaderBounds(bs: Bytes)
    requires |bs| == META_LEN
    ensures DecodeMeta(bs).keyLen <= MAX_KEY && DecodeMeta(bs).valLen <= MAX_VAL
  {
    Widths();
    LeOfNat(bs[10..12]);
    LeOfNat(bs[12..]);
  }

  // The end that a header inside the log gives its record, if it has the mark.
  ghost function HeaderEnd(log: Bytes, off: nat): (end: Option<nat>) {
    if off + META_LEN > |log| then None
    else
      var m := DecodeMeta(log[off..off + META_LEN]);
      if m.mark != MARK then None else Some(off + META_LEN + m.keyLen + m.valLen)
  }

  // Exactly when the tests of read_meta let an offset through that they should not:
  // its header reaches past 2^64, or begins inside the log and gives lengths that do.
  lemma AstrayExact(log: Bytes, off: nat, keyCap: nat, valCap: nat)
    requires META_LEN <= |log| < TWO64 && off < TWO64
    ensures LookupAt(log, off, keyCap, valCap) == Astray <==>
      || off + META_LEN >= TWO64
      || (HeaderEnd(log, off).Some? && HeaderEnd(log, off).value >= TWO64)
  {
    Wrap(off + META_LEN);
    if off + META_LEN <= |log| {
      HeaderBounds(log[off..off + META_LEN]);
      var m := DecodeMeta(log[off..off + META_LEN]);
      Wrap(off + META_LEN + m.keyLen + m.valLen);
    }
  }

  lemma Wrap(n: nat)
    requires n < 2 * TWO64
    ensures n % TWO64 == if n < TWO64 then n else n - TWO64
  {
  }

  // In a log that stays a key's and a value's length away from 2^64, only the first.
  lemma AstrayNearWrap(log: Bytes, off: nat, keyCap: nat, valCap: nat)
    requires META_LEN <= |log| && |log| + MAX_KEY + MAX_VAL < TWO64 && off < TWO64
    ensures LookupAt(log, off, keyCap, valCap) == Astray <==> off + META_LEN >= TWO64
  {
    AstrayExact(log, off, keyCap, valCap);
    if off + META_LEN <= |log| {
      HeaderBounds(log[off..off + META_LEN]);
    }
  }

  // And exactly what is taken for a record, in terms of the bytes: the mark, and two
  // lengths that stay inside the log.  Anything else is corrupt.
  lemma FoundExact(log: Bytes, off: nat, keyCap: nat, valCap: nat)
    requires |log| < TWO64
    ensures LookupAt(log, off, keyCap, valCap).Found? <==>
      && off + 16 <= |log| && log[off] == 75 && log[off + 1] == 86
      && off + 16 + Nat(log[off + 10..off + 12]) + Nat(log[off + 12..off + 16]) <= |log|
    ensures var r := LookupAt(log, off, keyCap, valCap);
      r.Found? ==>
        && r.link == Nat(log[off + 2..off + 10])
        && r.keyLen == Nat(log[off + 10..off + 12]) && r.valLen == Nat(log[off + 12..off + 16])
        && r.key <= log[off + 16..] && |r.key| == Min(r.keyLen, keyCap)
        && r.val <= log[off + 16 + r.keyLen..] && |r.val| == Min(r.valLen, valCap)
  {
    ModAtMost(off + META_LEN);
    if off + META_LEN <= |log| {
      HeaderFields(log, off);
      var m := DecodeMeta(log[off..off + META_LEN]);
      ModAtMost(off + META_LEN + m.keyLen + m.valLen);
      hide DecodeMeta, Nat;
    }
  }

  lemma HeaderFields(log: Bytes, off: nat)
    requires off + META_LEN <= |log|
    ensures var m := DecodeMeta(log[off..off + META_LEN]);
      && (m.mark == MARK <==> log[off] == 75 && log[off + 1] == 86)
      && m.off == Nat(log[off + 2..off + 10])
      && m.keyLen == Nat(log[off + 10..off + 12]) && m.valLen == Nat(log[off + 12..off + 16])
  {
    var bs := log[off..off + META_LEN];
    assert bs[..2] == [log[off], log[off + 1]];
    assert bs[2..10] == log[off + 2..off + 10] && bs[10..12] == log[off + 10..off + 12];
    assert bs[12..] == log[off + 12..off + 16];
  }

  // It happens at this offset in every log.
  lemma AstrayHappens(log: Bytes, keyCap: nat, valCap: nat)
    requires |log| < TWO64
    ensures LookupAt(log, TWO64 - META_LEN, keyCap, valCap) == Astray
  {
    Wrap(TWO64);
  }

  lemma HoldsGrows(log: Bytes, more: Bytes, r: Rec)
    requires Holds(log, r)
    ensures Holds(log + more, r)
  {
    SliceOfPrefix(log, more, r.off, Size(r));
  }

  // The log is these records, end to end, the first being the dummy at 0.
  ghost predicate Layout(log: Bytes, recs: seq<Rec>) {
    && |recs| > 0 && recs[0].off == 0
    && (forall i :: 0 < i < |recs| ==> recs[i].off == End(recs[i - 1]))
    && End(recs[|recs| - 1]) == |log|
    && (forall i :: 0 <= i < |recs| ==> Fits(recs[i]) && Holds(log, recs[i]))
  }

  function End(r: Rec): nat {
    r.off + Size(r)
  }

  // A new record leaves every earlier one readable where it was.
  lemma LayoutGrows(log: Bytes, recs: seq<Rec>, r: Rec)
    requires Layout(log, recs) && Fits(r) && r.off == |log|
    ensures Layout(log + Encode(r), recs + [r])
  {
    forall i | 0 <= i < |recs|
      ensures Holds(log + Encode(r), recs[i])
    {
      HoldsGrows(log, Encode(r), recs[i]);
    }
    assert (log + Encode(r))[r.off..] == Encode(r);
  }

  // Offsets grow with position, so only the dummy record is at offset 0.
  lemma {:induction false} OffsetsGrow(log: Bytes, recs: seq<Rec>, i: nat, j: nat)
    requires Layout(log, recs) && i < j < |recs|
    ensures recs[i].off + META_LEN < recs[j].off < |log|
    decreases j
  {
    if i < j - 1 {
      OffsetsGrow(log, recs, i, j - 1);
    }
    assert Holds(log, recs[j]);
    assert recs[j].off == End(recs[j - 1]);
  }

  // Every record of the layout is read back in full, whatever came after it.
  lemma RecordAt(log: Bytes, recs: seq<Rec>, i: nat, keyCap: nat, valCap: nat)
    requires Layout(log, recs) && i < |recs|
    ensures var r := recs[i];
      LookupAt(log, r.off, keyCap, valCap)
        == Found(r.key[..Min(|r.key|, keyCap)], |r.key|, r.val[..Min(|r.val|, valCap)], |r.val|, r.link)
  {
    LookupOfRecord(log, recs[i], keyCap, valCap);
  }

  class Raw {
    var size: nat
    const fs: Log
    ghost var recs: seq<Rec>

    ghost predicate Valid()
      reads this, fs, fs.wcache, fs.device, fs.rcache, fs.curBlk
    {
      fs.Valid() && size == |fs.log| && Layout(fs.log, recs)
    }

    ghost function Repr(): set<object> {
      {this} + fs.Repr()
    }

    // The bytes still fit the device.
    ghost predicate RoomFor(n: nat)
      reads this
    {
      size + n <= Ring.Start(fs.device.Length, fs.B) <= TWO64
    }

    // A push of this session may have overtaken the worker only if the worker releases
    // its slots first and, with n bytes in the log, more than 32 blocks are complete.
    ghost predicate Overtakable(n: nat) {
      !fs.releasesLast && Ring.Start(Ring.WCACHE_BLOCKS + 1, fs.B) <= n
    }

    constructor (log: Log)
      requires log.Valid() && log.log == []
      requires META_LEN + 2 <= Ring.Start(log.device.Length, log.B) <= TWO64
      modifies log.Repr()
      ensures Valid() && fs == log && (log.overtaken && !old(log.overtaken) ==> Overtakable(size))
      ensures recs == [Rec(0, 0, [0], [0])] && size == META_LEN + 2 && old(log.trace) <= log.trace
    {
      hide Log.Valid;
      fs, size, recs := log, 0, [];
      new;
      fs.Facts();
      WriteRecord([0], [0], 0);
      assert fs.log == Encode(recs[0]);
      assert fs.log[0..Size(recs[0])] == Encode(recs[0]);
    }

    // The writes of kvraw_append: header, key and value at the end of the log.
    method WriteRecord(key: Bytes, val: Bytes, link: u64)
      requires fs.Valid() && size == |fs.log|
      requires 0 < |key| <= MAX_KEY && |val| <= MAX_VAL && RoomFor(META_LEN + |key| + |val|)
      modifies Repr()
      ensures fs.Valid() && (fs.overtaken && !old(fs.overtaken) ==> Overtakable(size))
      ensures recs == old(recs) + [Rec(old(size), link, key, val)] && old(fs.trace) <= fs.trace
      ensures fs.log == old(fs.log) + Encode(Rec(old(size), link, key, val)) && size == |fs.log|
    {
      hide Log.Valid;
      fs.Facts();
      fs.Append(EncodeMeta(link, |key|, |val|));
      fs.Append(key);
      fs.Append(val);
      recs := recs + [Rec(size, link, key, val)];
      size := size + META_LEN + |key| + |val|;
    }

    // kvraw_append: the record goes to the end and its offset is returned.
    method Append(key: Bytes, val: Bytes, link: u64) returns (off: u64)
      requires Valid() && 0 < |key| <= MAX_KEY && |val| <= MAX_VAL && RoomFor(META_LEN + |key| + |val|)
      modifies Repr()
      ensures Valid() && (fs.overtaken && !old(fs.overtaken) ==> Overtakable(size))
      ensures off == old(size) && size == old(size) + META_LEN + |key| + |val|
      ensures recs == old(recs) + [Rec(off, link, key, val)] && old(fs.trace) <= fs.trace
    {
      hide Log.Valid;
      LayoutGrows(fs.log, recs, Rec(size, link, key, val));
      off := size;
      WriteRecord(key, val, link);
    }

    method ReadMeta(off: nat) returns (h: Header)
      requires Valid()
      modifies Repr() - {this}
      ensures Valid() && fs.log == old(fs.log) && fs.overtaken == old(fs.overtaken) && old(fs.trace) <= fs.trace
      ensures !fs.overtaken ==> h == HeaderAt(fs.log, off)
      ensures h.Good? ==> off + META_LEN + h.meta.keyLen + h.meta.valLen <= size
    {
      hide Log.Valid, Layout, DecodeMeta;
      fs.Facts();
      if (off + META_LEN) % TWO64 > size {
        return Bad;
      }
      if off + META_LEN > size {
        return Wrapped;
      }
      var bs := fs.Read(off, META_LEN);
      var meta := DecodeMeta(bs);
      var end := off + META_LEN + meta.keyLen + meta.valLen;
      h := if meta.mark != MARK || end % TWO64 > size then Bad
           else if end > size then Wrapped
           else Good(meta);
    }

    // kvraw_lookup at any non-zero offset.
    method Lookup(keyCap: nat, valCap: nat, off: nat) returns (r: Lookup)
      requires Valid() && off != 0
      modifies Repr() - {this}
      ensures Valid() && fs.log == old(fs.log) && fs.overtaken == old(fs.overtaken) && old(fs.trace) <= fs.trace
      ensures !fs.overtaken ==> r == LookupAt(fs.log, off, keyCap, valCap)
    {
      hide Log.Valid, Layout, HeaderAt;
      var h := ReadMeta(off);
      if !h.Good? {
        return if h.Bad? then Corrupt else Astray;
      }
      var meta := h.meta;
      fs.Facts();
      var keyOff := off + META_LEN;
      var valOff := keyOff + meta.keyLen;
      var key := fs.Read(keyOff, Min(meta.keyLen, keyCap));
      var val := fs.Read(valOff, Min(meta.valLen, valCap));
      r := Found(key, meta.keyLen, val, meta.valLen, meta.off);
    }
  }
}
