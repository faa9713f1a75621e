/** Directory records synthesised from a remote listing (native/macos/rcc_interpose.c, `my_gde64`), packed into the
    caller's buffers over any number of calls. */
module Dirents {
  import opened Bytes

  const HEADER: nat := 21

  /** A remote listing. Names are C strings: no NUL inside. */
  datatype Listing = Listing(names: seq<bytes>, types: bytes) {
    predicate Valid() {
      |types| == |names| && forall i :: 0 <= i < |names| ==> 0 !in names[i]
    }
  }

  datatype Entry = Entry(name: bytes, dtype: byte)

  function Entries(d: Listing, lo: nat, hi: nat): seq<Entry>
    requires lo <= hi <= |d.names| == |d.types|
    decreases hi - lo
  {
    if lo == hi then [] else [Entry(d.names[lo], d.types[lo])] + Entries(d, lo + 1, hi)
  }

  function RecLen(name: bytes): nat {
    var n := HEADER + |name| + 1 + 3;
    n - n % 4
  }

  lemma RecLenFits(name: bytes)
    ensures RecLen(name) % 4 == 0 && HEADER + |name| + 1 <= RecLen(name) < HEADER + |name| + 5
  {
  }

  /** The bytes written for entry `i`; the padding after them is left as it was. Lengths are 16 bits wide. */
  function Record(name: bytes, dtype: byte, i: nat): bytes {
    LE(i + 1, 8) + LE(i + 1, 8) + LE(RecLen(name), 2) + LE(|name|, 2) + [dtype] + name + [0]
  }

  /** `b` is the records of entries `lo` up to `hi`, one after another. */
  ghost predicate Packed(b: bytes, d: Listing, lo: nat, hi: nat)
    requires lo <= hi <= |d.names| == |d.types|
    decreases hi - lo
  {
    if lo == hi then b == []
    else
      var name := d.names[lo];
      && RecLen(name) <= |b|
      && Record(name, d.types[lo], lo) <= b
      && Packed(b[RecLen(name)..], d, lo + 1, hi)
  }

  /** How far entries fit into `room` bytes. */
  function Fit(d: Listing, pos: nat, room: nat): (end: nat)
    ensures pos <= |d.names| ==> pos <= end <= |d.names|
    decreases |d.names| - pos
  {
    if pos < |d.names| && RecLen(d.names[pos]) <= room then Fit(d, pos + 1, room - RecLen(d.names[pos])) else pos
  }

  function Used(d: Listing, lo: nat, hi: nat): nat
    requires lo <= hi <= |d.names|
    decreases hi - lo
  {
    if lo == hi then 0 else RecLen(d.names[lo]) + Used(d, lo + 1, hi)
  }

  // ---- what a reader finds -----------------------------------------------------------------------------

  /** Walks records by their length field. */
  function Parse(b: bytes): Option<seq<Entry>>
    decreases |b|
  {
    if b == [] then Some([])
    else if |b| < HEADER then None
    else
      var reclen, namlen := FromLE(b[16..18]), FromLE(b[18..20]);
      if reclen > |b| || reclen < HEADER + namlen then None
      else
        var rest :- Parse(b[reclen..]);
        Some([Entry(b[HEADER..HEADER + namlen], b[20])] + rest)
  }

  lemma HalfLimit()
    ensures Limit(2) == TWO16
  {
    assert Limit(1) == 0x100;
  }

  lemma RecordParts(name: bytes, dtype: byte, i: nat)
    ensures var r := Record(name, dtype, i);
            && |r| == HEADER + |name| + 1
            && r[16..18] == LE(RecLen(name), 2) && r[18..20] == LE(|name|, 2) && r[20] == dtype
            && r[HEADER..HEADER + |name|] == name
  {
    hide LE, RecLen;
  }

  lemma RecordRead(b: bytes, name: bytes, dtype: byte, i: nat)
    requires Record(name, dtype, i) <= b && RecLen(name) < TWO16
    ensures |b| >= HEADER + |name| + 1
    ensures FromLE(b[16..18]) == RecLen(name) && FromLE(b[18..20]) == |name|
    ensures b[20] == dtype && b[HEADER..HEADER + |name|] == name
  {
    hide LE, FromLE, Limit, Record, RecLen;
    var r := Record(name, dtype, i);
    RecordParts(name, dtype, i);
    RecLenFits(name);
    HalfLimit();
    assert b[16..18] == r[16..18] && b[18..20] == r[18..20];
    assert b[HEADER..HEADER + |name|] == r[HEADER..HEADER + |name|];
    LERoundTrip(RecLen(name), 2);
    LERoundTrip(|name|, 2);
  }

  /** Packed records parse back to their entries, as long as record lengths fit their 16-bit field. */
  lemma {:induction false} PackedParses(b: bytes, d: Listing, lo: nat, hi: nat)
    requires lo <= hi <= |d.names| == |d.types| && Packed(b, d, lo, hi)
    requires forall i :: lo <= i < hi ==> RecLen(d.names[i]) < TWO16
    ensures Parse(b) == Some(Entries(d, lo, hi))
    decreases hi - lo
  {
    hide Record, RecLen;
    if lo < hi {
      RecLenFits(d.names[lo]);
      RecordRead(b, d.names[lo], d.types[lo], lo);
      PackedParses(b[RecLen(d.names[lo])..], d, lo + 1, hi);
    }
  }

  lemma {:induction false} PackedSize(b: bytes, d: Listing, lo: nat, hi: nat)
    requires lo <= hi <= |d.names| == |d.types| && Packed(b, d, lo, hi)
    ensures |b| == Used(d, lo, hi) && |b| % 4 == 0
    decreases hi - lo
  {
    hide Record, RecLen;
    if lo < hi {
      RecLenFits(d.names[lo]);
      PackedSize(b[RecLen(d.names[lo])..], d, lo + 1, hi);
    }
  }

  /** Where a packed record lies, it carries its entry's number plus one as inode and as seek offset, and a NUL behind
      its name. */
  lemma {:induction false} PackedAt(b: bytes, d: Listing, lo: nat, hi: nat, k: nat)
    requires lo <= k < hi <= |d.names| == |d.types| && Packed(b, d, lo, hi)
    ensures var off := Used(d, lo, k);
            && off + HEADER + |d.names[k]| < |b| && b[off + HEADER + |d.names[k]|] == 0
            && (k + 1 < TWO64 ==> FromLE(b[off..off + 8]) == k + 1 && FromLE(b[off + 8..off + 16]) == k + 1)
    decreases k - lo
  {
    hide Record, RecLen, LE, FromLE;
    var name := d.names[lo];
    if k == lo {
      RecordNumbers(b, name, d.types[lo], lo);
    } else {
      var n, rest := RecLen(name), b[RecLen(name)..];
      PackedAt(rest, d, lo + 1, hi, k);
      var off := Used(d, lo + 1, k);
      assert rest[off..off + 8] == b[n + off..n + off + 8];
      assert rest[off + 8..off + 16] == b[n + off + 8..n + off + 16];
    }
  }

  lemma RecordNumbers(b: bytes, name: bytes, dtype: byte, i: nat)
    requires Record(name, dtype, i) <= b
    ensures HEADER + |name| < |b| && b[HEADER + |name|] == 0
    ensures i + 1 < TWO64 ==> FromLE(b[0..8]) == i + 1 && FromLE(b[8..16]) == i + 1
  {
    hide LE, FromLE, Limit;
    var r := Record(name, dtype, i);
    assert |r| == HEADER + |name| + 1 && b[HEADER + |name|] == r[HEADER + |name|];
    assert b[0..8] == r[0..8] == LE(i + 1, 8) && b[8..16] == r[8..16] == LE(i + 1, 8);
    if i + 1 < TWO64 {
      QuadLimit();
      LERoundTrip(i + 1, 8);
    }
  }

  lemma QuadLimit()
    ensures Limit(8) == TWO64
  {
    assert Limit(4) == TWO32;
    assert Limit(8) == 0x100 * 0x100 * 0x100 * 0x100 * Limit(4);
  }

  lemma {:induction false} PackedMore(b: bytes, d: Listing, lo: nat, hi: nat, rec: bytes)
    requires lo <= hi < |d.names| == |d.types| && Packed(b, d, lo, hi)
    requires |rec| == RecLen(d.names[hi]) && Record(d.names[hi], d.types[hi], hi) <= rec
    ensures Packed(b + rec, d, lo, hi + 1)
    decreases hi - lo
  {
    hide Record, RecLen;
    if lo == hi {
      assert b + rec == rec && rec[RecLen(d.names[hi])..] == [];
    } else {
      var n := RecLen(d.names[lo]);
      PackedMore(b[n..], d, lo + 1, hi, rec);
      assert (b + rec)[n..] == b[n..] + rec;
    }
  }

  /** One call of `Gde64` writes one whole record after the other, as many as fit, and stays inside the buffer. */
  class DirFile {
    const d: Listing
    var npos: nat

    ghost predicate Valid()
      reads this
    {
      d.Valid() && npos <= |d.names|
    }

    constructor (d: Listing)
      requires d.Valid()
      ensures Valid() && this.d == d && npos == 0
    {
      this.d, npos := d, 0;
    }

    method Gde64(buf: array<byte>) returns (used: nat, basep: nat)
      requires Valid()
      modifies this, buf
      ensures Valid() && npos == Fit(d, old(npos), buf.Length) && basep == npos
      ensures used <= buf.Length && Packed(buf[..used], d, old(npos), npos)
      ensures buf[used..] == old(buf[used..])
    {
      hide Record, RecLen, Packed, Fit;
      used := 0;
      NothingPackedYet(d, npos);
      while npos < |d.names|
        invariant Valid() && old(npos) <= npos && used <= buf.Length
        invariant Packed(buf[..used], d, old(npos), npos)
        invariant buf[used..] == old(buf[used..])
        invariant Fit(d, npos, buf.Length - used) == Fit(d, old(npos), buf.Length)
      {
        var name := d.names[npos];
        var reclen := RecLen(name);
        FitStep(d, npos, buf.Length - used);
        RecLenFits(name);
        if used + reclen > buf.Length {
          break;
        }
        ghost var before := buf[..used];
        RecordParts(name, d.types[npos], npos);
        PutRecord(buf, used, reclen, Record(name, d.types[npos], npos));
        assert buf[..used + reclen] == before + buf[used..used + reclen];
        PackedMore(before, d, old(npos), npos, buf[used..used + reclen]);
        used := used + reclen;
        npos := npos + 1;
      }
      FitStep(d, npos, buf.Length - used);
      basep := npos;
    }
  }

  /** Writes a record into its place of `reclen` bytes. */
  method PutRecord(buf: array<byte>, at: nat, reclen: nat, rec: bytes)
    requires |rec| <= reclen && at + reclen <= buf.Length
    modifies buf
    ensures buf[..at] == old(buf[..at]) && rec <= buf[at..at + reclen]
    ensures buf[at + reclen..] == old(buf[at + reclen..])
  {
    ghost var after := buf[at + |rec|..];
    CopyInto(buf, at, rec);
    assert buf[at + reclen..] == buf[at + |rec|..][reclen - |rec|..] == after[reclen - |rec|..];
    assert buf[at..at + reclen][..|rec|] == buf[at..at + |rec|];
  }

  lemma NothingPackedYet(d: Listing, lo: nat)
    requires lo <= |d.names| == |d.types|
    ensures Packed([], d, lo, lo)
  {
  }

  lemma FitStep(d: Listing, pos: nat, room: nat)
    ensures Fit(d, pos, room)
         == if pos < |d.names| && RecLen(d.names[pos]) <= room then Fit(d, pos + 1, room - RecLen(d.names[pos]))
            else pos
  {
    hide RecLen;
  }

  /** A call returns nothing exactly when the listing is exhausted or its next record does not fit. */
  lemma EmptyIff(d: Listing, pos: nat, room: nat)
    requires pos <= |d.names|
    ensures Fit(d, pos, room) == pos <==> pos == |d.names| || RecLen(d.names[pos]) > room
  {
    hide RecLen;
    if pos < |d.names| && RecLen(d.names[pos]) <= room {
      assert Fit(d, pos, room) >= pos + 1;
    }
  }

  // ---- a whole listing ---------------------------------------------------------------------------------

  /** The positions before each of a series of calls and after the last, the buffers' sizes, and what was returned. */
  ghost predicate IsSeries(d: Listing, poss: seq<nat>, sizes: seq<nat>, outs: seq<bytes>) {
    && d.Valid()
    && |poss| == |sizes| + 1 == |outs| + 1 && poss[0] == 0
    && forall i :: 0 <= i < |sizes| ==>
         && poss[i] <= |d.names| && poss[i + 1] == Fit(d, poss[i], sizes[i])
         && Packed(outs[i], d, poss[i], poss[i + 1])
  }

  /** Everything a reader collects over a series of calls. */
  function Collected(outs: seq<bytes>): Option<seq<Entry>> {
    if outs == [] then Some([])
    else
      var before :- Collected(outs[..|outs| - 1]);
      var last :- Parse(outs[|outs| - 1]);
      Some(before + last)
  }

  lemma {:induction false} EntriesJoin(d: Listing, lo: nat, mid: nat, hi: nat)
    requires lo <= mid <= hi <= |d.names| == |d.types|
    ensures Entries(d, lo, mid) + Entries(d, mid, hi) == Entries(d, lo, hi)
    decreases mid - lo
  {
    if lo < mid {
      EntriesJoin(d, lo + 1, mid, hi);
    }
  }

  lemma SeriesPrefix(d: Listing, poss: seq<nat>, sizes: seq<nat>, outs: seq<bytes>, k: nat)
    requires IsSeries(d, poss, sizes, outs) && k <= |outs|
    ensures IsSeries(d, poss[..k + 1], sizes[..k], outs[..k]) && poss[k] <= |d.names|
  {
    hide Packed;
    if k > 0 {
      assert poss[k - 1 + 1] == Fit(d, poss[k - 1], sizes[k - 1]);
    }
  }

  /** However a listing is cut into calls, the reader gets every entry up to the last position exactly once and in
      order. */
  lemma {:induction false} SeriesIsListing(d: Listing, poss: seq<nat>, sizes: seq<nat>, outs: seq<bytes>)
    requires IsSeries(d, poss, sizes, outs)
    requires forall i :: 0 <= i < |d.names| ==> RecLen(d.names[i]) < TWO16
    ensures poss[|outs|] <= |d.names| && Collected(outs) == Some(Entries(d, 0, poss[|outs|]))
    decreases |outs|
  {
    hide Packed, Parse, Fit, RecLen;
    SeriesPrefix(d, poss, sizes, outs, |outs|);
    if outs != [] {
      var k := |outs| - 1;
      SeriesPrefix(d, poss, sizes, outs, k);
      SeriesIsListing(d, poss[..k + 1], sizes[..k], outs[..k]);
      PackedParses(outs[k], d, poss[k], poss[k + 1]);
      EntriesJoin(d, 0, poss[k], poss[k + 1]);
    }
  }

  /** With buffers that hold the largest record, a call returns nothing only at the end of the listing, every call
      before that makes progress, and one call per entry is enough to get them all. */
  lemma {:induction false} SeriesProgress(d: Listing, poss: seq<nat>, sizes: seq<nat>, outs: seq<bytes>, k: nat)
    requires IsSeries(d, poss, sizes, outs) && k <= |outs|
    requires forall i, j :: 0 <= i < |sizes| && 0 <= j < |d.names| ==> RecLen(d.names[j]) <= sizes[i]
    ensures forall i :: 0 <= i < k ==> (outs[i] == [] <==> poss[i] == |d.names|)
    ensures k <= poss[k] || poss[k] == |d.names|
  {
    hide Fit, RecLen, Packed;
    SeriesPrefix(d, poss, sizes, outs, k);
    if k > 0 {
      SeriesProgress(d, poss, sizes, outs, k - 1);
      SeriesPrefix(d, poss, sizes, outs, k - 1);
      EmptyIff(d, poss[k - 1], sizes[k - 1]);
      NothingPacked(outs[k - 1], d, poss[k - 1], poss[k]);
    }
  }

  lemma NothingPacked(b: bytes, d: Listing, lo: nat, hi: nat)
    requires lo <= hi <= |d.names| == |d.types| && Packed(b, d, lo, hi)
    ensures b == [] <==> lo == hi
  {
    if lo < hi {
      RecLenFits(d.names[lo]);
    }
  }
}
