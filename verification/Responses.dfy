/** The response half of the IO-RPC codec: op-specific layouts after an errno, with one optional trailing field. */
module Responses {
  import opened Bytes
  import opened Streams
  import opened Fields
  import opened Protocol

  predicate HasMtime(op: byte) { op == OP_STAT || op == OP_OPEN || op == OP_CREATE }

  function TypeAt(types: bytes, i: nat): byte { if i < |types| then types[i] else 0 }

  /** READDIR: every name with its type, a missing type sent as unknown. */
  function EntryFields(names: seq<bytes>, types: bytes): seq<Field> {
    if names == [] then []
    else
      var k := |names| - 1;
      EntryFields(names[..k], types) + [FBlob(names[k]), F8(TypeAt(types, k))]
  }

  function EntryKinds(n: nat): seq<Kind> { if n == 0 then [] else EntryKinds(n - 1) + [KBlob, K8] }

  /** The fields of STAT, OPEN and CREATE that every peer sends. */
  function StatFields(op: byte, p: Response): seq<Field> {
    [F32(0), F32(p.mode), F64(U64Of(p.size))] + if op == OP_STAT then [] else [F64(p.handle)]
  }

  function StatKinds(op: byte): seq<Kind> { [K32, K32, K64] + if op == OP_STAT then [] else [K64] }

  function ResponseFields(op: byte, p: Response): seq<Field> {
    if p.err != 0 then [F32(U32Of(p.err))]
    else if HasMtime(op) then StatFields(op, p) + [F64(U64Of(p.mtime))]
    else if op == OP_PREAD then [F32(0), FBlob(p.data)]
    else if op == OP_PWRITE then [F32(0), F64(U64Of(p.size))]
    else if op == OP_READDIR then [F32(0), F32(U32Of(|p.names|))] + EntryFields(p.names, p.types)
    else if op == OP_SERVERINFO then [F32(0), FBlob(p.os), FBlob(p.arch)]
    else [F32(0)]
  }

  function DecodeResponse(op: byte, body: bytes): Option<Response> {
    var head :- ParseFields([K32], body);
    var err := I32Of(head.fields[0].n);
    if err != 0 then Some(Reply(err))
    else if HasMtime(op) then
      var all :- ParseFields(StatKinds(op), body);
      var fs := all.fields;
      Some(Reply(0).(mode := WordAt(fs, 1), size := I64Of(QuadAt(fs, 2)),
                     handle := if op == OP_STAT then 0 else QuadAt(fs, 3),
                     mtime := if |all.rest| >= 8 then I64Of(FromBE64(all.rest)) else 0))
    else if op == OP_PREAD then
      var all :- ParseFields([K32, KBlob], body);
      Some(Reply(0).(data := BlobAt(all.fields, 1)))
    else if op == OP_PWRITE then
      var all :- ParseFields([K32, K64], body);
      Some(Reply(0).(size := I64Of(QuadAt(all.fields, 1))))
    else if op == OP_READDIR then
      var count :- ParseFields([K32, K32], body);
      var n := WordAt(count.fields, 1);
      var all :- ParseFields([K32, K32] + EntryKinds(n), body);
      EntryKindsShape(n);
      Some(Reply(0).(names := NamesIn(all.fields, n), types := TypesIn(all.fields, n)))
    else if op == OP_SERVERINFO then
      var all :- ParseFields([K32, KBlob, KBlob], body);
      Some(Reply(0).(os := BlobAt(all.fields, 1), arch := BlobAt(all.fields, 2)))
    else Some(Reply(0))
  }

  lemma {:induction false} EntryKindsShape(n: nat)
    ensures |EntryKinds(n)| == 2 * n
    ensures forall i :: 0 <= i < n ==> EntryKinds(n)[2 * i] == KBlob && EntryKinds(n)[2 * i + 1] == K8
  {
    if n > 0 {
      EntryKindsShape(n - 1);
    }
  }

  predicate EntriesIn(fs: seq<Field>, n: nat) {
    && |fs| == 2 + 2 * n
    && forall i :: 0 <= i < n ==> fs[2 + 2 * i].FBlob? && fs[3 + 2 * i].F8?
  }

  function NamesIn(fs: seq<Field>, n: nat): (names: seq<bytes>)
    requires EntriesIn(fs, n)
    ensures |names| == n
  {
    seq(n, i requires 0 <= i < n => fs[2 + 2 * i].b)
  }

  function TypesIn(fs: seq<Field>, n: nat): (types: bytes)
    requires EntriesIn(fs, n)
    ensures |types| == n
  {
    seq(n, i requires 0 <= i < n => fs[3 + 2 * i].v)
  }

  /** A response as it arrives: only its op's fields, and for READDIR a type for every name. */
  function Delivered(op: byte, p: Response): Response {
    if p.err != 0 then Reply(p.err)
    else if HasMtime(op) then
      Reply(0).(mode := p.mode, size := p.size, handle := if op == OP_STAT then 0 else p.handle, mtime := p.mtime)
    else if op == OP_PREAD then Reply(0).(data := p.data)
    else if op == OP_PWRITE then Reply(0).(size := p.size)
    else if op == OP_READDIR then
      Reply(0).(names := p.names, types := seq(|p.names|, i requires 0 <= i < |p.names| => TypeAt(p.types, i)))
    else if op == OP_SERVERINFO then Reply(0).(os := p.os, arch := p.arch)
    else Reply(0)
  }

  // ---- the bytes of a response ---------------------------------------------------------------------------

  /** Names with a type each, 0 where none is given. */
  function EntryBytes(names: seq<bytes>, types: bytes): bytes {
    if names == [] then []
    else
      var k := |names| - 1;
      EntryBytes(names[..k], types) + BlobBytes(names[k]) + [if k < |types| then types[k] else 0]
  }

  /** The layout of every response, byte by byte: an errno, and after 0 what the op answers. */
  function ResponseBytes(op: byte, p: Response): bytes {
    if p.err != 0 then BE32(U32Of(p.err))
    else
      BE32(0) +
      match op
      case 1 => BE32(p.mode) + SignedBytes(p.size) + SignedBytes(p.mtime)
      case 2 => BE32(p.mode) + SignedBytes(p.size) + BE64(p.handle) + SignedBytes(p.mtime)
      case 8 => BE32(p.mode) + SignedBytes(p.size) + BE64(p.handle) + SignedBytes(p.mtime)
      case 3 => BlobBytes(p.data)
      case 7 => SignedBytes(p.size)
      case 6 => BE32(U32Of(|p.names|)) + EntryBytes(p.names, p.types)
      case 13 => BlobBytes(p.os) + BlobBytes(p.arch)
      case _ => []
  }

  lemma {:induction false} EntriesLayout(fs: seq<Field>, names: seq<bytes>, types: bytes)
    ensures EncFields(fs + EntryFields(names, types)) == EncFields(fs) + EntryBytes(names, types)
  {
    hide EncFields, BE32, U32Of;
    if names == [] {
      assert fs + [] == fs;
      assert EncFields(fs) + [] == EncFields(fs);
    } else {
      var k := |names| - 1;
      var init := fs + EntryFields(names[..k], types);
      var name, kind := FBlob(names[k]), F8(TypeAt(types, k));
      EntriesLayout(fs, names[..k], types);
      assert fs + EntryFields(names, types) == init + [name] + [kind];
      EncFieldsSnoc(init, name);
      EncFieldsSnoc(init + [name], kind);
      var x := EntryBytes(names[..k], types);
      assert EncFields(fs) + x + BlobBytes(names[k]) + EncField(kind)
          == EncFields(fs) + (x + BlobBytes(names[k]) + EncField(kind));
    }
  }

  lemma ResponseLayout(op: byte, p: Response)
    ensures EncFields(ResponseFields(op, p)) == ResponseBytes(op, p)
  {
    hide EncFields, BE32, BE64, U32Of, U64Of, EntryFields, EntryBytes;
    if p.err != 0 {
      EncOne(F32(U32Of(p.err)));
    } else if op == 6 {
      EntriesLayout([F32(0), F32(U32Of(|p.names|))], p.names, p.types);
      EncTwo(F32(0), F32(U32Of(|p.names|)));
      var x, y, z := BE32(0), BE32(U32Of(|p.names|)), EntryBytes(p.names, p.types);
      assert x + y + z == x + (y + z);
    } else if op == 1 || op == 2 || op == 8 {
      StatLayout(op, p);
    } else {
      EncOne(F32(0));
      EncTwo(F32(0), FBlob(p.data));
      EncTwo(F32(0), F64(U64Of(p.size)));
      EncThree(F32(0), FBlob(p.os), FBlob(p.arch));
      var x, y, z := BE32(0), BlobBytes(p.os), BlobBytes(p.arch);
      assert x + y + z == x + (y + z) && x + [] == x;
    }
  }

  lemma StatLayout(op: byte, p: Response)
    requires p.err == 0 && (op == 1 || op == 2 || op == 8)
    ensures EncFields(ResponseFields(op, p)) == ResponseBytes(op, p)
  {
    hide EncFields, BE32, BE64, U32Of, U64Of;
    var zero, mode, size, time := F32(0), F32(p.mode), F64(U64Of(p.size)), F64(U64Of(p.mtime));
    var w, x, y, z := BE32(0), BE32(p.mode), SignedBytes(p.size), SignedBytes(p.mtime);
    if op == 1 {
      EncFour(zero, mode, size, time);
      assert ResponseFields(op, p) == [zero, mode, size, time];
      assert w + x + y + z == w + (x + y + z);
    } else {
      EncFive(zero, mode, size, F64(p.handle), time);
      assert ResponseFields(op, p) == [zero, mode, size, F64(p.handle), time];
      assert w + x + y + BE64(p.handle) + z == w + (x + y + BE64(p.handle) + z);
    }
  }

  /** A listing arrives with its names and a type for each: its own, or 0 where it had none. */
  lemma DeliveredListing(p: Response)
    requires p.err == 0
    ensures var r := Delivered(OP_READDIR, p);
            && r.err == 0 && r.names == p.names && |r.types| == |p.names|
            && forall i :: 0 <= i < |p.names| ==> r.types[i] == if i < |p.types| then p.types[i] else 0
  {
  }

  lemma {:induction false} EntryFieldsShape(names: seq<bytes>, types: bytes)
    ensures |EntryFields(names, types)| == 2 * |names|
    ensures forall i :: 0 <= i < |names| ==>
              && EntryFields(names, types)[2 * i] == FBlob(names[i])
              && EntryFields(names, types)[2 * i + 1] == F8(TypeAt(types, i))
    ensures KindsOf(EntryFields(names, types)) == EntryKinds(|names|)
  {
    if names != [] {
      var init := names[..|names| - 1];
      EntryFieldsShape(init, types);
    }
  }

  lemma SignedResponse(p: Response)
    ensures I32Of(U32Of(p.err)) == p.err && I64Of(U64Of(p.size)) == p.size && I64Of(U64Of(p.mtime)) == p.mtime
    ensures U32Of(0) == 0 && I32Of(0) == 0
  {
  }

  /** The errno is read alike, however the body goes on. */
  lemma HeadOf(fs: seq<Field>, extra: bytes)
    requires AllFit(fs) && fs != [] && fs[0].F32?
    ensures ParseFields([K32], EncFields(fs) + extra).Some?
    ensures ParseFields([K32], EncFields(fs) + extra).value.fields == [fs[0]]
  {
    hide ParseField, EncField, EncFields, ParseFields;
    FieldsRoundTrip(fs, extra);
    ParsePrefix(KindsOf(fs), 1, EncFields(fs) + extra);
    assert KindsOf(fs)[..1] == [K32];
    assert fs[..1] == [fs[0]];
  }

  lemma StatRoundTrip(op: byte, p: Response, extra: bytes)
    requires HasMtime(op) && p.err == 0
    ensures AllFit(ResponseFields(op, p))
    ensures DecodeResponse(op, EncFields(ResponseFields(op, p)) + extra) == Some(Delivered(op, p))
  {
    hide ParseField, ParseFields, EncFields, FromBE64, BE64, I64Of, U64Of, I32Of;
    var fs, last := StatFields(op, p), F64(U64Of(p.mtime));
    var body := EncFields(fs + [last]) + extra;
    HeadOf(fs + [last], extra);
    EncFieldsSnoc(fs, last);
    assert body == EncFields(fs) + (EncField(last) + extra);
    FieldsRoundTrip(fs, EncField(last) + extra);
    assert KindsOf(fs) == StatKinds(op);
    BE64RoundTrip(U64Of(p.mtime), extra);
    SignedResponse(p);
  }

  /** An old peer's response, which ends before the modification time, decodes with time 0; so does one cut off
      inside it. */
  lemma StatWithoutMtime(op: byte, p: Response, part: bytes)
    requires HasMtime(op) && p.err == 0 && |part| < 8
    ensures DecodeResponse(op, EncFields(StatFields(op, p)) + part) == Some(Delivered(op, p).(mtime := 0))
  {
    hide ParseField, ParseFields, EncFields, FromBE64, BE64, I64Of, U64Of, I32Of;
    var fs := StatFields(op, p);
    HeadOf(fs, part);
    FieldsRoundTrip(fs, part);
    assert KindsOf(fs) == StatKinds(op);
    SignedResponse(p);
  }

  lemma ReaddirRoundTrip(p: Response, extra: bytes)
    requires p.err == 0 && AllFit(ResponseFields(OP_READDIR, p)) && |p.names| < TWO32
    ensures DecodeResponse(OP_READDIR, EncFields(ResponseFields(OP_READDIR, p)) + extra)
         == Some(Delivered(OP_READDIR, p))
  {
    hide ParseField, ParseFields, EncFields, EncField, I64Of, U64Of, I32Of, EntryFields, EntryKinds;
    var fs := ResponseFields(OP_READDIR, p);
    var body, n := EncFields(fs) + extra, |p.names|;
    HeadOf(fs, extra);
    FieldsRoundTrip(fs, extra);
    EntryFieldsShape(p.names, p.types);
    assert KindsOf(fs) == [K32, K32] + EntryKinds(n);
    ParsePrefix(KindsOf(fs), 2, body);
    assert KindsOf(fs)[..2] == [K32, K32] && fs[..2] == [F32(0), F32(n)];
    SignedResponse(p);
    EntriesOfFields(p, fs);
  }

  /** Where the `i`-th entry of a listing stands among its fields. */
  lemma EntryOfFields(p: Response, fs: seq<Field>, i: nat)
    requires fs == [F32(0), F32(U32Of(|p.names|))] + EntryFields(p.names, p.types) && i < |p.names|
    ensures |fs| == 2 + 2 * |p.names|
    ensures fs[2 + 2 * i] == FBlob(p.names[i]) && fs[3 + 2 * i] == F8(TypeAt(p.types, i))
  {
    hide EntryFields, U32Of, TypeAt;
    EntryFieldsShape(p.names, p.types);
    var es := EntryFields(p.names, p.types);
    assert es[2 * i] == FBlob(p.names[i]) && es[2 * i + 1] == F8(TypeAt(p.types, i));
    assert fs[2 + 2 * i] == es[2 * i] && fs[2 + (2 * i + 1)] == es[2 * i + 1];
  }

  lemma EntriesOfFields(p: Response, fs: seq<Field>)
    requires |p.names| < TWO32 && fs == [F32(0), F32(U32Of(|p.names|))] + EntryFields(p.names, p.types)
    ensures EntriesIn(fs, |p.names|)
    ensures NamesIn(fs, |p.names|) == p.names
    ensures TypesIn(fs, |p.names|) == seq(|p.names|, i requires 0 <= i < |p.names| => TypeAt(p.types, i))
  {
    hide EntryFields, U32Of, TypeAt, EntriesIn, NamesIn, TypesIn;
    var n := |p.names|;
    assert EntriesIn(fs, n) by {
      AllEntries(p, fs);
    }
    forall i | 0 <= i < n
      ensures NamesIn(fs, n)[i] == p.names[i]
      ensures TypesIn(fs, n)[i] == TypeAt(p.types, i)
    {
      EntryOfFields(p, fs, i);
      EntryIn(fs, n, i);
    }
    assert NamesIn(fs, n) == p.names;
  }

  lemma AllEntries(p: Response, fs: seq<Field>)
    requires fs == [F32(0), F32(U32Of(|p.names|))] + EntryFields(p.names, p.types)
    ensures EntriesIn(fs, |p.names|)
  {
    hide EntryFields, U32Of, TypeAt;
    EntryFieldsShape(p.names, p.types);
    forall i | 0 <= i < |p.names|
      ensures fs[2 + 2 * i].FBlob? && fs[3 + 2 * i].F8?
    {
      EntryOfFields(p, fs, i);
    }
  }

  lemma EntryIn(fs: seq<Field>, n: nat, i: nat)
    requires EntriesIn(fs, n) && i < n
    ensures fs[2 + 2 * i].FBlob? && fs[3 + 2 * i].F8?
    ensures NamesIn(fs, n)[i] == fs[2 + 2 * i].b && TypesIn(fs, n)[i] == fs[3 + 2 * i].v
  {
  }

  /** An encoded response, decoded for the op it answers, gives back its op's fields. */
  lemma ResponseRoundTrip(op: byte, p: Response, extra: bytes)
    requires AllFit(ResponseFields(op, p)) && |p.names| < TWO32
    ensures DecodeResponse(op, EncFields(ResponseFields(op, p)) + extra) == Some(Delivered(op, p))
  {
    if p.err == 0 && HasMtime(op) {
      StatRoundTrip(op, p, extra);
    } else if p.err == 0 && op == OP_READDIR {
      ReaddirRoundTrip(p, extra);
    } else {
      hide ParseField, ParseFields, EncFields, EncField, I64Of, U64Of, U32Of, I32Of;
      var fs := ResponseFields(op, p);
      HeadOf(fs, extra);
      FieldsRoundTrip(fs, extra);
      SignedResponse(p);
      assert op == OP_PREAD && p.err == 0 ==> KindsOf(fs) == [K32, KBlob];
      assert op == OP_PWRITE && p.err == 0 ==> KindsOf(fs) == [K32, K64];
      assert op == OP_SERVERINFO && p.err == 0 ==> KindsOf(fs) == [K32, KBlob, KBlob];
    }
  }

  /** In a truncated body, the leading fields are either all there, or the read of them fails. */
  lemma LeadingFields(a: seq<Field>, b: seq<Field>, cut: bytes)
    requires AllFit(a) && cut < EncFields(a + b)
    ensures ParseFields(KindsOf(a), cut).Some? ==> ParseFields(KindsOf(a), cut).value.fields == a
    ensures b == [] ==> ParseFields(KindsOf(a), cut) == None
  {
    hide EncField, ParseField, ParseFields;
    EncFieldsConcat(a, b);
    StrictPrefixOfConcat(cut, EncFields(a), EncFields(b));
    if cut < EncFields(a) {
      FieldsTruncated(a, cut);
    } else {
      FieldsRoundTrip(a, cut[|EncFields(a)|..]);
    }
  }

  lemma NoHead(fs: seq<Field>, cut: bytes)
    requires fs != [] && fs[0].F32? && cut < EncFields(fs)
    ensures ParseFields([K32], cut).Some? ==> ParseFields([K32], cut).value.fields == [fs[0]]
    ensures |fs| == 1 ==> ParseFields([K32], cut) == None
  {
    hide EncFields, ParseFields;
    assert [fs[0]] + fs[1..] == fs;
    LeadingFields([fs[0]], fs[1..], cut);
    assert KindsOf([fs[0]]) == [K32];
  }

  lemma CountInPrefix(cut: bytes, p: Response)
    requires p.err == 0 && |p.names| < TWO32 && cut < EncFields(ResponseFields(OP_READDIR, p))
    requires ParseFields([K32, K32], cut).Some?
    ensures ParseFields([K32, K32], cut).value.fields[1] == F32(|p.names|)
  {
    hide EncFields, ParseFields, EntryFields;
    var two: seq<Field> := [F32(0), F32(|p.names|)];
    LeadingFields(two, EntryFields(p.names, p.types), cut);
    assert KindsOf(two) == [K32, K32];
  }

  lemma ReaddirTruncated(p: Response, cut: bytes)
    requires p.err == 0 && |p.names| < TWO32 && cut < EncFields(ResponseFields(OP_READDIR, p))
    requires AllFit(ResponseFields(OP_READDIR, p))
    ensures DecodeResponse(OP_READDIR, cut) == None
  {
    hide EncField, ParseField, ParseFields, EncFields, EntryFields, EntryKinds, I32Of;
    var fs := ResponseFields(OP_READDIR, p);
    NoHead(fs, cut);
    SignedResponse(p);
    FieldsTruncated(fs, cut);
    EntryFieldsShape(p.names, p.types);
    assert KindsOf(fs) == [K32, K32] + EntryKinds(|p.names|);
    if ParseFields([K32, K32], cut).Some? {
      CountInPrefix(cut, p);
    }
  }

  /** No strict prefix of an encoded response decodes, unless the cut falls inside the final modification time of
      STAT, OPEN or CREATE: then it decodes to the same response with time 0. */
  lemma ResponseTruncated(op: byte, p: Response, cut: bytes)
    requires AllFit(ResponseFields(op, p)) && |p.names| < TWO32
    requires cut < EncFields(ResponseFields(op, p))
    ensures DecodeResponse(op, cut)
         == if p.err == 0 && HasMtime(op) && |EncFields(ResponseFields(op, p))| - 8 <= |cut|
            then Some(Delivered(op, p).(mtime := 0)) else None
  {
    if p.err == 0 && HasMtime(op) {
      StatTruncated(op, p, cut);
    } else if p.err == 0 && op == OP_READDIR {
      ReaddirTruncated(p, cut);
    } else {
      hide ParseField, ParseFields, EncFields, EncField, I64Of, U64Of, U32Of, I32Of;
      var fs := ResponseFields(op, p);
      NoHead(fs, cut);
      SignedResponse(p);
      FieldsTruncated(fs, cut);
      assert op == OP_PREAD && p.err == 0 ==> KindsOf(fs) == [K32, KBlob];
      assert op == OP_PWRITE && p.err == 0 ==> KindsOf(fs) == [K32, K64];
      assert op == OP_SERVERINFO && p.err == 0 ==> KindsOf(fs) == [K32, KBlob, KBlob];
    }
  }

  lemma StatTruncated(op: byte, p: Response, cut: bytes)
    requires p.err == 0 && HasMtime(op) && cut < EncFields(ResponseFields(op, p))
    ensures DecodeResponse(op, cut)
         == if |EncFields(ResponseFields(op, p))| - 8 <= |cut| then Some(Delivered(op, p).(mtime := 0)) else None
  {
    hide ParseField, ParseFields, EncFields, BE64, FromBE64, I64Of, U64Of, I32Of;
    var fs, last := StatFields(op, p), F64(U64Of(p.mtime));
    EncFieldsSnoc(fs, last);
    StrictPrefixOfConcat(cut, EncFields(fs), EncField(last));
    if cut < EncFields(fs) {
      NoHead(fs, cut);
      SignedResponse(p);
      FieldsTruncated(fs, cut);
      assert KindsOf(fs) == StatKinds(op);
    } else {
      StatWithoutMtime(op, p, cut[|EncFields(fs)|..]);
    }
  }

  // ---- writing and reading -----------------------------------------------------------------------------

  predicate Sendable(op: byte, p: Response) { |EncFields(ResponseFields(op, p))| <= MAX_FRAME }

  function ResponseFrame(op: byte, p: Response): bytes { Frame(EncFields(ResponseFields(op, p))) }

  method WriteResponse(w: Writer, op: byte, p: Response) returns (ok: bool)
    modifies w
    ensures ok <==> Sendable(op, p)
    ensures w.out == if ok then old(w.out) + ResponseFrame(op, p) else old(w.out)
  {
    hide EncFields, Frame, EntryFields;
    var e := new Builder();
    e.U32(U32Of(p.err));
    if p.err == 0 {
      if HasMtime(op) {
        e.U32(p.mode);
        e.I64(p.size);
        if op != OP_STAT {
          e.U64(p.handle);
        }
        e.I64(p.mtime);
      } else if op == OP_PREAD {
        e.Blob(p.data);
      } else if op == OP_PWRITE {
        e.I64(p.size);
      } else if op == OP_READDIR {
        WriteEntries(e, p);
      } else if op == OP_SERVERINFO {
        e.Blob(p.os);
        e.Blob(p.arch);
      }
    }
    assert e.fields == ResponseFields(op, p);
    ok := WriteFrame(w, e.b);
  }

  method WriteEntries(e: Builder, p: Response)
    requires e.Valid()
    modifies e
    ensures e.Valid() && e.fields == old(e.fields) + [F32(U32Of(|p.names|))] + EntryFields(p.names, p.types)
  {
    hide EncFields, U32Of;
    e.U32(U32Of(|p.names|));
    assert p.names[..0] == [];
    for i := 0 to |p.names|
      invariant e.Valid()
      invariant e.fields == old(e.fields) + [F32(U32Of(|p.names|))] + EntryFields(p.names[..i], p.types)
    {
      EntryFieldsGrow(p.names, p.types, i);
      e.Blob(p.names[i]);
      e.U8(TypeAt(p.types, i));
    }
    assert p.names[..|p.names|] == p.names;
  }

  lemma EntryFieldsGrow(names: seq<bytes>, types: bytes, i: nat)
    requires i < |names|
    ensures EntryFields(names[..i + 1], types)
         == EntryFields(names[..i], types) + [FBlob(names[i]), F8(TypeAt(types, i))]
  {
    assert names[..i + 1][..i] == names[..i];
  }

  method ReadResponseBody(op: byte, body: bytes) returns (r: Option<Response>)
    ensures r == DecodeResponse(op, body)
  {
    hide ParseFields, ParseField, FromBE64, FromBE32, I64Of, I32Of, EntryKinds;
    var p := new Parser(body);
    var word := p.U32();
    assert [] + [K32] == [K32] && [] + [F32(word)] == [F32(word)];
    if p.err {
      return None;
    }
    var resp := Reply(I32Of(word));
    if resp.err != 0 {
      return Some(resp);
    }
    if HasMtime(op) {
      resp := ReadStatFields(p, op);
    } else if op == OP_READDIR {
      resp := ReadEntries(p);
    } else if op == OP_PREAD {
      var data := p.Blob();
      assert p.kinds == [K32, KBlob];
      resp := resp.(data := data);
    } else if op == OP_PWRITE {
      var size := p.U64();
      assert p.kinds == [K32, K64];
      resp := resp.(size := I64Of(size));
    } else if op == OP_SERVERINFO {
      var os := p.Blob();
      var arch := p.Blob();
      assert p.kinds == [K32, KBlob, KBlob];
      resp := resp.(os := os, arch := arch);
    }
    if p.err {
      return None;
    }
    return Some(resp);
  }

  method ReadStatFields(p: Parser, op: byte) returns (resp: Response)
    requires p.Valid() && !p.err && p.kinds == [K32] && |p.done| == 1 && p.done[0].F32? && I32Of(p.done[0].n) == 0
    requires HasMtime(op) && ParseFields([K32], p.body) == Some(ParsedAll(p.done, p.b))
    modifies p
    ensures DecodeResponse(op, p.body) == if p.err then None else Some(resp)
  {
    hide ParseFields, I64Of, I32Of, FromBE64, DecodeResponse;
    ghost var head := p.done;
    var mode := p.U32();
    var size := p.U64();
    resp := Reply(0).(mode := mode, size := I64Of(size));
    if op != OP_STAT {
      var handle := p.U64();
      resp := resp.(handle := handle);
    }
    assert p.kinds == StatKinds(op);
    if p.err {
      NoStat(op, p.body);
      return;
    }
    ghost var rest, fs := p.b, p.done;
    DecodeStat(op, p.body, fs, rest);
    assert resp == StatFrom(op, fs, 0);
    if p.Left() >= 8 {
      EightBytes(rest);
      ParseFieldsSnoc(StatKinds(op), K64, p.body);
      var mtime := p.U64();
      resp := resp.(mtime := I64Of(mtime));
      assert p.done == fs + [F64(FromBE64(rest))];
      assert mtime == p.done[|fs|].q;
    }
  }

  /** The response whose mandatory fields are `fs`. */
  function StatFrom(op: byte, fs: seq<Field>, mtime: int64): Response
    requires KindsOf(fs) == StatKinds(op)
  {
    Reply(0).(mode := WordAt(fs, 1), size := I64Of(QuadAt(fs, 2)),
              handle := if op == OP_STAT then 0 else QuadAt(fs, 3), mtime := mtime)
  }

  lemma DecodeStat(op: byte, body: bytes, fs: seq<Field>, rest: bytes)
    requires HasMtime(op) && ParseFields([K32], body).Some?
    requires I32Of(ParseFields([K32], body).value.fields[0].n) == 0
    requires ParseFields(StatKinds(op), body) == Some(ParsedAll(fs, rest))
    ensures DecodeResponse(op, body)
         == Some(StatFrom(op, fs, if |rest| >= 8 then I64Of(FromBE64(rest)) else 0))
  {
    hide ParseFields, I64Of, I32Of, FromBE64;
  }

  lemma NoStat(op: byte, body: bytes)
    requires HasMtime(op) && ParseFields([K32], body).Some?
    requires I32Of(ParseFields([K32], body).value.fields[0].n) == 0
    requires ParseFields(StatKinds(op), body) == None
    ensures DecodeResponse(op, body) == None
  {
    hide ParseFields, I64Of, I32Of, FromBE64;
  }

  lemma EightBytes(b: bytes)
    requires |b| >= 8
    ensures ParseField(K64, b) == Some(Parsed(F64(FromBE64(b)), b[8..]))
  {
  }

  method ReadEntries(p: Parser) returns (resp: Response)
    requires p.Valid() && !p.err && p.kinds == [K32] && |p.done| == 1 && p.done[0].F32? && I32Of(p.done[0].n) == 0
    requires ParseFields([K32], p.body) == Some(ParsedAll(p.done, p.b))
    modifies p
    ensures DecodeResponse(OP_READDIR, p.body) == if p.err then None else Some(resp)
  {
    hide ParseFields, ParseField, I32Of, DecodeResponse, Gathered, EntryKinds;
    var n := p.U32();
    assert p.kinds == [K32, K32];
    var names: seq<bytes>, types: bytes := [], [];
    NothingGathered(p.done);
    if p.err {
      NoCount(p.body);
      return Reply(0);
    }
    var i := 0;
    assert p.kinds == [K32, K32] + EntryKinds(0) by {
      NoEntryKinds();
    }
    while i < n && !p.err
      invariant p.Valid() && 0 <= i <= n
      invariant p.kinds == [K32, K32] + EntryKinds(i)
      invariant !p.err ==> Gathered(p.done, i, names, types)
    {
      ghost var fs := p.done;
      var name := p.Blob();
      var t := p.U8();
      OneMoreEntry(i);
      if !p.err {
        assert p.done == fs + [FBlob(name), F8(t)];
        EntriesGrow(fs, i, names, types, name, t);
      }
      names, types, i := names + [name], types + [t], i + 1;
    }
    resp := Reply(0).(names := names, types := types);
    if p.err {
      LongerFails(i, n, p.body);
      DecodeEntriesFails(p.body, n);
    } else {
      DecodeEntries(p.body, n, p.done, p.b, names, types);
    }
  }

  /** Reading `n` entries has put these names and types into `fs`. */
  predicate Gathered(fs: seq<Field>, n: nat, names: seq<bytes>, types: bytes) {
    EntriesIn(fs, n) && names == NamesIn(fs, n) && types == TypesIn(fs, n)
  }

  lemma NothingGathered(fs: seq<Field>)
    ensures |fs| == 2 ==> Gathered(fs, 0, [], [])
  {
  }

  lemma NoEntryKinds()
    ensures [K32, K32] + EntryKinds(0) == [K32, K32]
  {
  }

  lemma OneMoreEntry(i: nat)
    ensures [K32, K32] + EntryKinds(i + 1) == [K32, K32] + EntryKinds(i) + [KBlob] + [K8]
  {
  }

  lemma EntriesGrow(fs: seq<Field>, i: nat, names: seq<bytes>, types: bytes, name: bytes, t: byte)
    requires Gathered(fs, i, names, types)
    ensures Gathered(fs + [FBlob(name), F8(t)], i + 1, names + [name], types + [t])
  {
  }

  /** The errno of `body` reads as zero and its entry count as `n`. */
  predicate Counted(body: bytes, n: uint32) {
    && ParseFields([K32], body).Some? && I32Of(ParseFields([K32], body).value.fields[0].n) == 0
    && ParseFields([K32, K32], body).Some? && ParseFields([K32, K32], body).value.fields[1] == F32(n)
  }

  lemma NoCount(body: bytes)
    requires ParseFields([K32], body).Some? && I32Of(ParseFields([K32], body).value.fields[0].n) == 0
    requires ParseFields([K32, K32], body) == None
    ensures DecodeResponse(OP_READDIR, body) == None
  {
    hide ParseFields, I32Of;
  }

  lemma DecodeEntries(body: bytes, n: uint32, fs: seq<Field>, rest: bytes, names: seq<bytes>, types: bytes)
    requires Counted(body, n) && Gathered(fs, n, names, types)
    requires ParseFields([K32, K32] + EntryKinds(n), body) == Some(ParsedAll(fs, rest))
    ensures DecodeResponse(OP_READDIR, body) == Some(Reply(0).(names := names, types := types))
  {
    hide ParseFields, I32Of, EntryKinds;
  }

  lemma DecodeEntriesFails(body: bytes, n: uint32)
    requires Counted(body, n) && ParseFields([K32, K32] + EntryKinds(n), body) == None
    ensures DecodeResponse(OP_READDIR, body) == None
  {
    hide ParseFields, I32Of, EntryKinds;
  }

  lemma {:induction false} EntryKindsPrefix(i: nat, n: nat)
    requires i <= n
    ensures EntryKinds(i) <= EntryKinds(n)
  {
    if i < n {
      EntryKindsPrefix(i, n - 1);
    }
  }

  /** Once reading some entries fails, reading more of them would fail too. */
  lemma LongerFails(i: nat, n: nat, body: bytes)
    requires i <= n && ParseFields([K32, K32] + EntryKinds(i), body) == None
    ensures ParseFields([K32, K32] + EntryKinds(n), body) == None
  {
    hide ParseFields, ParseField, EntryKinds;
    EntryKindsPrefix(i, n);
    var ks := [K32, K32] + EntryKinds(n);
    var k := 2 + |EntryKinds(i)|;
    assert ks[..k] == [K32, K32] + EntryKinds(i);
    if ParseFields(ks, body).Some? {
      ParsePrefix(ks, k, body);
    }
  }

  /** One framed response off a stream, decoded for `op`. */
  method ReadResponse(r: Reader, op: byte) returns (p: Option<Response>)
    modifies r
    ensures var f := ParseFrame(old(r.rest));
            if f.Body? then p == DecodeResponse(op, f.body) && r.rest == f.rest else p == None
  {
    hide ParseFrame, DecodeResponse;
    var f := ReadFrame(r);
    if !f.Body? {
      return None;
    }
    p := ReadResponseBody(op, f.body);
  }

  lemma {:induction false} EntriesAreLong(names: seq<bytes>, types: bytes)
    ensures |EncFields(EntryFields(names, types))| >= 5 * |names|
  {
    hide EncFields, U32Of;
    if names != [] {
      var k := |names| - 1;
      EntriesAreLong(names[..k], types);
      var last: seq<Field> := [FBlob(names[k]), F8(TypeAt(types, k))];
      EncFieldsConcat(EntryFields(names[..k], types), last);
      EncFieldsSnoc([FBlob(names[k])], F8(TypeAt(types, k)));
      EncFieldsSnoc([], FBlob(names[k]));
      assert [FBlob(names[k])] + [F8(TypeAt(types, k))] == last && [] + [FBlob(names[k])] == [FBlob(names[k])];
    }
  }

  lemma SendableFits(op: byte, p: Response)
    requires Sendable(op, p)
    ensures AllFit(ResponseFields(op, p))
    ensures op == OP_READDIR && p.err == 0 ==> |p.names| < TWO32
  {
    hide EncFields, U32Of;
    BoundedBodyFits(ResponseFields(op, p));
    if op == OP_READDIR && p.err == 0 {
      EntriesAreLong(p.names, p.types);
      EncFieldsConcat([F32(0), F32(U32Of(|p.names|))], EntryFields(p.names, p.types));
    }
  }

  /** A framed response, whatever follows it on the stream, is read back for the op it answers. */
  lemma ResponseFrameRoundTrip(op: byte, p: Response, rest: bytes)
    requires Sendable(op, p)
    ensures ParseFrame(ResponseFrame(op, p) + rest) == Body(EncFields(ResponseFields(op, p)), rest)
    ensures DecodeResponse(op, EncFields(ResponseFields(op, p))) == Some(Delivered(op, p))
  {
    hide EncFields, ResponseFields, Delivered, DecodeResponse, ParseFrame, Frame;
    var body := EncFields(ResponseFields(op, p));
    FrameRoundTrip(body, rest);
    SendableFits(op, p);
    assert body + [] == body;
    if |p.names| < TWO32 {
      ResponseRoundTrip(op, p, []);
    } else {
      NamesDoNotMatter(op, p);
      assert AllFit(ResponseFields(op, p.(names := [])));
      ResponseRoundTrip(op, p.(names := []), []);
    }
  }

  lemma NamesDoNotMatter(op: byte, p: Response)
    requires op != OP_READDIR || p.err != 0
    ensures ResponseFields(op, p.(names := [])) == ResponseFields(op, p)
    ensures Delivered(op, p.(names := [])) == Delivered(op, p)
  {
  }

  /** What a caller reads off a stream of responses, given the ops it asked for, in order. */
  function ReadResponses(ops: seq<byte>, b: bytes): Option<seq<Response>>
    decreases |ops|
  {
    if ops == [] then if b == [] then Some([]) else None
    else
      match ParseFrame(b)
      case Body(body, rest) =>
        var p :- DecodeResponse(ops[0], body);
        var more :- ReadResponses(ops[1..], rest);
        Some([p] + more)
      case _ => None
  }

  function ResponseStream(ops: seq<byte>, ps: seq<Response>): bytes
    requires |ops| == |ps|
  {
    if ops == [] then [] else ResponseFrame(ops[0], ps[0]) + ResponseStream(ops[1..], ps[1..])
  }

  function AllDelivered(ops: seq<byte>, ps: seq<Response>): seq<Response>
    requires |ops| == |ps|
  {
    if ops == [] then [] else [Delivered(ops[0], ps[0])] + AllDelivered(ops[1..], ps[1..])
  }

  /** A stream of framed responses decodes to exactly those responses, with nothing left over. */
  lemma {:induction false} ResponseStreamRoundTrip(ops: seq<byte>, ps: seq<Response>)
    requires |ops| == |ps|
    requires forall i :: 0 <= i < |ops| ==> Sendable(ops[i], ps[i])
    ensures ReadResponses(ops, ResponseStream(ops, ps)) == Some(AllDelivered(ops, ps))
  {
    hide ParseFrame, DecodeResponse, Delivered, ResponseFrame, Sendable;
    if ops != [] {
      ResponseFrameRoundTrip(ops[0], ps[0], ResponseStream(ops[1..], ps[1..]));
      ResponseStreamRoundTrip(ops[1..], ps[1..]);
    }
  }
}
