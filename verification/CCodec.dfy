/** The macOS library's own encoder and cursor for the IO-RPC messages it uses (native/macos/rcc_interpose.c), against
    the wire format. */
module CCodec {
  import opened Bytes
  import opened Fields
  import opened Protocol
  import opened Responses

  /** A growable buffer: `len` of the `b.Length` bytes allocated are in use. */
  class CBuf {
    var b: array<byte>
    var len: nat
    ghost var fields: seq<Field>

    ghost predicate Valid()
      reads this, b
    {
      len <= b.Length && b[..len] == EncFields(fields)
    }

    constructor ()
      ensures Valid() && fresh(b) && fields == []
    {
      b := new byte[0];
      len, fields := 0, [];
    }

    /** Appends bytes, doubling the allocation from 64 until they fit. */
    method Put(p: bytes)
      requires len <= b.Length
      modifies this`b, this`len, b
      ensures len == old(len) + |p| <= b.Length && (b == old(b) || fresh(b))
      ensures b[..len] == old(b[..len]) + p
    {
      if len + |p| > b.Length {
        var cap := b.Length;
        while len + |p| > cap
          invariant cap >= b.Length
          decreases len + |p| - cap
        {
          cap := if cap > 0 then cap * 2 else 64;
        }
        var grown := new byte[cap];
        CopyInto(grown, 0, b[..len]);
        assert grown[..len] == grown[0..len];
        b := grown;
      }
      CopyInto(b, len, p);
      assert b[..len + |p|] == b[..len] + b[len..len + |p|];
      len := len + |p|;
    }

    method U8(v: byte)
      requires Valid()
      modifies this, b
      ensures Valid() && (b == old(b) || fresh(b)) && fields == old(fields) + [F8(v)]
    {
      hide EncFields;
      EncFieldsSnoc(fields, F8(v));
      Put([v]);
      fields := fields + [F8(v)];
    }

    method U32(n: uint32)
      requires Valid()
      modifies this, b
      ensures Valid() && (b == old(b) || fresh(b)) && fields == old(fields) + [F32(n)]
    {
      hide EncFields, BE32;
      EncFieldsSnoc(fields, F32(n));
      Put(BE32(n));
      fields := fields + [F32(n)];
    }

    method U64(q: uint64)
      requires Valid()
      modifies this, b
      ensures Valid() && (b == old(b) || fresh(b)) && fields == old(fields) + [F64(q)]
    {
      hide EncFields, BE64;
      EncFieldsSnoc(fields, F64(q));
      Put(BE64(q));
      fields := fields + [F64(q)];
    }

    /** A length in 32 bits and the bytes. */
    method Str(p: bytes)
      requires Valid()
      modifies this, b
      ensures Valid() && (b == old(b) || fresh(b)) && fields == old(fields) + [FBlob(p)]
    {
      hide EncFields, BE32, U32Of;
      EncFieldsSnoc(fields, FBlob(p));
      Put(BE32(U32Of(|p|)));
      Put(p);
      fields := fields + [FBlob(p)];
    }
  }

  // ---- requests ----------------------------------------------------------------------------------------

  function StatRequest(path: bytes): Request { Blank(OP_STAT).(path := path) }

  function ReaddirRequest(path: bytes): Request { Blank(OP_READDIR).(path := path) }

  function OpenRequest(flags: uint32, path: bytes): Request { Blank(OP_OPEN).(flags := flags, path := path) }

  function PreadRequest(handle: uint64, off: int64, len: uint32): Request {
    Blank(OP_PREAD).(handle := handle, off := off, len := len)
  }

  function CloseRequest(handle: uint64): Request { Blank(OP_CLOSE).(handle := handle) }

  function WriteFileRequest(path: bytes, data: bytes): Request { Blank(OP_WRITEFILE).(path := path, data := data) }

  /** A request about a path alone: STAT or READDIR. */
  method PathBody(op: byte, path: bytes) returns (body: bytes)
    requires op == OP_STAT || op == OP_READDIR
    ensures EncodeRequest(if op == OP_STAT then StatRequest(path) else ReaddirRequest(path)) == Some(body)
  {
    hide EncFields;
    var s := new CBuf();
    s.U8(op);
    s.Str(path);
    assert s.fields == RequestFields(if op == OP_STAT then StatRequest(path) else ReaddirRequest(path));
    body := s.b[..s.len];
  }

  method OpenBody(flags: uint32, path: bytes) returns (body: bytes)
    ensures EncodeRequest(OpenRequest(flags, path)) == Some(body)
  {
    hide EncFields;
    var s := new CBuf();
    s.U8(OP_OPEN);
    s.U32(flags);
    s.Str(path);
    assert s.fields == RequestFields(OpenRequest(flags, path));
    body := s.b[..s.len];
  }

  method PreadBody(handle: uint64, off: int64, len: uint32) returns (body: bytes)
    ensures EncodeRequest(PreadRequest(handle, off, len)) == Some(body)
  {
    hide EncFields, U64Of;
    var s := new CBuf();
    s.U8(OP_PREAD);
    s.U64(handle);
    s.U64(U64Of(off));
    s.U32(len);
    assert s.fields == RequestFields(PreadRequest(handle, off, len));
    body := s.b[..s.len];
  }

  method CloseBody(handle: uint64) returns (body: bytes)
    ensures EncodeRequest(CloseRequest(handle)) == Some(body)
  {
    hide EncFields;
    var s := new CBuf();
    s.U8(OP_CLOSE);
    s.U64(handle);
    assert s.fields == RequestFields(CloseRequest(handle));
    body := s.b[..s.len];
  }

  method WriteFileBody(path: bytes, wbuf: array<byte>, wlen: nat) returns (body: bytes)
    requires wlen <= wbuf.Length
    ensures EncodeRequest(WriteFileRequest(path, wbuf[..wlen])) == Some(body)
  {
    hide EncFields;
    var s := new CBuf();
    s.U8(OP_WRITEFILE);
    s.Str(path);
    s.Str(wbuf[..wlen]);
    assert s.fields == RequestFields(WriteFileRequest(path, wbuf[..wlen]));
    body := s.b[..s.len];
  }

  /** What the other side decodes of these bodies: the op, and exactly the arguments given. */
  lemma BodiesDecode(path: bytes, data: bytes, flags: uint32, handle: uint64, off: int64, len: uint32)
    requires |path| < TWO32 && |data| < TWO32
    ensures DecodeRequest(EncodeRequest(StatRequest(path)).value) == Some(Blank(OP_STAT).(path := path))
    ensures DecodeRequest(EncodeRequest(ReaddirRequest(path)).value) == Some(Blank(OP_READDIR).(path := path))
    ensures DecodeRequest(EncodeRequest(OpenRequest(flags, path)).value)
         == Some(Blank(OP_OPEN).(flags := flags, path := path))
    ensures DecodeRequest(EncodeRequest(PreadRequest(handle, off, len)).value)
         == Some(Blank(OP_PREAD).(handle := handle, off := off, len := len))
    ensures DecodeRequest(EncodeRequest(CloseRequest(handle)).value) == Some(Blank(OP_CLOSE).(handle := handle))
    ensures DecodeRequest(EncodeRequest(WriteFileRequest(path, data)).value)
         == Some(Blank(OP_WRITEFILE).(path := path, data := data))
  {
    hide DecodeRequest, EncFields, EncodeRequest;
    BodyDecodes(StatRequest(path));
    BodyDecodes(ReaddirRequest(path));
    BodyDecodes(OpenRequest(flags, path));
    BodyDecodes(PreadRequest(handle, off, len));
    BodyDecodes(CloseRequest(handle));
    BodyDecodes(WriteFileRequest(path, data));
  }

  lemma BodyDecodes(q: Request)
    requires KnownOp(q.op) && AllFit(RequestFields(q))
    ensures EncodeRequest(q).Some? && DecodeRequest(EncodeRequest(q).value) == Some(Relevant(q))
  {
    hide DecodeRequest, EncFields, RequestFields, Relevant;
    RequestRoundTrip(q, []);
    assert EncFields(RequestFields(q)) + [] == EncFields(RequestFields(q));
  }

  // ---- responses ---------------------------------------------------------------------------------------

  /** A cursor over a response body. Running off the end sets `err` and yields zero bits. */
  class Cursor {
    const b: bytes
    var off: nat
    var err: bool

    constructor (b: bytes)
      ensures this.b == b && off == 0 && !err
    {
      this.b := b;
      off, err := 0, false;
    }

    method U32() returns (v: uint32)
      modifies this
      ensures err == (old(err) || old(off) + 4 > |b|)
      ensures if err then v == 0 && off == old(off) else v == FromBE32(b[old(off)..]) && off == old(off) + 4
    {
      hide FromBE32;
      if err || off + 4 > |b| {
        err := true;
        return 0;
      }
      v := FromBE32(b[off..]);
      off := off + 4;
    }

    method U64() returns (v: uint64)
      modifies this
      ensures err == (old(err) || old(off) + 8 > |b|)
      ensures !err ==> v == FromBE64(b[old(off)..]) && off == old(off) + 8
    {
      hide FromBE32, FromBE64;
      var hi: int := U32();
      var lo: int := U32();
      if !err {
        TwoWords(b, old(off));
      }
      v := hi * 0x1_0000_0000 + lo;
    }
  }

  lemma TwoWords(b: bytes, off: nat)
    requires off + 8 <= |b|
    ensures FromBE64(b[off..]) == FromBE32(b[off..]) * 0x1_0000_0000 + FromBE32(b[off + 4..])
  {
    var s := b[off..];
    assert s[..4] == b[off..off + 4] && s[4..8] == b[off + 4..off + 8];
    SameWord(s[..4], s);
    SameWord(s[4..8], b[off + 4..]);
  }

  /** Where a cursor stands after the fields of `ks` have been read off `body`. */
  ghost predicate At(ks: seq<Kind>, body: bytes, off: nat) {
    off <= |body| && ParseFields(ks, body).Some? && ParseFields(ks, body).value.rest == body[off..]
  }

  lemma AtStart(body: bytes)
    ensures At([], body, 0)
  {
  }

  /** One more field in the layout is one more field at the cursor. */
  lemma NextField(ks: seq<Kind>, k: Kind, body: bytes, off: nat)
    requires At(ks, body, off) && ParseFields(ks + [k], body).Some?
    ensures ParseField(k, body[off..]).Some?
    ensures var f := ParseField(k, body[off..]).value;
            && ParseFields(ks + [k], body).value.fields == ParseFields(ks, body).value.fields + [f.field]
            && ParseFields(ks + [k], body).value.rest == f.rest
  {
    hide ParseField, ParseFields;
    ParseFieldsSnoc(ks, k, body);
  }

  lemma NextWord(ks: seq<Kind>, body: bytes, off: nat)
    requires At(ks, body, off) && ParseFields(ks + [K32], body).Some?
    ensures off + 4 <= |body| && At(ks + [K32], body, off + 4)
    ensures ParseFields(ks + [K32], body).value.fields
         == ParseFields(ks, body).value.fields + [F32(FromBE32(body[off..]))]
  {
    hide ParseFields, FromBE32;
    NextField(ks, K32, body, off);
    assert body[off..][4..] == body[off + 4..];
  }

  lemma NextQuad(ks: seq<Kind>, body: bytes, off: nat)
    requires At(ks, body, off) && ParseFields(ks + [K64], body).Some?
    ensures off + 8 <= |body| && At(ks + [K64], body, off + 8)
    ensures ParseFields(ks + [K64], body).value.fields
         == ParseFields(ks, body).value.fields + [F64(FromBE64(body[off..]))]
  {
    hide ParseFields, FromBE64;
    NextField(ks, K64, body, off);
    assert body[off..][8..] == body[off + 8..];
  }

  /** What every accepted body starts with. */
  lemma HeadOfAccepted(op: byte, body: bytes)
    requires DecodeResponse(op, body).Some?
    ensures |body| >= 4 && At([K32], body, 4)
    ensures DecodeResponse(op, body).value.err == I32Of(FromBE32(body))
    ensures ParseFields([K32], body).value.fields == [F32(FromBE32(body))]
  {
    hide ParseFields, FromBE32, I32Of, DecodeResponse;
    ErrnoFirst(op, body);
    AtStart(body);
    assert [] + [K32] == [K32] && body[0..] == body;
    NextWord([], body, 0);
    NoFields(body);
  }

  lemma ErrnoFirst(op: byte, body: bytes)
    requires DecodeResponse(op, body).Some?
    ensures ParseFields([K32], body).Some?
    ensures DecodeResponse(op, body).value.err == I32Of(ParseFields([K32], body).value.fields[0].n)
  {
    hide ParseFields, I32Of, I64Of, FromBE64, EntryKinds, NamesIn, TypesIn;
  }

  lemma NoFields(body: bytes)
    ensures ParseFields([], body).Some? && ParseFields([], body).value.fields == []
  {
  }

  /** rpc_stat: on every body the Go reader accepts, the same errno, mode and size; the time is never looked at. */
  method ReadStatReply(body: bytes) returns (err: int32, mode: uint32, size: int64)
    ensures match DecodeResponse(OP_STAT, body)
            case Some(p) => err == p.err && (err == 0 ==> mode == p.mode && size == p.size)
            case None => true
  {
    hide FromBE32, FromBE64, ParseFields, I32Of, I64Of, DecodeResponse;
    mode, size := 0, 0;
    var c := new Cursor(body);
    assert body[0..] == body;
    var word := c.U32();
    err := I32Of(word);
    if DecodeResponse(OP_STAT, body).Some? {
      HeadOfAccepted(OP_STAT, body);
    }
    if err != 0 {
      return;
    }
    mode := c.U32();
    var q := c.U64();
    size := I64Of(q);
    if DecodeResponse(OP_STAT, body).Some? {
      StatAt(OP_STAT, body);
    }
  }

  /** Where an accepted success of STAT or OPEN has its mode, size and handle. */
  lemma StatAt(op: byte, body: bytes)
    requires (op == OP_STAT || op == OP_OPEN) && DecodeResponse(op, body).Some?
    requires DecodeResponse(op, body).value.err == 0
    ensures |body| >= (if op == OP_STAT then 16 else 24)
    ensures DecodeResponse(op, body).value.mode == FromBE32(body[4..])
    ensures DecodeResponse(op, body).value.size == I64Of(FromBE64(body[8..]))
    ensures op == OP_OPEN ==> DecodeResponse(op, body).value.handle == FromBE64(body[16..])
  {
    hide FromBE32, FromBE64, ParseFields, I32Of, I64Of;
    HeadOfAccepted(op, body);
    var ks := StatKinds(op);
    assert ks[..1] == [K32] && ks[..2] == [K32] + [K32] && ks[..3] == [K32] + [K32] + [K64];
    ParsePrefix(ks, 2, body);
    ParsePrefix(ks, 3, body);
    NextWord([K32], body, 4);
    NextQuad([K32] + [K32], body, 8);
    if op == OP_OPEN {
      assert ks == [K32] + [K32] + [K64] + [K64];
      NextQuad([K32] + [K32] + [K64], body, 16);
    } else {
      assert ks == [K32] + [K32] + [K64];
    }
  }

  /** The OPEN exchange in rpc_open: the mode is read and dropped, the size and the handle are kept. */
  method ReadOpenReply(body: bytes) returns (err: int32, size: int64, handle: uint64)
    ensures match DecodeResponse(OP_OPEN, body)
            case Some(p) => err == p.err && (err == 0 ==> size == p.size && handle == p.handle)
            case None => true
  {
    hide FromBE32, FromBE64, ParseFields, I32Of, I64Of, DecodeResponse;
    size, handle := 0, 0;
    var c := new Cursor(body);
    assert body[0..] == body;
    var word := c.U32();
    err := I32Of(word);
    if DecodeResponse(OP_OPEN, body).Some? {
      HeadOfAccepted(OP_OPEN, body);
    }
    if err != 0 {
      return;
    }
    var mode := c.U32();
    var q := c.U64();
    handle := c.U64();
    size := I64Of(q);
    if DecodeResponse(OP_OPEN, body).Some? {
      StatAt(OP_OPEN, body);
    }
  }

  /** The PREAD exchange in rpc_pread: the data, cut to what was asked for. */
  method ReadPreadReply(body: bytes, want: nat) returns (err: int32, data: bytes)
    ensures match DecodeResponse(OP_PREAD, body)
            case Some(p) => err == p.err && (err == 0 ==> data == if |p.data| > want then p.data[..want] else p.data)
            case None => true
  {
    hide FromBE32, ParseFields, I32Of, DecodeResponse;
    data := [];
    var c := new Cursor(body);
    assert body[0..] == body;
    var word := c.U32();
    err := I32Of(word);
    if DecodeResponse(OP_PREAD, body).Some? {
      HeadOfAccepted(OP_PREAD, body);
    }
    if err != 0 {
      return;
    }
    var dl: nat := c.U32();
    if dl > want {
      dl := want;
    }
    if DecodeResponse(OP_PREAD, body).Some? {
      DataAt(body);
    }
    data := if c.off + dl <= |body| then body[c.off..c.off + dl] else [];
  }

  lemma DataAt(body: bytes)
    requires DecodeResponse(OP_PREAD, body).Some? && DecodeResponse(OP_PREAD, body).value.err == 0
    ensures |body| >= 8 && 8 + FromBE32(body[4..]) <= |body|
    ensures DecodeResponse(OP_PREAD, body).value.data == body[8..8 + FromBE32(body[4..])]
  {
    hide FromBE32, ParseFields, I32Of;
    HeadOfAccepted(OP_PREAD, body);
    assert [K32] + [KBlob] == [K32, KBlob];
    NextBlob([K32], body, 4);
  }

  lemma NextBlob(ks: seq<Kind>, body: bytes, off: nat)
    requires At(ks, body, off) && ParseFields(ks + [KBlob], body).Some?
    ensures off + 4 <= |body| && off + 4 + FromBE32(body[off..]) <= |body|
    ensures var end := off + 4 + FromBE32(body[off..]);
            && At(ks + [KBlob], body, end)
            && ParseFields(ks + [KBlob], body).value.fields
               == ParseFields(ks, body).value.fields + [FBlob(body[off + 4..end])]
  {
    hide ParseFields, FromBE32;
    NextField(ks, KBlob, body, off);
    var n := FromBE32(body[off..]);
    assert body[off..][4..4 + n] == body[off + 4..off + 4 + n];
    assert body[off..][4 + n..] == body[off + 4 + n..];
  }

  lemma NextByte(ks: seq<Kind>, body: bytes, off: nat)
    requires At(ks, body, off) && ParseFields(ks + [K8], body).Some?
    ensures off < |body| && At(ks + [K8], body, off + 1)
    ensures ParseFields(ks + [K8], body).value.fields == ParseFields(ks, body).value.fields + [F8(body[off])]
  {
    hide ParseFields;
    NextField(ks, K8, body, off);
    assert body[off..][1..] == body[off + 1..];
  }

  /** The READDIR exchange in rpc_open: on every body the Go reader accepts, the same names and types. */
  method ReadReaddirReply(body: bytes) returns (err: int32, names: seq<bytes>, types: bytes)
    ensures match DecodeResponse(OP_READDIR, body)
            case Some(p) => err == p.err && (err == 0 ==> names == p.names && types == p.types)
            case None => true
  {
    hide FromBE32, ParseFields, I32Of, DecodeResponse, Gathered, EntryKinds, At;
    names, types := [], [];
    var c := new Cursor(body);
    assert body[0..] == body;
    var word := c.U32();
    err := I32Of(word);
    ghost var good := DecodeResponse(OP_READDIR, body).Some?;
    if good {
      HeadOfAccepted(OP_READDIR, body);
    }
    if err != 0 {
      return;
    }
    var n := c.U32();
    if good {
      EntriesStart(body);
    }
    var k := 0;
    while k < n && !c.err
      invariant k <= n
      invariant good ==> !c.err && Listing(body, n, k, c.off, names, types)
    {
      if good {
        EntryAt(body, n, k, c.off, names, types);
      }
      var sl := c.U32();
      if c.off + sl > |body| {
        c.err := true;
        break;
      }
      names := names + [body[c.off..c.off + sl]];
      c.off := c.off + sl;
      types := types + [if c.off < |body| then body[c.off] else 0];
      c.off := c.off + 1;
      k := k + 1;
    }
    if good {
      EntriesEnd(body, n, c.off, names, types);
    }
  }

  /** `k` of the `n` entries of an accepted listing have been read, up to `off`. */
  ghost predicate Listing(body: bytes, n: uint32, k: nat, off: nat, names: seq<bytes>, types: bytes) {
    && Counted(body, n) && ParseFields([K32, K32] + EntryKinds(n), body).Some? && k <= n
    && At([K32, K32] + EntryKinds(k), body, off)
    && Gathered(ParseFields([K32, K32] + EntryKinds(k), body).value.fields, k, names, types)
  }

  lemma EntriesStart(body: bytes)
    requires DecodeResponse(OP_READDIR, body).Some? && DecodeResponse(OP_READDIR, body).value.err == 0
    ensures |body| >= 8 && Listing(body, FromBE32(body[4..]), 0, 8, [], [])
  {
    hide FromBE32, ParseFields, I32Of, Gathered;
    HeadOfAccepted(OP_READDIR, body);
    assert [K32] + [K32] == [K32, K32];
    NextWord([K32], body, 4);
    NoEntryKinds();
    NothingGathered(ParseFields([K32, K32], body).value.fields);
  }

  lemma EntryAt(body: bytes, n: uint32, k: nat, off: nat, names: seq<bytes>, types: bytes)
    requires Listing(body, n, k, off, names, types) && k < n
    ensures off + 4 <= |body|
    ensures var end := off + 4 + FromBE32(body[off..]);
            end < |body| && Listing(body, n, k + 1, end + 1, names + [body[off + 4..end]], types + [body[end]])
  {
    hide FromBE32, ParseFields, I32Of, Gathered, EntryKinds, At, Counted;
    var ks, all := [K32, K32] + EntryKinds(k), [K32, K32] + EntryKinds(n);
    OneMoreEntry(k);
    PrefixOfEntries(k + 1, n);
    AtIsParsed(ks, body, off);
    ParsePrefix(all, |ks| + 2, body);
    assert ks + [KBlob] + [K8] == all[..|ks| + 2];
    ParsePrefix(all, |ks| + 1, body);
    assert ks + [KBlob] == (ks + [KBlob] + [K8])[..|ks| + 1] == all[..|ks| + 1];
    NextBlob(ks, body, off);
    var end := off + 4 + FromBE32(body[off..]);
    NextByte(ks + [KBlob], body, end);
    var fs, name := ParseFields(ks, body).value.fields, body[off + 4..end];
    EntriesGrow(fs, k, names, types, name, body[end]);
    assert fs + [FBlob(name)] + [F8(body[end])] == fs + [FBlob(name), F8(body[end])];
  }

  lemma AtIsParsed(ks: seq<Kind>, body: bytes, off: nat)
    requires At(ks, body, off)
    ensures ParseFields(ks, body).Some? && off <= |body|
  {
  }

  lemma PrefixOfEntries(k: nat, n: nat)
    requires k <= n
    ensures [K32, K32] + EntryKinds(k) <= [K32, K32] + EntryKinds(n)
  {
    hide EntryKinds;
    EntryKindsPrefix(k, n);
  }

  lemma EntriesEnd(body: bytes, n: uint32, off: nat, names: seq<bytes>, types: bytes)
    requires Listing(body, n, n, off, names, types)
    ensures DecodeResponse(OP_READDIR, body) == Some(Reply(0).(names := names, types := types))
  {
    hide ParseFields, EntryKinds, Gathered, DecodeResponse;
    var all := ParseFields([K32, K32] + EntryKinds(n), body).value;
    DecodeEntries(body, n, all.fields, all.rest, names, types);
  }
}
