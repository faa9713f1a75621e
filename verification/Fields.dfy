/** Message bodies as lists of fields, and the builder and the sticky-error parser that write and read them
    (internal/protocol). */
module Fields {
  import opened Bytes

  datatype Field = F8(v: byte) | F32(n: uint32) | F64(q: uint64) | FBlob(b: bytes)

  datatype Kind = K8 | K32 | K64 | KBlob

  function KindOf(f: Field): Kind {
    match f
    case F8(_) => K8
    case F32(_) => K32
    case F64(_) => K64
    case FBlob(_) => KBlob
  }

  function KindsOf(fs: seq<Field>): (ks: seq<Kind>)
    ensures |ks| == |fs| && forall i :: 0 <= i < |fs| ==> ks[i] == KindOf(fs[i])
  {
    seq(|fs|, i requires 0 <= i < |fs| => KindOf(fs[i]))
  }

  function EncField(f: Field): bytes {
    match f
    case F8(v) => [v]
    case F32(n) => BE32(n)
    case F64(q) => BE64(q)
    case FBlob(b) => BE32(U32Of(|b|)) + b
  }

  function EncFields(fs: seq<Field>): bytes {
    if fs == [] then [] else EncFields(fs[..|fs| - 1]) + EncField(fs[|fs| - 1])
  }

  /** The length of a blob is sent in 32 bits. */
  predicate Fits(f: Field) { f.FBlob? ==> |f.b| < TWO32 }

  predicate AllFit(fs: seq<Field>) { forall i :: 0 <= i < |fs| ==> Fits(fs[i]) }

  datatype Parsed = Parsed(field: Field, rest: bytes)

  function ParseField(k: Kind, b: bytes): Option<Parsed> {
    match k
    case K8 => if |b| < 1 then None else Some(Parsed(F8(b[0]), b[1..]))
    case K32 => if |b| < 4 then None else Some(Parsed(F32(FromBE32(b)), b[4..]))
    case K64 => if |b| < 8 then None else Some(Parsed(F64(FromBE64(b)), b[8..]))
    case KBlob =>
      if |b| < 4 then None
      else
        var n := FromBE32(b);
        if |b| - 4 < n then None else Some(Parsed(FBlob(b[4..4 + n]), b[4 + n..]))
  }

  datatype ParsedAll = ParsedAll(fields: seq<Field>, rest: bytes)

  function ParseFields(ks: seq<Kind>, b: bytes): (r: Option<ParsedAll>)
    ensures r.Some? ==> KindsOf(r.value.fields) == ks
  {
    if ks == [] then Some(ParsedAll([], b))
    else
      var init :- ParseFields(ks[..|ks| - 1], b);
      var last :- ParseField(ks[|ks| - 1], init.rest);
      Some(ParsedAll(init.fields + [last.field], last.rest))
  }

  // ---- round trip and truncation -----------------------------------------------------------------------

  lemma FieldRoundTrip(f: Field, rest: bytes)
    requires Fits(f)
    ensures ParseField(KindOf(f), EncField(f) + rest) == Some(Parsed(f, rest))
  {
    hide BE32, BE64, FromBE32, FromBE64;
    var b := EncField(f) + rest;
    match f
    case F8(_) => assert b[1..] == rest;
    case F32(n) => BE32RoundTrip(n, rest); assert b[4..] == rest;
    case F64(q) => BE64RoundTrip(q, rest); assert b[8..] == rest;
    case FBlob(s) => BlobRoundTrip(s, rest);
  }

  lemma BlobRoundTrip(s: bytes, rest: bytes)
    requires |s| < TWO32
    ensures ParseField(KBlob, BE32(U32Of(|s|)) + s + rest) == Some(Parsed(FBlob(s), rest))
  {
    hide BE32, FromBE32;
    var b := BE32(U32Of(|s|)) + s + rest;
    BE32RoundTrip(|s|, s + rest);
    assert b == BE32(U32Of(|s|)) + (s + rest);
    assert b[4..4 + |s|] == s && b[4 + |s|..] == rest;
  }

  lemma FieldTruncated(f: Field, p: bytes)
    requires Fits(f) && p < EncField(f)
    ensures ParseField(KindOf(f), p) == None
  {
    hide BE32, BE64, FromBE32, FromBE64;
    match f
    case FBlob(s) =>
      if |p| >= 4 {
        var word := BE32(U32Of(|s|));
        BE32RoundTrip(|s|, p[4..]);
        assert p[..4] == (word + s)[..4] == word;
        assert p == word + p[4..];
      }
    case _ =>
  }

  lemma {:induction false} FieldsRoundTrip(fs: seq<Field>, rest: bytes)
    requires AllFit(fs)
    ensures ParseFields(KindsOf(fs), EncFields(fs) + rest) == Some(ParsedAll(fs, rest))
  {
    hide ParseField, EncField, ParseFields, EncFields, Fits, AllFit, KindOf;
    if fs == [] {
      NoFieldsRoundTrip(rest);
    } else {
      var init, last := fs[..|fs| - 1], fs[|fs| - 1];
      assert init + [last] == fs;
      assert AllFit(init) && Fits(last) by {
        InitFits(fs);
      }
      FieldsRoundTrip(init, EncField(last) + rest);
      FieldRoundTrip(last, rest);
      EncFieldsSnoc(init, last);
      assert (EncFields(init) + EncField(last)) + rest == EncFields(init) + (EncField(last) + rest);
      ParseFieldsSnoc(KindsOf(init), KindOf(last), EncFields(fs) + rest);
      assert KindsOf(init) + [KindOf(last)] == KindsOf(fs);
    }
  }

  lemma NoFieldsRoundTrip(rest: bytes)
    ensures ParseFields(KindsOf([]), EncFields([]) + rest) == Some(ParsedAll([], rest))
  {
    assert EncFields([]) + rest == rest;
  }

  lemma InitFits(fs: seq<Field>)
    requires AllFit(fs) && fs != []
    ensures AllFit(fs[..|fs| - 1]) && Fits(fs[|fs| - 1])
  {
    assert forall i :: 0 <= i < |fs| - 1 ==> fs[..|fs| - 1][i] == fs[i];
  }

  lemma {:induction false} FieldsTruncated(fs: seq<Field>, p: bytes)
    requires AllFit(fs) && p < EncFields(fs)
    ensures ParseFields(KindsOf(fs), p) == None
  {
    hide ParseField, EncField;
    if fs != [] {
      var init, last := fs[..|fs| - 1], fs[|fs| - 1];
      assert forall i :: 0 <= i < |init| ==> init[i] == fs[i];
      assert KindsOf(fs)[..|fs| - 1] == KindsOf(init);
      StrictPrefixOfConcat(p, EncFields(init), EncField(last));
      if p < EncFields(init) {
        FieldsTruncated(init, p);
      } else {
        var q := p[|EncFields(init)|..];
        FieldsRoundTrip(init, q);
        FieldTruncated(last, q);
      }
    }
  }

  lemma EncFieldsSnoc(fs: seq<Field>, f: Field)
    ensures EncFields(fs + [f]) == EncFields(fs) + EncField(f)
  {
    assert (fs + [f])[..|fs|] == fs;
  }

  lemma EncOne(a: Field)
    ensures EncFields([a]) == EncField(a)
  {
    EncFieldsSnoc([], a);
    assert [] + [a] == [a] && [] + EncField(a) == EncField(a);
  }

  lemma EncTwo(a: Field, b: Field)
    ensures EncFields([a, b]) == EncField(a) + EncField(b)
  {
    EncOne(a);
    EncFieldsSnoc([a], b);
    assert [a] + [b] == [a, b];
  }

  lemma EncThree(a: Field, b: Field, c: Field)
    ensures EncFields([a, b, c]) == EncField(a) + EncField(b) + EncField(c)
  {
    EncTwo(a, b);
    EncFieldsSnoc([a, b], c);
    assert [a, b] + [c] == [a, b, c];
  }

  lemma EncFour(a: Field, b: Field, c: Field, d: Field)
    ensures EncFields([a, b, c, d]) == EncField(a) + EncField(b) + EncField(c) + EncField(d)
  {
    EncThree(a, b, c);
    EncFieldsSnoc([a, b, c], d);
    assert [a, b, c] + [d] == [a, b, c, d];
  }

  lemma EncFive(a: Field, b: Field, c: Field, d: Field, e: Field)
    ensures EncFields([a, b, c, d, e]) == EncField(a) + EncField(b) + EncField(c) + EncField(d) + EncField(e)
  {
    EncFour(a, b, c, d);
    EncFieldsSnoc([a, b, c, d], e);
    assert [a, b, c, d] + [e] == [a, b, c, d, e];
  }

  lemma {:induction false} EncFieldsConcat(a: seq<Field>, b: seq<Field>)
    ensures EncFields(a + b) == EncFields(a) + EncFields(b)
  {
    hide EncField;
    if b == [] {
      assert a + b == a;
    } else {
      var init := b[..|b| - 1];
      EncFieldsConcat(a, init);
      var last := EncField(b[|b| - 1]);
      assert a + b == (a + init) + [b[|b| - 1]];
      EncFieldsSnoc(a + init, b[|b| - 1]);
      assert (EncFields(a) + EncFields(init)) + last == EncFields(a) + (EncFields(init) + last);
    }
  }

  lemma ParseFieldsSnoc(ks: seq<Kind>, k: Kind, b: bytes)
    ensures ParseFields(ks + [k], b)
         == match ParseFields(ks, b)
            case None => None
            case Some(init) =>
              (match ParseField(k, init.rest)
               case None => None
               case Some(last) => Some(ParsedAll(init.fields + [last.field], last.rest)))
  {
    hide ParseField;
    assert (ks + [k])[..|ks|] == ks;
  }

  /** A blob read off the front in two steps, length first. */
  lemma BlobOff(b: bytes)
    ensures ParseField(KBlob, b)
         == if |b| < 4 || |b[4..]| < FromBE32(b) then None
            else Some(Parsed(FBlob(b[4..][..FromBE32(b)]), b[4..][FromBE32(b)..]))
  {
    hide FromBE32;
    if |b| >= 4 && |b[4..]| >= FromBE32(b) {
      var n := FromBE32(b);
      assert b[4..4 + n] == b[4..][..n] && b[4 + n..] == b[4..][n..];
    }
  }

  // ---- builder and parser ------------------------------------------------------------------------------

  class Builder {
    var b: bytes
    ghost var fields: seq<Field>

    ghost predicate Valid()
      reads this
    {
      b == EncFields(fields)
    }

    constructor ()
      ensures Valid() && fields == []
    {
      b, fields := [], [];
    }

    method U8(v: byte)
      requires Valid()
      modifies this
      ensures Valid() && fields == old(fields) + [F8(v)]
    {
      EncFieldsSnoc(fields, F8(v));
      b, fields := b + [v], fields + [F8(v)];
    }

    method U32(n: uint32)
      requires Valid()
      modifies this
      ensures Valid() && fields == old(fields) + [F32(n)]
    {
      EncFieldsSnoc(fields, F32(n));
      b, fields := b + BE32(n), fields + [F32(n)];
    }

    method U64(q: uint64)
      requires Valid()
      modifies this
      ensures Valid() && fields == old(fields) + [F64(q)]
    {
      EncFieldsSnoc(fields, F64(q));
      b, fields := b + BE64(q), fields + [F64(q)];
    }

    method I64(i: int64)
      requires Valid()
      modifies this
      ensures Valid() && fields == old(fields) + [F64(U64Of(i))]
    {
      U64(U64Of(i));
    }

    method Blob(s: bytes)
      requires Valid()
      modifies this
      ensures Valid() && fields == old(fields) + [FBlob(s)]
    {
      hide BE32, U32Of, EncFields;
      EncFieldsSnoc(fields, FBlob(s));
      b := b + BE32(U32Of(|s|));
      b := b + s;
      fields := fields + [FBlob(s)];
    }
  }

  /** Reads fields off the front of a body. The first field that is not all there sets `err` for good; from then on
      every read returns a zero value and takes nothing. */
  class Parser {
    ghost const body: bytes
    ghost var kinds: seq<Kind> // every field asked for so far
    ghost var done: seq<Field> // what has been read
    var b: bytes
    var err: bool

    ghost predicate Valid()
      reads this
    {
      ParseFields(kinds, body) == if err then None else Some(ParsedAll(done, b))
    }

    constructor (body: bytes)
      ensures Valid() && this.body == body && kinds == [] && !err && b == body && done == []
    {
      this.body := body;
      kinds, done, b, err := [], [], body, false;
    }

    method U8() returns (v: byte)
      requires Valid()
      modifies this
      ensures Valid() && kinds == old(kinds) + [K8] && (old(err) ==> err)
      ensures !err ==> done == old(done) + [F8(v)]
      ensures err ==> v == 0
    {
      ParseFieldsSnoc(kinds, K8, body);
      kinds := kinds + [K8];
      if err || |b| < 1 {
        err, v := true, 0;
      } else {
        v, b := b[0], b[1..];
        done := done + [F8(v)];
      }
    }

    method U32() returns (n: uint32)
      requires Valid()
      modifies this
      ensures Valid() && kinds == old(kinds) + [K32] && (old(err) ==> err)
      ensures !err ==> done == old(done) + [F32(n)]
      ensures err ==> n == 0
    {
      hide FromBE32;
      ParseFieldsSnoc(kinds, K32, body);
      kinds := kinds + [K32];
      if err || |b| < 4 {
        err, n := true, 0;
      } else {
        n, b := FromBE32(b), b[4..];
        done := done + [F32(n)];
      }
    }

    method U64() returns (q: uint64)
      requires Valid()
      modifies this
      ensures Valid() && kinds == old(kinds) + [K64] && (old(err) ==> err)
      ensures !err ==> done == old(done) + [F64(q)]
      ensures err ==> q == 0
    {
      hide FromBE64;
      ParseFieldsSnoc(kinds, K64, body);
      kinds := kinds + [K64];
      if err || |b| < 8 {
        err, q := true, 0;
      } else {
        q, b := FromBE64(b), b[8..];
        done := done + [F64(q)];
      }
    }

    method Blob() returns (s: bytes)
      requires Valid()
      modifies this
      ensures Valid() && kinds == old(kinds) + [KBlob] && (old(err) ==> err)
      ensures !err ==> done == old(done) + [FBlob(s)]
      ensures err ==> s == []
    {
      hide FromBE32, ParseFields, ParseField;
      ParseFieldsSnoc(kinds, KBlob, body);
      BlobOff(b);
      kinds := kinds + [KBlob];
      s := [];
      if err || |b| < 4 {
        err := true;
        return;
      }
      var n := FromBE32(b);
      b := b[4..];
      if |b| < n {
        err := true;
        return;
      }
      s, b := b[..n], b[n..];
      done := done + [FBlob(s)];
    }

    /** What is left for an optional trailing field. */
    function Left(): nat
      reads this
    {
      if err then 0 else |b|
    }
  }
}
