/** Pairing codes (internal/paircode): a peer identity and its addresses, in length-prefixed chunks, in unpadded
    base64url (RFC 4648, section 5). */
module PairCode {
  import opened Bytes

  /** A peer's identity and addresses in their binary forms. */
  datatype Info = Info(id: bytes, addrs: seq<bytes>)

  /** Which byte strings are peer IDs and multiaddrs is for their own libraries to say. */
  datatype Validity = Validity(id: bytes -> bool, addr: bytes -> bool)

  /** "rca1." */
  const PREFIX: bytes := [114, 99, 97, 49, 46]

  // ---- unsigned varints --------------------------------------------------------------------------------

  function PutUvarint(n: nat): bytes {
    if n < 0x80 then [n as byte] else [(n % 0x80 + 0x80) as byte] + PutUvarint(n / 0x80)
  }

  datatype Uvarint = Uvarint(n: nat, used: nat)

  /** Reads a varint whose first `i` bytes are already behind: at most ten bytes, the tenth at most 1. */
  function ReadUvarint(b: bytes, i: nat): (r: Option<Uvarint>)
    ensures r.Some? ==> 0 < r.value.used <= |b|
    decreases |b|
  {
    if b == [] || i >= 10 then None
    else if b[0] < 0x80 then if i == 9 && b[0] > 1 then None else Some(Uvarint(b[0] as nat, 1))
    else
      var rest :- ReadUvarint(b[1..], i + 1);
      Some(Uvarint((b[0] as nat - 0x80) + 0x80 * rest.n, rest.used + 1))
  }

  /** One more than what fits after `i` bytes; 2^64 at the start. */
  function Room(i: nat): nat
    requires i <= 9
    decreases 9 - i
  {
    if i == 9 then 2 else 0x80 * Room(i + 1)
  }

  lemma RoomForWord()
    ensures Room(0) == TWO64
  {
    assert Room(5) == 0x80 * 0x80 * 0x80 * 0x80 * 2;
    assert Room(0) == 0x80 * 0x80 * 0x80 * 0x80 * 0x80 * Room(5);
  }

  lemma {:induction false} UvarintRoundTrip(n: nat, i: nat, rest: bytes)
    requires i <= 9 && n < Room(i)
    ensures ReadUvarint(PutUvarint(n) + rest, i) == Some(Uvarint(n, |PutUvarint(n)|))
    decreases n
  {
    var b := PutUvarint(n) + rest;
    if n >= 0x80 {
      assert b[1..] == PutUvarint(n / 0x80) + rest;
      assert i < 9 && n / 0x80 < Room(i + 1);
      UvarintRoundTrip(n / 0x80, i + 1, rest);
    }
  }

  /** Whatever is read as a varint is below 2^64 and no longer than ten bytes. */
  lemma UvarintIsWord(b: bytes)
    requires ReadUvarint(b, 0).Some?
    ensures ReadUvarint(b, 0).value.n < TWO64 && ReadUvarint(b, 0).value.used <= 10
  {
    RoomForWord();
    UvarintIsBounded(b, 0);
  }

  lemma {:induction false} UvarintIsBounded(b: bytes, i: nat)
    requires ReadUvarint(b, i).Some?
    ensures i <= 9 && ReadUvarint(b, i).value.n < Room(i) && ReadUvarint(b, i).value.used <= 10 - i
    decreases |b|
  {
    if b[0] >= 0x80 {
      UvarintIsBounded(b[1..], i + 1);
    } else if i < 9 {
      RoomIsEnough(i);
    }
  }

  lemma {:induction false} RoomIsEnough(i: nat)
    requires i < 9
    ensures Room(i) >= 0x80
    decreases 9 - i
  {
    if i < 8 {
      RoomIsEnough(i + 1);
    }
  }

  lemma {:induction false} UvarintTruncated(n: nat, i: nat, p: bytes)
    requires p < PutUvarint(n)
    ensures ReadUvarint(p, i) == None
    decreases n
  {
    if p != [] {
      assert n >= 0x80;
      assert p[0] == PutUvarint(n)[0];
      assert p[1..] < PutUvarint(n)[1..] == PutUvarint(n / 0x80);
      UvarintTruncated(n / 0x80, i + 1, p[1..]);
    }
  }

  // ---- chunks and payloads -----------------------------------------------------------------------------

  function PutChunk(c: bytes): bytes { PutUvarint(|c|) + c }

  datatype Popped<T> = Popped(value: T, rest: bytes)

  function ReadCount(b: bytes): (r: Option<Popped<nat>>)
    ensures r.Some? ==> |r.value.rest| < |b|
  {
    var v :- ReadUvarint(b, 0);
    Some(Popped(v.n, b[v.used..]))
  }

  /** One length-prefixed chunk off the front. */
  function ReadChunk(b: bytes): (r: Option<Popped<bytes>>)
    ensures r.Some? ==> |r.value.rest| < |b|
  {
    var n :- ReadCount(b);
    if |n.rest| < n.value then None else Some(Popped(n.rest[..n.value], n.rest[n.value..]))
  }

  function PutAddrs(addrs: seq<bytes>): bytes {
    if addrs == [] then [] else PutChunk(addrs[0]) + PutAddrs(addrs[1..])
  }

  function Payload(info: Info): bytes { PutChunk(info.id) + (PutUvarint(|info.addrs|) + PutAddrs(info.addrs)) }

  function ReadAddrs(valid: Validity, b: bytes, n: nat): Option<Popped<seq<bytes>>>
    decreases n
  {
    if n == 0 then Some(Popped([], b))
    else
      var first :- ReadChunk(b);
      if !valid.addr(first.value) then None
      else
        var more :- ReadAddrs(valid, first.rest, n - 1);
        Some(Popped([first.value] + more.value, more.rest))
  }

  function ReadPayload(valid: Validity, b: bytes): Option<Info> {
    var id :- ReadChunk(b);
    if !valid.id(id.value) then None
    else
      var n :- ReadCount(id.rest);
      var addrs :- ReadAddrs(valid, n.rest, n.value);
      if addrs.rest != [] then None else Some(Info(id.value, addrs.value))
  }

  /** What can be encoded: valid parts, with lengths of 64 bits. */
  predicate Encodable(valid: Validity, info: Info) {
    && valid.id(info.id) && |info.id| < TWO64 && |info.addrs| < TWO64
    && forall i :: 0 <= i < |info.addrs| ==> valid.addr(info.addrs[i]) && |info.addrs[i]| < TWO64
  }

  lemma CountRoundTrip(n: nat, rest: bytes)
    requires n < TWO64
    ensures ReadCount(PutUvarint(n) + rest) == Some(Popped(n, rest))
  {
    hide PutUvarint, ReadUvarint;
    RoomForWord();
    UvarintRoundTrip(n, 0, rest);
    assert (PutUvarint(n) + rest)[|PutUvarint(n)|..] == rest;
  }

  lemma CountTruncated(n: nat, p: bytes)
    requires p < PutUvarint(n)
    ensures ReadCount(p) == None
  {
    UvarintTruncated(n, 0, p);
  }

  lemma ChunkRoundTrip(c: bytes, rest: bytes)
    requires |c| < TWO64
    ensures ReadChunk(PutChunk(c) + rest) == Some(Popped(c, rest))
  {
    hide PutUvarint, ReadCount;
    CountRoundTrip(|c|, c + rest);
    assert PutChunk(c) + rest == PutUvarint(|c|) + (c + rest);
    assert (c + rest)[..|c|] == c && (c + rest)[|c|..] == rest;
  }

  lemma ChunkTruncated(c: bytes, p: bytes)
    requires |c| < TWO64 && p < PutChunk(c)
    ensures ReadChunk(p) == None
  {
    hide PutUvarint, ReadCount;
    StrictPrefixOfConcat(p, PutUvarint(|c|), c);
    if p < PutUvarint(|c|) {
      CountTruncated(|c|, p);
    } else {
      CountRoundTrip(|c|, p[|PutUvarint(|c|)|..]);
    }
  }

  ghost predicate AddrsFit(valid: Validity, addrs: seq<bytes>) {
    forall i :: 0 <= i < |addrs| ==> valid.addr(addrs[i]) && |addrs[i]| < TWO64
  }

  lemma {:induction false} AddrsRoundTrip(valid: Validity, addrs: seq<bytes>, rest: bytes)
    requires AddrsFit(valid, addrs)
    ensures ReadAddrs(valid, PutAddrs(addrs) + rest, |addrs|) == Some(Popped(addrs, rest))
  {
    hide PutChunk, ReadChunk;
    if addrs == [] {
      assert PutAddrs(addrs) + rest == rest;
    } else {
      var more := PutAddrs(addrs[1..]) + rest;
      assert PutAddrs(addrs) + rest == PutChunk(addrs[0]) + more;
      ChunkRoundTrip(addrs[0], more);
      assert AddrsFit(valid, addrs[1..]);
      AddrsRoundTrip(valid, addrs[1..], rest);
      assert [addrs[0]] + addrs[1..] == addrs;
    }
  }

  lemma {:induction false} AddrsTruncated(valid: Validity, addrs: seq<bytes>, p: bytes)
    requires AddrsFit(valid, addrs) && p < PutAddrs(addrs)
    ensures ReadAddrs(valid, p, |addrs|) == None
  {
    hide PutChunk, ReadChunk;
    if addrs != [] {
      StrictPrefixOfConcat(p, PutChunk(addrs[0]), PutAddrs(addrs[1..]));
      if p < PutChunk(addrs[0]) {
        ChunkTruncated(addrs[0], p);
      } else {
        var q := p[|PutChunk(addrs[0])|..];
        ChunkRoundTrip(addrs[0], q);
        assert AddrsFit(valid, addrs[1..]);
        AddrsTruncated(valid, addrs[1..], q);
      }
    }
  }

  /** A payload, and nothing but it, reads back: with more bytes behind it, it is rejected. */
  lemma PayloadRoundTrip(valid: Validity, info: Info, extra: bytes)
    requires Encodable(valid, info)
    ensures ReadPayload(valid, Payload(info) + extra) == if extra == [] then Some(info) else None
  {
    hide PutChunk, ReadChunk, PutUvarint, ReadCount, PutAddrs, ReadAddrs;
    var tail := PutAddrs(info.addrs) + extra;
    var mid := PutUvarint(|info.addrs|) + tail;
    assert Payload(info) + extra == PutChunk(info.id) + mid;
    ChunkRoundTrip(info.id, mid);
    CountRoundTrip(|info.addrs|, tail);
    AddrsRoundTrip(valid, info.addrs, extra);
  }

  /** No strict prefix of a payload is accepted. */
  lemma PayloadTruncated(valid: Validity, info: Info, p: bytes)
    requires Encodable(valid, info) && p < Payload(info)
    ensures ReadPayload(valid, p) == None
  {
    hide PutChunk, ReadChunk, PutUvarint, ReadCount, PutAddrs, ReadAddrs;
    var head, count, tail := PutChunk(info.id), PutUvarint(|info.addrs|), PutAddrs(info.addrs);
    StrictPrefixOfConcat(p, head, count + tail);
    if p < head {
      ChunkTruncated(info.id, p);
    } else {
      var q := p[|head|..];
      ChunkRoundTrip(info.id, q);
      StrictPrefixOfConcat(q, count, tail);
      if q < count {
        CountTruncated(|info.addrs|, q);
      } else {
        CountRoundTrip(|info.addrs|, q[|count|..]);
        AddrsTruncated(valid, info.addrs, q[|count|..]);
      }
    }
  }

  // ---- base64url ---------------------------------------------------------------------------------------

  /** A-Z, a-z, 0-9, '-', '_'. */
  function Digit(v: nat): byte
    requires v < 64
  {
    if v < 26 then (65 + v) as byte
    else if v < 52 then (71 + v) as byte
    else if v < 62 then (v - 4) as byte
    else if v == 62 then 45
    else 95
  }

  function DigitValue(c: byte): (r: Option<nat>)
    ensures r.Some? ==> r.value < 64
  {
    if 65 <= c <= 90 then Some(c as nat - 65)
    else if 97 <= c <= 122 then Some(c as nat - 71)
    else if 48 <= c <= 57 then Some(c as nat + 4)
    else if c == 45 then Some(62)
    else if c == 95 then Some(63)
    else None
  }

  function Values(s: bytes): Option<seq<nat>> {
    if s == [] then Some([])
    else
      var v :- DigitValue(s[0]);
      var rest :- Values(s[1..]);
      Some([v] + rest)
  }

  /** The three bytes in four digits. */
  function High(a: nat, b: nat): byte
    requires a < 64 && b < 64
  {
    (a * 4 + b / 16) as byte
  }

  function Middle(b: nat, c: nat): byte
    requires b < 64 && c < 64
  {
    ((b % 16) * 16 + c / 4) as byte
  }

  function Low(c: nat, d: nat): byte
    requires c < 64 && d < 64
  {
    ((c % 4) * 64 + d) as byte
  }

  /** Four digits to three bytes; the bits a shorter last group leaves over are ignored, a lone digit is an error. */
  function FromValues(v: seq<nat>): Option<bytes>
    requires forall i :: 0 <= i < |v| ==> v[i] < 64
  {
    if v == [] then Some([])
    else if |v| == 1 then None
    else if |v| == 2 then Some([High(v[0], v[1])])
    else if |v| == 3 then Some([High(v[0], v[1]), Middle(v[1], v[2])])
    else
      var rest :- FromValues(v[4..]);
      Some([High(v[0], v[1]), Middle(v[1], v[2]), Low(v[2], v[3])] + rest)
  }

  /** The decoder skips line breaks wherever they are. */
  function NoBreaks(s: bytes): bytes {
    if s == [] then [] else (if s[0] == 10 || s[0] == 13 then [] else [s[0]]) + NoBreaks(s[1..])
  }

  /** A line feed or a carriage return, wherever it is, changes nothing. */
  lemma {:induction false} BreaksAreSkipped(a: bytes, c: byte, b: bytes)
    requires c == 10 || c == 13
    ensures NoBreaks(a + [c] + b) == NoBreaks(a + b)
  {
    if a == [] {
      assert ([] + [c] + b)[1..] == b && [] + b == b;
    } else {
      assert (a + [c] + b)[1..] == a[1..] + [c] + b && (a + b)[1..] == a[1..] + b;
      BreaksAreSkipped(a[1..], c, b);
    }
  }

  lemma {:induction false} ValuesAreDigits(s: bytes)
    ensures Values(s).Some? ==> |Values(s).value| == |s| && forall i :: 0 <= i < |s| ==> Values(s).value[i] < 64
  {
    if s != [] {
      ValuesAreDigits(s[1..]);
    }
  }

  function FromDigits(s: bytes): Option<bytes> {
    var v :- Values(NoBreaks(s));
    ValuesAreDigits(NoBreaks(s));
    FromValues(v)
  }

  function SixBits(b: bytes): (v: seq<nat>)
    ensures forall i :: 0 <= i < |v| ==> v[i] < 64
  {
    if b == [] then []
    else if |b| == 1 then [b[0] as nat / 4, (b[0] as nat % 4) * 16]
    else if |b| == 2 then
      [b[0] as nat / 4, (b[0] as nat % 4) * 16 + b[1] as nat / 16, (b[1] as nat % 16) * 4]
    else
      [b[0] as nat / 4, (b[0] as nat % 4) * 16 + b[1] as nat / 16, (b[1] as nat % 16) * 4 + b[2] as nat / 64,
       b[2] as nat % 64] + SixBits(b[3..])
  }

  /** The first digits of a byte string hold its first bytes. */
  lemma FirstDigits(b: bytes)
    ensures |SixBits(b)| == if b == [] then 0 else if |b| < 3 then |b| + 1 else 4 + |SixBits(b[3..])|
    ensures |b| >= 1 ==> High(SixBits(b)[0], SixBits(b)[1]) == b[0]
    ensures |b| >= 2 ==> Middle(SixBits(b)[1], SixBits(b)[2]) == b[1]
    ensures |b| >= 3 ==> Low(SixBits(b)[2], SixBits(b)[3]) == b[2] && SixBits(b)[4..] == SixBits(b[3..])
  {
    if b != [] {
      GroupRoundTrip(b[0] as nat, if |b| >= 2 then b[1] as nat else 0, if |b| >= 3 then b[2] as nat else 0);
    }
  }

  lemma GroupRoundTrip(x: nat, y: nat, z: nat)
    requires x < 256 && y < 256 && z < 256
    ensures (x / 4) * 4 + ((x % 4) * 16 + y / 16) / 16 == x
    ensures (((x % 4) * 16 + y / 16) % 16) * 16 + ((y % 16) * 4 + z / 64) / 4 == y
    ensures (((y % 16) * 4 + z / 64) % 4) * 64 + z % 64 == z
  {
    assert ((x % 4) * 16 + y / 16) / 16 == x % 4;
    assert ((x % 4) * 16 + y / 16) % 16 == y / 16;
    assert ((y % 16) * 4 + z / 64) / 4 == y % 16;
    assert ((y % 16) * 4 + z / 64) % 4 == z / 64;
  }

  lemma {:induction false} SixBitsRoundTrip(b: bytes)
    ensures FromValues(SixBits(b)) == Some(b)
  {
    hide SixBits, High, Middle, Low;
    FirstDigits(b);
    if |b| >= 3 {
      SixBitsRoundTrip(b[3..]);
      assert [b[0], b[1], b[2]] + b[3..] == b;
    } else {
      assert b == if b == [] then [] else if |b| == 1 then [b[0]] else [b[0], b[1]];
    }
  }

  /** The bits that a last digit has too many are zero, as the encoding prescribes. */
  lemma {:induction false} SpareBitsAreZero(b: bytes)
    ensures |b| % 3 == 1 ==> SixBits(b) != [] && SixBits(b)[|SixBits(b)| - 1] % 16 == 0
    ensures |b| % 3 == 2 ==> SixBits(b) != [] && SixBits(b)[|SixBits(b)| - 1] % 4 == 0
  {
    if |b| >= 3 {
      SpareBitsAreZero(b[3..]);
      assert (|b| - 3) % 3 == |b| % 3;
    }
  }

  /** The alphabet: "A" to "Z", "a" to "z", "0" to "9", "-" and "_", in this order. */
  lemma DigitsAreTheAlphabet(v: nat)
    requires v < 64
    ensures Digit(v) as int
         == if v < 26 then 'A' as int + v
            else if v < 52 then 'a' as int + (v - 26)
            else if v < 62 then '0' as int + (v - 52)
            else if v == 62 then '-' as int
            else '_' as int
  {
  }

  predicate IsDigit(c: byte) { DigitValue(c).Some? }

  lemma DigitRoundTrip(v: nat)
    requires v < 64
    ensures DigitValue(Digit(v)) == Some(v)
  {
  }

  lemma DigitIsPlain(c: byte)
    requires IsDigit(c)
    ensures c != 10 && c != 13 && !IsSpace(c)
  {
  }

  function DigitsOf(v: seq<nat>): (s: bytes)
    requires forall i :: 0 <= i < |v| ==> v[i] < 64
    ensures |s| == |v| && forall i :: 0 <= i < |s| ==> IsDigit(s[i])
  {
    seq(|v|, i requires 0 <= i < |v| => Digit(v[i]))
  }

  function Digits(b: bytes): bytes { DigitsOf(SixBits(b)) }

  lemma DigitsAreSixBits(b: bytes)
    ensures Digits(b) == DigitsOf(SixBits(b)) && forall i :: 0 <= i < |Digits(b)| ==> IsDigit(Digits(b)[i])
  {
  }

  lemma {:induction false} ValuesOfDigits(v: seq<nat>)
    requires forall i :: 0 <= i < |v| ==> v[i] < 64
    ensures NoBreaks(DigitsOf(v)) == DigitsOf(v) && Values(DigitsOf(v)) == Some(v)
  {
    hide Digit, DigitValue;
    if v != [] {
      ValuesOfDigits(v[1..]);
      DigitRoundTrip(v[0]);
      DigitIsPlain(DigitsOf(v)[0]);
      assert DigitsOf(v)[1..] == DigitsOf(v[1..]);
      assert [DigitsOf(v)[0]] + DigitsOf(v[1..]) == DigitsOf(v) && [v[0]] + v[1..] == v;
    }
  }

  lemma DigitsRoundTrip(b: bytes)
    ensures FromDigits(Digits(b)) == Some(b)
  {
    hide Digits, SixBits, DigitsOf, FromValues, Values, NoBreaks;
    assert Digits(b) == DigitsOf(SixBits(b)) by {
      DigitsAreSixBits(b);
    }
    ValuesOfDigits(SixBits(b));
    SixBitsRoundTrip(b);
  }

  lemma BreakInDigits(a: bytes, c: byte, b: bytes)
    requires c == 10 || c == 13
    ensures FromDigits(a + [c] + b) == FromDigits(a + b)
  {
    hide NoBreaks, Values, FromValues;
    BreaksAreSkipped(a, c, b);
  }

  // ---- codes -------------------------------------------------------------------------------------------

  function EncodeInfo(valid: Validity, info: Info): Option<bytes> {
    if !valid.id(info.id) then None else Some(PREFIX + Digits(Payload(info)))
  }

  function DecodeCode(valid: Validity, code: bytes): Option<Info> {
    var c := Trim(code);
    if !(PREFIX <= c) then None
    else
      var payload :- FromDigits(c[|PREFIX|..]);
      ReadPayload(valid, payload)
  }

  predicate AllSpace(s: bytes) { forall i :: 0 <= i < |s| ==> IsSpace(s[i]) }

  lemma {:induction false} TrimLeftDrops(ws: bytes, s: bytes)
    requires AllSpace(ws) && s != [] && !IsSpace(s[0])
    ensures TrimLeft(ws + s) == s
  {
    if ws == [] {
      assert ws + s == s;
    } else {
      assert (ws + s)[1..] == ws[1..] + s;
      TrimLeftDrops(ws[1..], s);
    }
  }

  lemma {:induction false} TrimRightDrops(s: bytes, ws: bytes)
    requires AllSpace(ws) && s != [] && !IsSpace(s[|s| - 1])
    ensures TrimRight(s + ws) == s
  {
    if ws == [] {
      assert s + ws == s;
    } else {
      var all := s + ws;
      assert all[|all| - 1] == ws[|ws| - 1] && all[..|all| - 1] == s + ws[..|ws| - 1];
      TrimRightDrops(s, ws[..|ws| - 1]);
    }
  }

  predicate AllDigits(s: bytes) { forall i :: 0 <= i < |s| ==> IsDigit(s[i]) }

  /** Digits behind the prefix decode as a payload, with white space around the code or not. */
  lemma CodeCarriesDigits(valid: Validity, digits: bytes, before: bytes, after: bytes)
    requires AllSpace(before) && AllSpace(after) && AllDigits(digits)
    ensures DecodeCode(valid, before + (PREFIX + digits) + after)
         == match FromDigits(digits)
            case None => None
            case Some(payload) => ReadPayload(valid, payload)
  {
    hide FromDigits, ReadPayload, TrimLeft, TrimRight;
    var code := PREFIX + digits;
    assert code[0] == 114 && !IsSpace(code[0]);
    assert !IsSpace(code[|code| - 1]) by {
      if digits != [] {
        DigitIsPlain(digits[|digits| - 1]);
        assert code[|code| - 1] == digits[|digits| - 1];
      }
    }
    assert before + code + after == before + (code + after);
    assert (code + after)[0] == code[0];
    TrimLeftDrops(before, code + after);
    TrimRightDrops(code, after);
    assert code[|PREFIX|..] == digits;
  }

  /** A code decodes to the payload it was made of. */
  lemma CodeCarriesPayload(valid: Validity, payload: bytes, before: bytes, after: bytes)
    requires AllSpace(before) && AllSpace(after)
    ensures DecodeCode(valid, before + (PREFIX + Digits(payload)) + after) == ReadPayload(valid, payload)
  {
    hide Digits, FromDigits, ReadPayload, DecodeCode;
    DigitsAreSixBits(payload);
    CodeCarriesDigits(valid, Digits(payload), before, after);
    DigitsRoundTrip(payload);
  }

  /** Decoding inverts encoding, for every peer and every list of addresses, white space around the code or not. */
  lemma CodeRoundTrip(valid: Validity, info: Info, before: bytes, after: bytes)
    requires Encodable(valid, info) && AllSpace(before) && AllSpace(after)
    ensures EncodeInfo(valid, info).Some?
    ensures DecodeCode(valid, before + EncodeInfo(valid, info).value + after) == Some(info)
  {
    hide Digits, DecodeCode, ReadPayload, Payload;
    CodeCarriesPayload(valid, Payload(info), before, after);
    PayloadRoundTrip(valid, info, []);
    assert Payload(info) + [] == Payload(info);
  }

  /** Codes made of a strict prefix or of a strict extension of a payload are refused. */
  lemma CutOrExtendedCodeFails(valid: Validity, info: Info, payload: bytes)
    requires Encodable(valid, info) && (payload < Payload(info) || Payload(info) < payload)
    ensures DecodeCode(valid, PREFIX + Digits(payload)) == None
  {
    hide Digits, DecodeCode, ReadPayload, Payload;
    CodeCarriesPayload(valid, payload, [], []);
    assert [] + (PREFIX + Digits(payload)) + [] == PREFIX + Digits(payload);
    if payload < Payload(info) {
      PayloadTruncated(valid, info, payload);
    } else {
      var extra := payload[|Payload(info)|..];
      assert payload == Payload(info) + extra;
      PayloadRoundTrip(valid, info, extra);
    }
  }

  // ---- what an accepted code is ------------------------------------------------------------------------

  /** A base64url digit or a line break. */
  predicate IsCodeByte(c: byte) {
    || 65 <= c <= 90 || 97 <= c <= 122 || 48 <= c <= 57 || c == 45 || c == 95 || c == 10 || c == 13
  }

  /** A code is made for every record with a valid peer ID, and for no other: "rca1." and digits. */
  lemma EncodedIsACode(valid: Validity, info: Info)
    ensures EncodeInfo(valid, info).Some? <==> valid.id(info.id)
    ensures valid.id(info.id)
            ==> var c := EncodeInfo(valid, info).value;
                && |c| >= 5 && c[..5] == [114, 99, 97, 49, 46]
                && forall i :: 5 <= i < |c| ==> IsCodeByte(c[i]) && c[i] != 10 && c[i] != 13
  {
    hide Digits, Payload, IsDigit, IsCodeByte;
    var digits := Digits(Payload(info));
    DigitsAreSixBits(Payload(info));
    forall i | 0 <= i < |digits|
      ensures IsCodeByte(digits[i]) && digits[i] != 10 && digits[i] != 13
    {
      DigitIsCodeByte(digits[i]);
    }
  }

  lemma DigitIsCodeByte(c: byte)
    requires IsDigit(c)
    ensures IsCodeByte(c) && c != 10 && c != 13
  {
  }

  lemma {:induction false} ValuesNeedDigits(s: bytes)
    requires Values(NoBreaks(s)).Some?
    ensures forall i :: 0 <= i < |s| ==> IsCodeByte(s[i])
  {
    if s != [] {
      if s[0] == 10 || s[0] == 13 {
        assert NoBreaks(s) == NoBreaks(s[1..]);
      } else {
        assert NoBreaks(s)[0] == s[0] && NoBreaks(s)[1..] == NoBreaks(s[1..]);
      }
      ValuesNeedDigits(s[1..]);
    }
  }

  lemma {:induction false} AddrsAreValid(valid: Validity, b: bytes, n: nat)
    requires ReadAddrs(valid, b, n).Some?
    ensures var addrs := ReadAddrs(valid, b, n).value.value;
            |addrs| == n && forall i :: 0 <= i < n ==> valid.addr(addrs[i])
    decreases n
  {
    hide ReadChunk;
    if n > 0 {
      AddrsAreValid(valid, ReadChunk(b).value.rest, n - 1);
    }
  }

  /** A text is accepted only if, trimmed, it is "rca1." and base64url digits, line breaks aside, and only if the peer
      ID and every address in it are valid. */
  lemma AcceptedIsACode(valid: Validity, text: bytes)
    requires DecodeCode(valid, text).Some?
    ensures var c, info := Trim(text), DecodeCode(valid, text).value;
            && |c| > 5 && c[..5] == [114, 99, 97, 49, 46]
            && (forall i :: 5 <= i < |c| ==> IsCodeByte(c[i]))
            && valid.id(info.id)
            && (forall i :: 0 <= i < |info.addrs| ==> valid.addr(info.addrs[i]))
  {
    hide Trim, ReadChunk, ReadCount, ReadAddrs, Values, NoBreaks, FromValues, IsCodeByte;
    var c := Trim(text);
    var digits := c[|PREFIX|..];
    ValuesNeedDigits(digits);
    forall i | 5 <= i < |c|
      ensures IsCodeByte(c[i])
    {
      assert c[i] == digits[i - 5];
    }
    var payload := FromDigits(digits).value;
    AcceptedIsNotEmpty(valid, digits);
    var id := ReadChunk(payload).value;
    var n := ReadCount(id.rest).value;
    AddrsAreValid(valid, n.rest, n.value);
  }

  lemma AcceptedIsNotEmpty(valid: Validity, digits: bytes)
    requires FromDigits(digits).Some? && ReadPayload(valid, FromDigits(digits).value).Some?
    ensures digits != []
  {
    hide ReadAddrs;
  }

  // ---- mangled codes -----------------------------------------------------------------------------------

  /** The first four digits of three bytes or more decode to three of them. */
  lemma FirstGroup(b: bytes, w: seq<nat>)
    requires |b| >= 3 && SixBits(b)[..4] <= w && forall i :: 0 <= i < |w| ==> w[i] < 64
    ensures FromValues(w)
         == match FromValues(w[4..])
            case None => None
            case Some(rest) => Some([b[0], b[1], b[2]] + rest)
  {
    hide SixBits, High, Middle, Low;
    FirstDigits(b);
    var v := SixBits(b)[..4];
    assert w[0] == v[0] && w[1] == v[1] && w[2] == v[2] && w[3] == v[3];
  }

  /** Fewer digits decode to fewer bytes, or not at all. */
  lemma {:induction false} CutSixBits(b: bytes, k: nat)
    requires k < |SixBits(b)|
    ensures FromValues(SixBits(b)[..k]).Some? ==> FromValues(SixBits(b)[..k]).value < b
  {
    hide FromValues, SixBits;
    FirstDigits(b);
    var w := SixBits(b)[..k];
    if |b| >= 3 && k >= 4 {
      CutSixBits(b[3..], k - 4);
      assert SixBits(b)[..4] == w[..4];
      FirstGroup(b, w);
      assert w[4..] == SixBits(b[3..])[..k - 4];
      assert b == [b[0], b[1], b[2]] + b[3..];
    } else {
      CutGroup(b, k);
    }
  }

  lemma CutGroup(b: bytes, k: nat)
    requires k < |SixBits(b)| && k < 4
    ensures FromValues(SixBits(b)[..k]).Some? ==> FromValues(SixBits(b)[..k]).value < b
  {
    hide SixBits, High, Middle, Low;
    FirstDigits(b);
  }

  /** More digits decode to more bytes, or not at all. */
  lemma {:induction false} MoreSixBits(b: bytes, more: seq<nat>)
    requires more != [] && forall i :: 0 <= i < |more| ==> more[i] < 64
    ensures FromValues(SixBits(b) + more).Some? ==> b < FromValues(SixBits(b) + more).value
  {
    hide FromValues, SixBits;
    FirstDigits(b);
    var w := SixBits(b) + more;
    if |b| >= 3 {
      MoreSixBits(b[3..], more);
      assert SixBits(b)[..4] == w[..4];
      FirstGroup(b, w);
      assert w[4..] == SixBits(b[3..]) + more;
      assert b == [b[0], b[1], b[2]] + b[3..];
    } else {
      MoreInGroup(b, w);
    }
  }

  lemma MoreInGroup(b: bytes, w: seq<nat>)
    requires |b| < 3 && SixBits(b) < w && forall i :: 0 <= i < |w| ==> w[i] < 64
    ensures FromValues(w).Some? ==> b < FromValues(w).value
  {
    hide SixBits, High, Middle, Low;
    FirstDigits(b);
    var v := SixBits(b);
    if b != [] {
      assert w[0] == v[0] && w[1] == v[1];
      if |b| == 2 {
        assert w[2] == v[2];
      }
    }
  }

  lemma DigitBack(c: byte)
    requires IsDigit(c)
    ensures Digit(DigitValue(c).value) == c
  {
  }

  lemma DigitsHaveValues(s: bytes) returns (v: seq<nat>)
    requires AllDigits(s)
    ensures (forall i :: 0 <= i < |v| ==> v[i] < 64) && DigitsOf(v) == s
  {
    hide Digit, DigitValue;
    v := seq(|s|, i requires 0 <= i < |s| => DigitValue(s[i]).value);
    forall i | 0 <= i < |s|
      ensures DigitsOf(v)[i] == s[i]
    {
      DigitBack(s[i]);
    }
  }

  lemma FromDigitsOf(v: seq<nat>)
    requires forall i :: 0 <= i < |v| ==> v[i] < 64
    ensures FromDigits(DigitsOf(v)) == FromValues(v)
  {
    hide DigitsOf, Values, NoBreaks, FromValues;
    ValuesOfDigits(v);
  }

  lemma CutDigits(b: bytes, s: bytes)
    requires s < Digits(b)
    ensures FromDigits(s).Some? ==> FromDigits(s).value < b
  {
    hide SixBits, FromValues, FromDigits, Digit;
    var v := SixBits(b)[..|s|];
    CutSixBits(b, |s|);
    assert DigitsOf(v) == s;
    FromDigitsOf(v);
  }

  lemma MoreDigits(b: bytes, more: bytes)
    requires more != [] && AllDigits(more)
    ensures FromDigits(Digits(b) + more).Some? ==> b < FromDigits(Digits(b) + more).value
  {
    hide SixBits, FromValues, FromDigits, Digit, IsDigit;
    var w := DigitsHaveValues(more);
    MoreSixBits(b, w);
    assert DigitsOf(SixBits(b) + w) == Digits(b) + more;
    FromDigitsOf(SixBits(b) + w);
  }

  lemma {:induction false} TrimLeftShortens(s: bytes)
    ensures |TrimLeft(s)| <= |s|
  {
    if s != [] {
      TrimLeftShortens(s[1..]);
    }
  }

  lemma {:induction false} TrimRightShortens(s: bytes)
    ensures |TrimRight(s)| <= |s|
  {
    if s != [] {
      TrimRightShortens(s[..|s| - 1]);
    }
  }

  /** A code that has lost characters at its end, or that has more digits behind it, is refused. */
  lemma MangledCodeFails(valid: Validity, info: Info, text: bytes)
    requires Encodable(valid, info)
    requires var code := PREFIX + Digits(Payload(info));
             text < code || (code < text && AllDigits(text[|code|..]))
    ensures DecodeCode(valid, text) == None
  {
    hide Digits, DecodeCode, ReadPayload, Payload, FromDigits, IsDigit, AllDigits;
    var digits := Digits(Payload(info));
    var code := PREFIX + digits;
    DigitsAreDigits(Payload(info));
    if |text| < |PREFIX| {
      ShortCodeFails(valid, text);
    } else {
      var s := text[|PREFIX|..];
      assert text[..|PREFIX|] == code[..|PREFIX|] == PREFIX;
      assert [] + (PREFIX + s) + [] == text;
      if text < code {
        assert s == code[|PREFIX|..][..|s|] == digits[..|s|];
        PrefixOfDigits(digits, |s|);
        CodeCarriesDigits(valid, s, [], []);
        CutDigits(Payload(info), s);
        if FromDigits(s).Some? {
          PayloadTruncated(valid, info, FromDigits(s).value);
        }
      } else {
        var more := text[|code|..];
        assert s == digits + more;
        BothAreDigits(digits, more);
        CodeCarriesDigits(valid, s, [], []);
        MoreDigits(Payload(info), more);
        if FromDigits(s).Some? {
          var p := FromDigits(s).value;
          var extra := p[|Payload(info)|..];
          assert p == Payload(info) + extra;
          PayloadRoundTrip(valid, info, extra);
        }
      }
    }
  }

  lemma ShortCodeFails(valid: Validity, text: bytes)
    requires |text| < |PREFIX|
    ensures DecodeCode(valid, text) == None
  {
    hide TrimLeft, TrimRight;
    TrimLeftShortens(text);
    TrimRightShortens(TrimLeft(text));
  }

  lemma DigitsAreDigits(b: bytes)
    ensures AllDigits(Digits(b))
  {
    DigitsAreSixBits(b);
  }

  lemma PrefixOfDigits(s: bytes, k: nat)
    requires AllDigits(s) && k <= |s|
    ensures AllDigits(s[..k])
  {
    hide IsDigit;
  }

  lemma BothAreDigits(s: bytes, t: bytes)
    requires AllDigits(s) && AllDigits(t)
    ensures AllDigits(s + t)
  {
    hide IsDigit;
  }

  // ---- the package's code ------------------------------------------------------------------------------

  method Encode(valid: Validity, info: Info) returns (code: Option<bytes>)
    ensures code == EncodeInfo(valid, info)
  {
    hide Digits, PutUvarint, PutAddrs;
    if !valid.id(info.id) {
      return None;
    }
    var buf := PutUvarint(|info.id|);
    buf := buf + info.id;
    buf := buf + PutUvarint(|info.addrs|);
    ghost var head := buf;
    assert info.addrs[0..] == info.addrs;
    for i := 0 to |info.addrs|
      invariant buf + PutAddrs(info.addrs[i..]) == head + PutAddrs(info.addrs)
    {
      var a := info.addrs[i];
      AddrsStep(info.addrs, i);
      ghost var rest := PutAddrs(info.addrs[i + 1..]);
      assert buf + (PutUvarint(|a|) + a + rest) == (buf + PutUvarint(|a|) + a) + rest;
      buf := buf + PutUvarint(|a|);
      buf := buf + a;
    }
    NoAddrs(info.addrs);
    assert buf == head + PutAddrs(info.addrs);
    assert buf == Payload(info);
    code := Some(PREFIX + Digits(buf));
  }

  lemma AddrsStep(addrs: seq<bytes>, i: nat)
    requires i < |addrs|
    ensures PutAddrs(addrs[i..]) == PutUvarint(|addrs[i]|) + addrs[i] + PutAddrs(addrs[i + 1..])
  {
    assert addrs[i..][1..] == addrs[i + 1..];
  }

  lemma NoAddrs(addrs: seq<bytes>)
    ensures PutAddrs(addrs[|addrs|..]) == []
  {
  }

  method Decode(valid: Validity, code: bytes) returns (info: Option<Info>)
    ensures info == DecodeCode(valid, code)
  {
    hide FromDigits, Trim, ReadChunk, ReadCount, ReadAddrs;
    var c := Trim(code);
    if !(PREFIX <= c) {
      return None;
    }
    var payload := FromDigits(c[|PREFIX|..]);
    if payload.None? {
      return None;
    }
    var id := ReadChunk(payload.value);
    if id.None? || !valid.id(id.value.value) {
      return None;
    }
    var n := ReadCount(id.value.rest);
    if n.None? {
      return None;
    }
    var addrs, buf := [], n.value.rest;
    ghost var all := ReadAddrs(valid, buf, n.value.value);
    NothingBefore(all);
    var i := 0;
    while i < n.value.value
      invariant i <= n.value.value
      invariant all == After(addrs, ReadAddrs(valid, buf, n.value.value - i))
    {
      AddrsReadStep(valid, buf, n.value.value - i);
      var chunk := ReadChunk(buf);
      if chunk.None? || !valid.addr(chunk.value.value) {
        return None;
      }
      OneMoreBefore(addrs, chunk.value.value, ReadAddrs(valid, chunk.value.rest, n.value.value - i - 1));
      addrs, buf, i := addrs + [chunk.value.value], chunk.value.rest, i + 1;
    }
    NothingToRead(valid, buf);
    assert addrs + [] == addrs;
    if buf != [] {
      return None;
    }
    return Some(Info(id.value.value, addrs));
  }

  /** What has been read, once `before` is put in front of what is still to be read. */
  function After(before: seq<bytes>, rest: Option<Popped<seq<bytes>>>): Option<Popped<seq<bytes>>> {
    match rest
    case None => None
    case Some(r) => Some(Popped(before + r.value, r.rest))
  }

  lemma NothingBefore(rest: Option<Popped<seq<bytes>>>)
    ensures After([], rest) == rest
  {
    assert rest.Some? ==> [] + rest.value.value == rest.value.value;
  }

  lemma OneMoreBefore(before: seq<bytes>, c: bytes, rest: Option<Popped<seq<bytes>>>)
    ensures After(before, After([c], rest)) == After(before + [c], rest)
  {
    assert rest.Some? ==> before + ([c] + rest.value.value) == before + [c] + rest.value.value;
  }

  lemma AddrsReadStep(valid: Validity, b: bytes, n: nat)
    requires n > 0
    ensures ReadAddrs(valid, b, n)
         == match ReadChunk(b)
            case None => None
            case Some(c) =>
              if !valid.addr(c.value) then None else After([c.value], ReadAddrs(valid, c.rest, n - 1))
  {
    hide ReadChunk;
  }

  lemma NothingToRead(valid: Validity, b: bytes)
    ensures ReadAddrs(valid, b, 0) == Some(Popped([], b))
  {
  }
}
