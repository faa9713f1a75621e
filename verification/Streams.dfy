/** The two ends of a byte stream, as the readers and writers of the wire formats use them. */
module Streams {
  import opened Bytes

  /** What `io.ReadFull` returns: `EOF` when nothing at all could be read, `UnexpectedEOF` for a short read. */
  datatype ReadFullResult = Full(data: bytes) | EOF | UnexpectedEOF

  function ReadFullOf(b: bytes, n: nat): (r: ReadFullResult)
    ensures r.Full? <==> n <= |b|
    ensures r.Full? ==> r.data == b[..n]
    ensures r.EOF? <==> b == [] && 0 < n
  {
    if n <= |b| then Full(b[..n]) else if b == [] then EOF else UnexpectedEOF
  }

  class Writer {
    var out: bytes

    constructor ()
      ensures out == []
    {
      out := [];
    }

    method Write(p: bytes)
      modifies this
      ensures out == old(out) + p
    {
      out := out + p;
    }
  }

  /** A stream whose peer has sent `rest` and then closed. */
  class Reader {
    var rest: bytes

    constructor (content: bytes)
      ensures rest == content
    {
      rest := content;
    }

    method ReadFull(n: nat) returns (r: ReadFullResult)
      modifies this
      ensures r == ReadFullOf(old(rest), n)
      ensures rest == if r.Full? then old(rest)[n..] else []
    {
      r := ReadFullOf(rest, n);
      rest := if r.Full? then rest[n..] else [];
    }

    /** One `Read` into a buffer of `max` bytes: any non-empty part of what is available, or end of file. */
    method Read(max: nat) returns (data: bytes, eof: bool)
      requires 0 < max
      modifies this
      ensures data + rest == old(rest)
      ensures |data| <= max
      ensures eof <==> old(rest) == []
      ensures !eof ==> data != []
    {
      if rest == [] {
        return [], true;
      }
      var k :| 1 <= k <= max && k <= |rest|;
      data, eof := rest[..k], false;
      rest := rest[k..];
    }
  }
}
