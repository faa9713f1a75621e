/** The executor's request loop on one stream (`serveFS` in internal/executor): the file service behind the codec. */
module FileServer {
  import opened Bytes
  import opened Streams
  import opened Protocol
  import opened FileService
  import R = Responses

  /** What a stream's loop leaves: the host's files, the open handles, and everything it answered. */
  datatype Loop = Loop(store: Store, handles: Handles, out: bytes)

  predicate FilesOnly(qs: seq<Request>) { forall i :: 0 <= i < |qs| ==> OnFiles(qs[i].op) }

  /** Serves requests off `input` until it ends, breaks or holds something undecodable, or a reply fits no frame.
      `inos(k)` is the inode the host would give a file created by request `k`. */
  function ServeBytes(s: Store, h: Handles, input: bytes, k: nat, inos: nat -> Ino): Loop
    requires FilesOnly(ReadRequests(input).requests)
    decreases |input|
  {
    match ParseFrame(input)
    case Body(body, rest) =>
      (match DecodeRequest(body)
       case None => Loop(s, h, [])
       case Some(q) =>
         FirstRequest(input);
         var o := Serve(s, h, q, inos(k));
         if !R.Sendable(q.op, o.reply) then Loop(o.store, o.handles, [])
         else
           var more := ServeBytes(o.store, o.handles, rest, k + 1, inos);
           more.(out := R.ResponseFrame(q.op, o.reply) + more.out))
    case _ => Loop(s, h, [])
  }

  lemma FirstRequest(input: bytes)
    requires FilesOnly(ReadRequests(input).requests)
    ensures var f := ParseFrame(input);
            f.Body? && DecodeRequest(f.body).Some? ==>
              OnFiles(DecodeRequest(f.body).value.op) && FilesOnly(ReadRequests(f.rest).requests)
  {
    hide ParseFrame, DecodeRequest, OnFiles;
    var f := ParseFrame(input);
    if f.Body? && DecodeRequest(f.body).Some? {
      var all := ReadRequests(input).requests;
      assert all == [DecodeRequest(f.body).value] + ReadRequests(f.rest).requests;
      assert OnFiles(all[0].op);
      forall i | 0 <= i < |ReadRequests(f.rest).requests|
        ensures OnFiles(ReadRequests(f.rest).requests[i].op)
      {
        assert all[i + 1] == ReadRequests(f.rest).requests[i];
      }
    }
  }

  /** The loop of one stream. However it ends, no handle stays open. */
  method ServeFS(r: Reader, w: Writer, fs: FSService, inos: nat -> Ino)
    requires FilesOnly(ReadRequests(r.rest).requests)
    modifies r, w, fs, fs.host
    ensures var l := ServeBytes(old(fs.host.Now()), old(fs.Now()), old(r.rest), 0, inos);
            fs.host.Now() == l.store && w.out == old(w.out) + l.out && fs.Now() == Handles(map[], l.handles.next)
  {
    hide ParseFrame, DecodeRequest, ReadRequests, ServeBytes, Serve, R.Sendable, R.ResponseFrame, FilesOnly;
    ghost var l := ServeBytes(fs.host.Now(), fs.Now(), r.rest, 0, inos);
    var k := 0;
    while true
      invariant FilesOnly(ReadRequests(r.rest).requests)
      invariant ServeBytes(fs.host.Now(), fs.Now(), r.rest, k, inos).store == l.store
      invariant ServeBytes(fs.host.Now(), fs.Now(), r.rest, k, inos).handles == l.handles
      invariant w.out + ServeBytes(fs.host.Now(), fs.Now(), r.rest, k, inos).out == old(w.out) + l.out
      decreases |r.rest|
    {
      ghost var input, s, h := r.rest, fs.host.Now(), fs.Now();
      OneRound(s, h, input, k, inos);
      var q := ReadRequest(r);
      if q.None? {
        break;
      }
      FirstRequest(input);
      FramesShrink(input);
      var reply := fs.Handle(q.value, inos(k));
      var ok := R.WriteResponse(w, q.value.op, reply);
      if !ok {
        break;
      }
      k := k + 1;
    }
    assert w.out == old(w.out) + l.out;
    fs.CloseAll();
  }

  lemma FramesShrink(input: bytes)
    ensures ParseFrame(input).Body? ==> |ParseFrame(input).rest| < |input|
  {
    hide FromBE32;
  }

  lemma OneRound(s: Store, h: Handles, input: bytes, k: nat, inos: nat -> Ino)
    requires FilesOnly(ReadRequests(input).requests)
    ensures var f := ParseFrame(input);
            if !f.Body? || DecodeRequest(f.body).None? then ServeBytes(s, h, input, k, inos) == Loop(s, h, [])
            else
              var q := DecodeRequest(f.body).value;
              && OnFiles(q.op) && FilesOnly(ReadRequests(f.rest).requests)
              && var o := Serve(s, h, q, inos(k));
                 ServeBytes(s, h, input, k, inos)
                 == if !R.Sendable(q.op, o.reply) then Loop(o.store, o.handles, [])
                    else var more := ServeBytes(o.store, o.handles, f.rest, k + 1, inos);
                         more.(out := R.ResponseFrame(q.op, o.reply) + more.out)
  {
    hide ParseFrame, DecodeRequest, Serve, R.Sendable, R.ResponseFrame, FilesOnly;
    FirstRequest(input);
  }

  // ---- a remote service is a local one -----------------------------------------------------------------

  datatype Direct = Direct(store: Store, handles: Handles, replies: seq<Response>)

  /** The same requests handed to the service directly. */
  function ServeAll(s: Store, h: Handles, qs: seq<Request>, k: nat, inos: nat -> Ino): (d: Direct)
    requires FilesOnly(qs)
    ensures |d.replies| == |qs|
    decreases |qs|
  {
    if qs == [] then Direct(s, h, [])
    else
      assert OnFiles(qs[0].op) && FilesOnly(qs[1..]);
      var o := Serve(s, h, qs[0], inos(k));
      var more := ServeAll(o.store, o.handles, qs[1..], k + 1, inos);
      more.(replies := [o.reply] + more.replies)
  }

  function OpsOf(qs: seq<Request>): (ops: seq<byte>)
    ensures |ops| == |qs|
  {
    if qs == [] then [] else [qs[0].op] + OpsOf(qs[1..])
  }

  ghost predicate Fitting(s: Store, h: Handles, qs: seq<Request>, k: nat, inos: nat -> Ino)
    requires FilesOnly(qs)
  {
    forall i :: 0 <= i < |qs| ==>
      Protocol.Sendable(qs[i]) && R.Sendable(qs[i].op, ServeAll(s, h, qs, k, inos).replies[i])
  }

  lemma {:induction false} LoopIsDirect(s: Store, h: Handles, qs: seq<Request>, k: nat, inos: nat -> Ino)
    requires FilesOnly(qs) && Fitting(s, h, qs, k, inos)
    ensures FilesOnly(ReadRequests(RequestStream(qs)).requests)
    ensures var d := ServeAll(s, h, qs, k, inos);
            ServeBytes(s, h, RequestStream(qs), k, inos)
            == Loop(d.store, d.handles, R.ResponseStream(OpsOf(qs), d.replies))
    decreases |qs|
  {
    hide ParseFrame, DecodeRequest, Serve, R.Sendable, Protocol.Sendable, R.ResponseFrame, RequestFrame, Relevant;
    hide OnFiles;
    if qs == [] {
      NothingIsEnd();
    } else {
      var q := qs[0];
      assert Protocol.Sendable(q) && R.Sendable(q.op, ServeAll(s, h, qs, k, inos).replies[0]) && OnFiles(q.op);
      var o := Serve(s, h, q, inos(k));
      RequestFrameRoundTrip(q, RequestStream(qs[1..]));
      RelevantOp(q);
      RelayedRequest(s, h, q, inos(k));
      assert FilesOnly(qs[1..]);
      var d, e := ServeAll(s, h, qs, k, inos), ServeAll(o.store, o.handles, qs[1..], k + 1, inos);
      assert d.replies[1..] == e.replies && d.replies[0] == o.reply;
      FittingRest(s, h, qs, k, inos);
      LoopIsDirect(o.store, o.handles, qs[1..], k + 1, inos);
      OneRound(s, h, RequestStream(qs), k, inos);
    }
  }

  lemma FittingRest(s: Store, h: Handles, qs: seq<Request>, k: nat, inos: nat -> Ino)
    requires FilesOnly(qs) && Fitting(s, h, qs, k, inos) && qs != []
    ensures OnFiles(qs[0].op) && FilesOnly(qs[1..])
    ensures var o := Serve(s, h, qs[0], inos(k)); Fitting(o.store, o.handles, qs[1..], k + 1, inos)
  {
    hide Serve, R.Sendable, Protocol.Sendable, OnFiles;
    assert OnFiles(qs[0].op);
    var o := Serve(s, h, qs[0], inos(k));
    var d, e := ServeAll(s, h, qs, k, inos), ServeAll(o.store, o.handles, qs[1..], k + 1, inos);
    forall i | 0 <= i < |qs[1..]|
      ensures Protocol.Sendable(qs[1..][i]) && R.Sendable(qs[1..][i].op, e.replies[i])
    {
      assert qs[1..][i] == qs[i + 1] && e.replies[i] == d.replies[i + 1];
    }
  }

  lemma RelevantOp(q: Request)
    ensures Relevant(q).op == q.op
  {
  }

  lemma {:induction false} RepliesArriveWhole(s: Store, h: Handles, qs: seq<Request>, k: nat, inos: nat -> Ino)
    requires FilesOnly(qs)
    ensures R.AllDelivered(OpsOf(qs), ServeAll(s, h, qs, k, inos).replies) == ServeAll(s, h, qs, k, inos).replies
    decreases |qs|
  {
    hide Serve, R.Delivered, OnFiles;
    if qs != [] {
      assert OnFiles(qs[0].op);
      var o := Serve(s, h, qs[0], inos(k));
      RelayedReply(s, h, qs[0], inos(k));
      RepliesArriveWhole(o.store, o.handles, qs[1..], k + 1, inos);
      assert FilesOnly(qs[1..]);
      var d, e := ServeAll(s, h, qs, k, inos), ServeAll(o.store, o.handles, qs[1..], k + 1, inos);
      assert d.replies[1..] == e.replies && d.replies[0] == o.reply;
      assert OpsOf(qs)[0] == qs[0].op && OpsOf(qs)[1..] == OpsOf(qs[1..]);
    }
  }

  /** A client that writes requests to an executor's stream reads back exactly the replies that the service would have
      given it directly, and the files and handles end up the same. */
  lemma RemoteServiceIsLocal(s: Store, h: Handles, qs: seq<Request>, inos: nat -> Ino)
    requires FilesOnly(qs) && Fitting(s, h, qs, 0, inos)
    ensures FilesOnly(ReadRequests(RequestStream(qs)).requests)
    ensures var l, d := ServeBytes(s, h, RequestStream(qs), 0, inos), ServeAll(s, h, qs, 0, inos);
            && l.store == d.store && l.handles == d.handles
            && R.ReadResponses(OpsOf(qs), l.out) == Some(d.replies)
  {
    hide ServeBytes, ServeAll, OpsOf, R.ReadResponses, R.Sendable, FilesOnly, Protocol.Sendable;
    LoopIsDirect(s, h, qs, 0, inos);
    RepliesArriveWhole(s, h, qs, 0, inos);
    OpsMatch(qs);
    var d := ServeAll(s, h, qs, 0, inos);
    R.ResponseStreamRoundTrip(OpsOf(qs), d.replies);
  }

  lemma {:induction false} OpsMatch(qs: seq<Request>)
    ensures forall i :: 0 <= i < |qs| ==> OpsOf(qs)[i] == qs[i].op
  {
    if qs != [] {
      OpsMatch(qs[1..]);
    }
  }
}
