/** The adapter's session (internal/adapter): requests routed to the brain host or to the executor behind one handle
    space, and the single file service on the merged files that it stands for. */
module Session {
  import opened Bytes
  import opened Paths
  import opened Protocol
  import opened Responses
  import opened Routing
  import opened FileService

  datatype Ref = Ref(remote: bool, id: uint64)

  datatype Stores = Stores(local: Store, remote: Store)

  /** One interceptor connection: the handles open on each side and the adapter's own numbering of them. */
  datatype Conn = Conn(local: Handles, remote: Handles, refs: map<uint64, Ref>, next: uint64)

  const NEW_CONN := Conn(NO_HANDLES, NO_HANDLES, map[], 1)

  function Side(w: Stores, far: bool): Store { if far then w.remote else w.local }

  function WithSide(w: Stores, far: bool, s: Store): Stores { if far then w.(remote := s) else w.(local := s) }

  function On(c: Conn, far: bool): Handles { if far then c.remote else c.local }

  function WithOn(c: Conn, far: bool, h: Handles): Conn { if far then c.(remote := h) else c.(local := h) }

  // ---- what a session does -----------------------------------------------------------------------------

  datatype Answer = Answer(stores: Stores, conn: Conn, reply: Response)

  /** A request served on one side. On the far side it arrives reduced to its op's fields, and so does the reply. */
  function ServeOn(w: Stores, c: Conn, far: bool, q: Request, newIno: Ino): Answer
    requires OnFiles(q.op)
  {
    var o := Serve(Side(w, far), On(c, far), if far then Relevant(q) else q, newIno);
    Answer(WithSide(w, far, o.store), WithOn(c, far, o.handles), if far then Delivered(q.op, o.reply) else o.reply)
  }

  predicate ByHandle(op: byte) { op == OP_PREAD || op == OP_PWRITE || op == OP_CLOSE }

  predicate Opens(op: byte) { op == OP_OPEN || op == OP_CREATE }

  /** A rename from one side to the other. */
  predicate Crosses(t: Table, q: Request) { q.op == OP_RENAME && IsRemote(t, q.path) != IsRemote(t, q.path2) }

  /** The ops a session is asked for here; it refuses SERVERINFO and unknown ones. */
  predicate Routed(op: byte) { op != OP_MKDIR && op != OP_READDIR }

  function Numbered(a: Answer, far: bool): Answer {
    var c := a.conn;
    a.(conn := c.(refs := c.refs[c.next := Ref(far, a.reply.handle)], next := Next(c.next)),
       reply := a.reply.(handle := c.next))
  }

  function SessionServe(t: Table, w: Stores, c: Conn, q: Request, newIno: Ino): Answer
    requires Routed(q.op)
  {
    if q.op == OP_SERVERINFO then Answer(w, c, Reply(EINVAL))
    else if Crosses(t, q) then Answer(w, c, Reply(EXDEV))
    else if Opens(q.op) then
      var a := ServeOn(w, c, IsRemote(t, q.path), q, newIno);
      if a.reply.err != 0 then a else Numbered(a, IsRemote(t, q.path))
    else if ByHandle(q.op) then
      if q.handle !in c.refs then Answer(w, c, Reply(EBADF))
      else
        var ref := c.refs[q.handle];
        var c' := if q.op == OP_CLOSE then c.(refs := c.refs - {q.handle}) else c;
        ServeOn(w, c', ref.remote, q.(handle := ref.id), newIno)
    else ServeOn(w, c, IsRemote(t, q.path), q, newIno)
  }

  // ---- the one service it stands for -------------------------------------------------------------------

  /** The files a session shows: each name as the side it is routed to has it. */
  function Merge(t: Table, w: Stores): Store {
    Store(map k | k in w.local.names.Keys + w.remote.names.Keys && k in Side(w, IsRemote(t, k)).names
                :: Side(w, IsRemote(t, k)).names[k],
          w.local.data + w.remote.data)
  }

  /** The handles a session shows, each standing for the file open on its side. */
  function MergeHandles(c: Conn): Handles {
    Handles(map a | a in c.refs && c.refs[a].id in On(c, c.refs[a].remote).open
                  :: On(c, c.refs[a].remote).open[c.refs[a].id],
            c.next)
  }

  /** What the single service answers; a rename across the boundary is refused and SERVERINFO is not offered. */
  function MergedServe(t: Table, s: Store, h: Handles, q: Request, newIno: Ino): Outcome
    requires Routed(q.op)
  {
    if q.op == OP_SERVERINFO then Outcome(s, h, Reply(EINVAL))
    else if Crosses(t, q) then Outcome(s, h, Reply(EXDEV))
    else Serve(s, h, q, newIno)
  }

  ghost predicate ValidStores(w: Stores) {
    ValidStore(w.local) && ValidStore(w.remote) && w.local.data.Keys !! w.remote.data.Keys
  }

  /** The adapter's handles and the live handles of the two sides are in bijection, and every counter is ahead of
      the handles it gave out. */
  ghost predicate ValidConn(c: Conn) { ValidRefs(c) && ValidSide(c, false) && ValidSide(c, true) }

  ghost predicate ValidRefs(c: Conn) {
    && (forall a :: a in c.refs ==> c.refs[a].id in On(c, c.refs[a].remote).open && 1 <= a < c.next)
    && (forall a, b :: a in c.refs && b in c.refs && c.refs[a] == c.refs[b] ==> a == b)
  }

  ghost predicate ValidSide(c: Conn, far: bool) {
    && (forall h :: h in On(c, far).open ==> 1 <= h < On(c, far).next && Wrapped(c, far, h))
    && 1 <= On(c, far).next <= c.next
  }

  ghost predicate Wrapped(c: Conn, far: bool, h: uint64) { exists a :: a in c.refs && c.refs[a] == Ref(far, h) }

  ghost predicate Open(w: Stores, c: Conn) {
    ValidHandles(w.local, c.local) && ValidHandles(w.remote, c.remote)
  }

  ghost predicate Fresh(w: Stores, newIno: Ino) { newIno !in w.local.data && newIno !in w.remote.data }

  // ---- one step ----------------------------------------------------------------------------------------

  lemma ServeOnIsServe(w: Stores, c: Conn, far: bool, q: Request, newIno: Ino)
    requires OnFiles(q.op)
    ensures var o, a := Serve(Side(w, far), On(c, far), q, newIno), ServeOn(w, c, far, q, newIno);
            a == Answer(WithSide(w, far, o.store), WithOn(c, far, o.handles), o.reply)
  {
    hide Serve, Relevant, Delivered;
    RelayedRequest(Side(w, far), On(c, far), q, newIno);
    RelayedReply(Side(w, far), On(c, far), q, newIno);
  }

  lemma RouteOfKey(t: Table, path: bytes)
    requires path != []
    ensures Clean(path) != [] && IsRemote(t, Clean(path)) == IsRemote(t, path)
  {
    hide Clean, UnderAny;
    CleanIsIdempotent(path);
    CleanIsNotEmpty(path);
  }

  lemma ContentOfMerge(t: Table, w: Stores, far: bool, i: Ino)
    requires ValidStores(w) && i in Side(w, far).data
    ensures Content(Merge(t, w), i) == Content(Side(w, far), i)
  {
    hide IsRemote;
  }

  /** A path names in the merged files what it names on the side it is routed to. */
  lemma FindInMerge(t: Table, w: Stores, path: bytes)
    requires ValidStores(w)
    ensures Find(Merge(t, w), path) == Find(Side(w, IsRemote(t, path)), path)
  {
    hide Clean, IsRemote, Content;
    if path != [] {
      RouteOfKey(t, path);
      var far, k := IsRemote(t, path), Clean(path);
      if k in Side(w, far).names {
        ContentOfMerge(t, w, far, Side(w, far).names[k]);
      }
    }
  }

  lemma HeldInMerge(t: Table, w: Stores, c: Conn, a: uint64)
    requires ValidStores(w) && Open(w, c) && ValidConn(c)
    ensures HeldAt(Merge(t, w), MergeHandles(c), a)
         == if a in c.refs then HeldAt(Side(w, c.refs[a].remote), On(c, c.refs[a].remote), c.refs[a].id) else None
  {
    hide IsRemote, Content, Merge;
    if a in c.refs {
      var far, h := c.refs[a].remote, c.refs[a].id;
      ContentOfMerge(t, w, far, On(c, far).open[h].ino);
    }
  }

  /** An effect that touches names and files of one side only. */
  ghost predicate OnSide(t: Table, w: Stores, far: bool, e: Effect) {
    match e
    case Keep => true
    case Put(i, _) => i !in Side(w, !far).data
    case Create(k, i, _) => IsRemote(t, k) == far && i !in Side(w, !far).data
    case Unbind(k) => IsRemote(t, k) == far
    case Move(from, to) => IsRemote(t, from) == far && IsRemote(t, to) == far
  }

  lemma NameInMerge(t: Table, w: Stores, k: bytes)
    ensures k in Merge(t, w).names <==> k in Side(w, IsRemote(t, k)).names
    ensures k in Merge(t, w).names ==> Merge(t, w).names[k] == Side(w, IsRemote(t, k)).names[k]
  {
    hide IsRemote;
  }

  lemma SideAfter(w: Stores, far: bool, s: Store)
    ensures Side(WithSide(w, far, s), far) == s && Side(WithSide(w, far, s), !far) == Side(w, !far)
  {
  }

  /** Such an effect on its side has the same effect on the merged files. */
  lemma ApplyInMerge(t: Table, w: Stores, far: bool, e: Effect)
    requires OnSide(t, w, far, e)
    ensures Merge(t, WithSide(w, far, Apply(Side(w, far), e))) == Apply(Merge(t, w), e)
  {
    hide IsRemote, Apply, Merge, OnSide, WithSide;
    var w' := WithSide(w, far, Apply(Side(w, far), e));
    var a, b := Merge(t, w'), Apply(Merge(t, w), e);
    DataAfter(t, w, far, e);
    forall k
      ensures k in a.names <==> k in b.names
      ensures k in a.names ==> a.names[k] == b.names[k]
    {
      NameAfter(t, w, far, e, k);
    }
    assert a.names == b.names;
  }

  function DataOf(data: map<Ino, bytes>, e: Effect): map<Ino, bytes> {
    if e.Put? || e.Create? then data[e.ino := e.content] else data
  }

  lemma ApplyToData(s: Store, e: Effect)
    ensures Apply(s, e).data == DataOf(s.data, e)
  {
  }

  lemma JoinAfter(a: map<Ino, bytes>, b: map<Ino, bytes>, e: Effect)
    ensures (e.Put? || e.Create? ==> e.ino !in b) ==> DataOf(a, e) + b == DataOf(a + b, e)
    ensures a + DataOf(b, e) == DataOf(a + b, e)
  {
  }

  lemma DataInMerge(t: Table, w: Stores)
    ensures Merge(t, w).data == w.local.data + w.remote.data
  {
  }

  lemma DataAfter(t: Table, w: Stores, far: bool, e: Effect)
    requires OnSide(t, w, far, e)
    ensures Merge(t, WithSide(w, far, Apply(Side(w, far), e))).data == Apply(Merge(t, w), e).data
  {
    hide IsRemote, Merge, Apply, DataOf;
    ApplyToData(Side(w, far), e);
    ApplyToData(Merge(t, w), e);
    DataInMerge(t, w);
    DataInMerge(t, WithSide(w, far, Apply(Side(w, far), e)));
    JoinAfter(w.local.data, w.remote.data, e);
  }

  lemma NameAfter(t: Table, w: Stores, far: bool, e: Effect, k: bytes)
    requires OnSide(t, w, far, e)
    ensures var a, b := Merge(t, WithSide(w, far, Apply(Side(w, far), e))).names, Apply(Merge(t, w), e).names;
            && (k in a <==> k in b)
            && (k in a ==> a[k] == b[k])
  {
    hide IsRemote, Merge, WithSide;
    var w' := WithSide(w, far, Apply(Side(w, far), e));
    SideAfter(w, far, Apply(Side(w, far), e));
    NameInMerge(t, w, k);
    NameInMerge(t, w', k);
    if e.Move? {
      NameInMerge(t, w, e.from);
    }
    if IsRemote(t, k) == far {
      NameAfterHere(t, w, far, e, k);
    } else {
      assert Side(w', IsRemote(t, k)) == Side(w, IsRemote(t, k));
      NameAfterThere(t, w, far, e, k);
    }
  }

  lemma NameAfterHere(t: Table, w: Stores, far: bool, e: Effect, k: bytes)
    requires OnSide(t, w, far, e) && IsRemote(t, k) == far
    ensures var a, b := Apply(Side(w, far), e).names, Apply(Merge(t, w), e).names;
            && (k in a <==> k in b)
            && (k in a ==> a[k] == b[k])
  {
    hide IsRemote, Merge;
    NameInMerge(t, w, k);
    if e.Move? {
      NameInMerge(t, w, e.from);
    }
  }

  lemma NameAfterThere(t: Table, w: Stores, far: bool, e: Effect, k: bytes)
    requires OnSide(t, w, far, e) && IsRemote(t, k) != far
    ensures var a, b := Merge(t, w).names, Apply(Merge(t, w), e).names;
            && (k in a <==> k in b)
            && (k in a ==> a[k] == b[k])
  {
    hide IsRemote, Merge;
  }

  /** What a request does to files happens on the side it is routed to. */
  lemma DecisionIsOnSide(t: Table, w: Stores, far: bool, q: Request, h: Handles, newIno: Ino)
    requires ValidStores(w) && ValidHandles(Side(w, far), h) && Fresh(w, newIno) && OnFiles(q.op)
    requires ByHandle(q.op) || far == IsRemote(t, q.path)
    requires q.op == OP_RENAME ==> far == IsRemote(t, q.path2)
    ensures var s := Side(w, far);
            OnSide(t, w, far, Decide(q, Find(s, q.path), Find(s, q.path2), HeldAt(s, h, q.handle), newIno).effect)
  {
    hide Clean, IsRemote, Has, With, Resize, Overwrite, Slice, SizeOf, Content;
    if q.path != [] {
      RouteOfKey(t, q.path);
    }
    if q.path2 != [] {
      RouteOfKey(t, q.path2);
    }
  }

  /** A request by path does not depend on handles, and only a rename on its second path. */
  lemma DecisionByPath(q: Request, found: Option<Found>, found2: Option<Found>, other2: Option<Found>,
                       held: Option<Held>, otherHeld: Option<Held>, newIno: Ino)
    requires OnFiles(q.op) && !ByHandle(q.op) && (q.op == OP_RENAME ==> found2 == other2)
    ensures Decide(q, found, found2, held, newIno) == Decide(q, found, other2, otherHeld, newIno)
    ensures !Decide(q, found, found2, held, newIno).handles.Closed?
    ensures Decide(q, found, found2, held, newIno).handles.Opened? <==>
              Opens(q.op) && Decide(q, found, found2, held, newIno).reply.err == 0
  {
    hide Clean, Has, With, Resize, SizeOf;
  }

  lemma DecisionByHandle(q: Request, id: uint64, found: Option<Found>, found2: Option<Found>, other: Option<Found>,
                         other2: Option<Found>, held: Option<Held>, newIno: Ino)
    requires OnFiles(q.op) && ByHandle(q.op)
    ensures Decide(q, found, found2, held, newIno) == Decide(q.(handle := id), other, other2, held, newIno)
    ensures !Decide(q, found, found2, held, newIno).handles.Opened?
    ensures held.Some? ==> (Decide(q, found, found2, held, newIno).handles.Closed? <==> q.op == OP_CLOSE)
    ensures held.None? ==> Decide(q, found, found2, held, newIno) == Fail(EBADF)
  {
    hide Overwrite, Slice, SizeOf;
  }

  lemma HandleInMerge(c: Conn, k: uint64)
    ensures k in MergeHandles(c).open <==> k in c.refs && c.refs[k].id in On(c, c.refs[k].remote).open
    ensures k in MergeHandles(c).open ==>
              MergeHandles(c).open[k] == On(c, c.refs[k].remote).open[c.refs[k].id]
  {
  }

  function ConnAfterOpen(c: Conn, far: bool, f: OpenFile): Conn {
    var h := On(c, far);
    WithOn(c, far, Handles(h.open[h.next := f], Next(h.next))).(refs := c.refs[c.next := Ref(far, h.next)],
                                                                next := Next(c.next))
  }

  function ConnAfterClose(c: Conn, n: uint64): Conn
    requires n in c.refs
  {
    var h := On(c, c.refs[n].remote);
    WithOn(c.(refs := c.refs - {n}), c.refs[n].remote, h.(open := h.open - {c.refs[n].id}))
  }

  /** Opening a handle on one side and numbering it opens that number on the merged service. */
  lemma HandlesAfterOpen(c: Conn, far: bool, f: OpenFile, q: Request)
    requires ValidConn(c) && c.next + 1 < TWO64
    ensures MergeHandles(ConnAfterOpen(c, far, f)) == ApplyHandles(MergeHandles(c), Opened(f), q.handle)
  {
    hide MergeHandles, ValidConn, ConnAfterOpen;
    var a, b := MergeHandles(ConnAfterOpen(c, far, f)), ApplyHandles(MergeHandles(c), Opened(f), q.handle);
    NextOfMerge(c);
    NextOfMerge(ConnAfterOpen(c, far, f));
    forall k
      ensures k in a.open <==> k in b.open
      ensures k in a.open ==> a.open[k] == b.open[k]
    {
      HandleAfterOpen(c, far, f, k);
    }
    assert a.open == b.open;
    assert a.next == b.next by {
      NumberAfterOpen(c, far, f);
    }
  }

  lemma NumberAfterOpen(c: Conn, far: bool, f: OpenFile)
    ensures ConnAfterOpen(c, far, f).next == Next(c.next)
  {
  }

  lemma HandleAfterOpen(c: Conn, far: bool, f: OpenFile, k: uint64)
    requires ValidConn(c) && c.next + 1 < TWO64
    ensures k in MergeHandles(ConnAfterOpen(c, far, f)).open <==> k == c.next || k in MergeHandles(c).open
    ensures k in MergeHandles(ConnAfterOpen(c, far, f)).open && k == c.next ==>
              MergeHandles(ConnAfterOpen(c, far, f)).open[k] == f
    ensures k in MergeHandles(ConnAfterOpen(c, far, f)).open && k != c.next ==>
              MergeHandles(ConnAfterOpen(c, far, f)).open[k] == MergeHandles(c).open[k]
  {
    hide MergeHandles;
    HandleInMerge(c, k);
    HandleInMerge(ConnAfterOpen(c, far, f), k);
    var h := On(c, far);
    assert h.next !in h.open;
    assert On(ConnAfterOpen(c, far, f), far).open == h.open[h.next := f];
    assert On(ConnAfterOpen(c, far, f), !far) == On(c, !far);
  }

  /** Closing a handle on its side and forgetting its number closes that number on the merged service. */
  lemma HandlesAfterClose(c: Conn, n: uint64)
    requires ValidConn(c) && n in c.refs
    ensures MergeHandles(ConnAfterClose(c, n)) == ApplyHandles(MergeHandles(c), Closed, n)
  {
    hide MergeHandles, ValidConn, ConnAfterClose;
    var a, b := MergeHandles(ConnAfterClose(c, n)), ApplyHandles(MergeHandles(c), Closed, n);
    NextOfMerge(c);
    NextOfMerge(ConnAfterClose(c, n));
    forall k
      ensures k in a.open <==> k in b.open
      ensures k in a.open ==> a.open[k] == b.open[k]
    {
      HandleAfterClose(c, n, k);
    }
    assert a.open == b.open;
    assert a.next == b.next by {
      NumberAfterClose(c, n);
    }
  }

  lemma NumberAfterClose(c: Conn, n: uint64)
    requires n in c.refs
    ensures ConnAfterClose(c, n).next == c.next
  {
  }

  lemma HandleAfterClose(c: Conn, n: uint64, k: uint64)
    requires ValidConn(c) && n in c.refs
    ensures k in MergeHandles(ConnAfterClose(c, n)).open <==> k != n && k in MergeHandles(c).open
    ensures k in MergeHandles(ConnAfterClose(c, n)).open ==>
              MergeHandles(ConnAfterClose(c, n)).open[k] == MergeHandles(c).open[k]
  {
    hide MergeHandles;
    HandleInMerge(c, k);
    HandleInMerge(ConnAfterClose(c, n), k);
    var far := c.refs[n].remote;
    var h := On(c, far);
    assert On(ConnAfterClose(c, n), far).open == h.open - {c.refs[n].id};
    assert On(ConnAfterClose(c, n), !far) == On(c, !far);
  }

  ghost predicate Refines(t: Table, w: Stores, c: Conn, q: Request, newIno: Ino)
    requires Routed(q.op)
  {
    var a := SessionServe(t, w, c, q, newIno);
    Outcome(Merge(t, a.stores), MergeHandles(a.conn), a.reply)
      == MergedServe(t, Merge(t, w), MergeHandles(c), q, newIno)
  }

  ghost predicate Valid(w: Stores, c: Conn) { ValidStores(w) && ValidConn(c) && Open(w, c) }

  lemma ByPathRefines(t: Table, w: Stores, c: Conn, q: Request, newIno: Ino)
    requires Valid(w, c) && Fresh(w, newIno) && OnFiles(q.op) && !Crosses(t, q)
    requires !Opens(q.op) && !ByHandle(q.op)
    ensures Refines(t, w, c, q, newIno)
  {
    hide IsRemote, Merge, MergeHandles, Apply, Decide, Find, HeldAt, ServeOn, ValidStores, ValidConn, Open, Fresh;
    var far := IsRemote(t, q.path);
    var s, h := Side(w, far), On(c, far);
    ServeOnIsServe(w, c, far, q, newIno);
    FindInMerge(t, w, q.path);
    FindInMerge(t, w, q.path2);
    var held, held' := HeldAt(s, h, q.handle), HeldAt(Merge(t, w), MergeHandles(c), q.handle);
    var d := Decide(q, Find(s, q.path), Find(s, q.path2), held, newIno);
    DecisionByPath(q, Find(s, q.path), Find(s, q.path2), Find(Merge(t, w), q.path2), held, held', newIno);
    SideIsOpen(w, c, far);
    DecisionIsOnSide(t, w, far, q, h, newIno);
    ApplyInMerge(t, w, far, d.effect);
    assert WithOn(c, far, h) == c;
  }

  lemma SideIsOpen(w: Stores, c: Conn, far: bool)
    requires Open(w, c)
    ensures ValidHandles(Side(w, far), On(c, far))
  {
  }

  lemma OpenRefines(t: Table, w: Stores, c: Conn, q: Request, newIno: Ino)
    requires Valid(w, c) && Fresh(w, newIno) && Opens(q.op) && c.next + 1 < TWO64
    ensures Refines(t, w, c, q, newIno)
  {
    hide IsRemote, Merge, MergeHandles, Apply, Decide, Find, HeldAt, ServeOn, ValidStores, ValidConn, Open, Fresh;
    var far := IsRemote(t, q.path);
    var s, h := Side(w, far), On(c, far);
    ServeOnIsServe(w, c, far, q, newIno);
    FindInMerge(t, w, q.path);
    var held, held' := HeldAt(s, h, q.handle), HeldAt(Merge(t, w), MergeHandles(c), q.handle);
    var d := Decide(q, Find(s, q.path), Find(s, q.path2), held, newIno);
    DecisionByPath(q, Find(s, q.path), Find(s, q.path2), Find(Merge(t, w), q.path2), held, held', newIno);
    SideIsOpen(w, c, far);
    DecisionIsOnSide(t, w, far, q, h, newIno);
    ApplyInMerge(t, w, far, d.effect);
    NextOfMerge(c);
    if d.handles.Opened? {
      HandlesAfterOpen(c, far, d.handles.file, q);
    } else {
      assert WithOn(c, far, h) == c;
    }
  }

  lemma NextOfMerge(c: Conn)
    ensures MergeHandles(c).next == c.next
  {
  }

  lemma ByHandleRefines(t: Table, w: Stores, c: Conn, q: Request, newIno: Ino)
    requires Valid(w, c) && Fresh(w, newIno) && ByHandle(q.op)
    ensures Refines(t, w, c, q, newIno)
  {
    hide IsRemote, Merge, MergeHandles, Apply, Decide, Find, HeldAt, ServeOn, ValidStores, ValidConn, Open, Fresh;
    HeldInMerge(t, w, c, q.handle);
    var m, mh := Merge(t, w), MergeHandles(c);
    var held := HeldAt(m, mh, q.handle);
    if q.handle !in c.refs {
      DecisionByHandle(q, q.handle, Find(m, q.path), Find(m, q.path2), None, None, held, newIno);
      assert Apply(m, Keep) == m by {
        NothingToApply(m);
      }
    } else {
      var ref := c.refs[q.handle];
      var far, q' := ref.remote, q.(handle := ref.id);
      var s, h := Side(w, far), On(c, far);
      DecisionByHandle(q, ref.id, Find(m, q.path), Find(m, q.path2), Find(s, q.path), Find(s, q.path2), held, newIno);
      var d := Decide(q', Find(s, q.path), Find(s, q.path2), held, newIno);
      SideIsOpen(w, c, far);
      DecisionIsOnSide(t, w, far, q', h, newIno);
      ApplyInMerge(t, w, far, d.effect);
      assert WithOn(c, far, h) == c;
      var c' := if q.op == OP_CLOSE then c.(refs := c.refs - {q.handle}) else c;
      ServeOnIsServe(w, c', far, q', newIno);
      assert held.Some? by {
        HandleIsHeld(w, c, q.handle);
      }
      if q.op == OP_CLOSE {
        HandlesAfterClose(c, q.handle);
      }
    }
  }

  lemma NothingToApply(s: Store)
    ensures Apply(s, Keep) == s
  {
  }

  lemma HandleIsHeld(w: Stores, c: Conn, n: uint64)
    requires ValidConn(c) && n in c.refs
    ensures HeldAt(Side(w, c.refs[n].remote), On(c, c.refs[n].remote), c.refs[n].id).Some?
  {
  }

  /** One request through a session has the effect and the reply, down to the handle number, that it would have on one
      service holding the merged files. The exception is a rename across the boundary. */
  lemma StepRefines(t: Table, w: Stores, c: Conn, q: Request, newIno: Ino)
    requires Valid(w, c) && Fresh(w, newIno) && Routed(q.op) && c.next + 1 < TWO64
    ensures Refines(t, w, c, q, newIno)
  {
    hide Valid, Fresh, Refines;
    if q.op == OP_SERVERINFO || Crosses(t, q) {
      Refused(t, w, c, q, newIno);
    } else if Opens(q.op) {
      OpenRefines(t, w, c, q, newIno);
    } else if ByHandle(q.op) {
      ByHandleRefines(t, w, c, q, newIno);
    } else {
      ByPathRefines(t, w, c, q, newIno);
    }
  }

  lemma Refused(t: Table, w: Stores, c: Conn, q: Request, newIno: Ino)
    requires q.op == OP_SERVERINFO || Crosses(t, q)
    ensures Refines(t, w, c, q, newIno)
  {
    hide Merge, MergeHandles, IsRemote;
  }

  // ---- what every step keeps ---------------------------------------------------------------------------

  lemma OpenKeepsConn(c: Conn, far: bool, f: OpenFile)
    requires ValidConn(c) && c.next + 1 < TWO64
    ensures ValidConn(ConnAfterOpen(c, far, f))
  {
    hide Wrapped, ValidRefs, ValidSide, ConnAfterOpen;
    OpenKeepsRefs(c, far, f);
    OpenKeepsSide(c, far, f, far);
    OpenKeepsSide(c, far, f, !far);
  }

  lemma SidesAfterOpen(c: Conn, far: bool, f: OpenFile)
    requires c.next + 1 < TWO64 && On(c, far).next <= c.next
    ensures var c', h := ConnAfterOpen(c, far, f), On(c, far);
            && On(c', far) == Handles(h.open[h.next := f], h.next + 1) && On(c', !far) == On(c, !far)
            && c'.refs == c.refs[c.next := Ref(far, h.next)] && c'.next == c.next + 1
  {
  }

  lemma OpenKeepsRefs(c: Conn, far: bool, f: OpenFile)
    requires ValidConn(c) && c.next + 1 < TWO64
    ensures ValidRefs(ConnAfterOpen(c, far, f))
  {
    hide Wrapped, ConnAfterOpen;
    SidesAfterOpen(c, far, f);
  }

  lemma OpenKeepsSide(c: Conn, far: bool, f: OpenFile, k: bool)
    requires ValidConn(c) && c.next + 1 < TWO64
    ensures ValidSide(ConnAfterOpen(c, far, f), k)
  {
    hide Wrapped, ConnAfterOpen, On;
    var c' := ConnAfterOpen(c, far, f);
    assert ValidSide(c, k) && ValidSide(c, far);
    SidesAfterOpen(c, far, f);
    assert c.next !in c.refs;
    forall m | m in On(c', k).open
      ensures Wrapped(c', k, m)
    {
      if k == far && m == On(c, far).next {
        WrapNew(c, far, f);
      } else {
        WrapKept(c, c', k, m);
      }
    }
  }

  lemma WrapNew(c: Conn, far: bool, f: OpenFile)
    ensures Wrapped(ConnAfterOpen(c, far, f), far, On(c, far).next)
  {
    assert ConnAfterOpen(c, far, f).refs[c.next] == Ref(far, On(c, far).next);
  }

  lemma WrapKept(c: Conn, c': Conn, k: bool, m: uint64)
    requires Wrapped(c, k, m) && forall a :: a in c.refs ==> a in c'.refs && c'.refs[a] == c.refs[a]
    ensures Wrapped(c', k, m)
  {
    var a :| a in c.refs && c.refs[a] == Ref(k, m);
    assert c'.refs[a] == Ref(k, m);
  }

  lemma CloseKeepsConn(c: Conn, n: uint64)
    requires ValidConn(c) && n in c.refs
    ensures ValidConn(ConnAfterClose(c, n))
  {
    hide Wrapped, ValidRefs, ValidSide, ConnAfterClose;
    CloseKeepsRefs(c, n);
    CloseKeepsSide(c, n, false);
    CloseKeepsSide(c, n, true);
  }

  lemma SidesAfterClose(c: Conn, n: uint64)
    requires n in c.refs
    ensures var c', far := ConnAfterClose(c, n), c.refs[n].remote;
            && On(c', far) == On(c, far).(open := On(c, far).open - {c.refs[n].id}) && On(c', !far) == On(c, !far)
            && c'.refs == c.refs - {n} && c'.next == c.next
  {
  }

  lemma CloseKeepsRefs(c: Conn, n: uint64)
    requires ValidConn(c) && n in c.refs
    ensures ValidRefs(ConnAfterClose(c, n))
  {
    hide Wrapped, ConnAfterClose, ValidSide;
    SidesAfterClose(c, n);
  }

  lemma CloseKeepsSide(c: Conn, n: uint64, k: bool)
    requires ValidConn(c) && n in c.refs
    ensures ValidSide(ConnAfterClose(c, n), k)
  {
    hide Wrapped, ConnAfterClose, ValidRefs, On;
    var c' := ConnAfterClose(c, n);
    assert ValidSide(c, k);
    SidesAfterClose(c, n);
    forall m | m in On(c', k).open
      ensures Wrapped(c', k, m)
    {
      assert Ref(k, m) != c.refs[n];
      WrapLeft(c, n, c', k, m);
    }
  }

  lemma WrapLeft(c: Conn, n: uint64, c': Conn, k: bool, m: uint64)
    requires n in c.refs && Wrapped(c, k, m) && Ref(k, m) != c.refs[n] && c'.refs == c.refs - {n}
    ensures Wrapped(c', k, m)
  {
    var a :| a in c.refs && c.refs[a] == Ref(k, m);
    assert c'.refs[a] == Ref(k, m);
  }

  /** What a decision can say about files and handles. */
  lemma DecisionIsSound(s: Store, h: Handles, q: Request, newIno: Ino)
    requires ValidStore(s) && OnFiles(q.op)
    ensures var d := Decide(q, Find(s, q.path), Find(s, q.path2), HeldAt(s, h, q.handle), newIno);
            && ValidStore(Apply(s, d.effect))
            && s.data.Keys <= Apply(s, d.effect).data.Keys <= s.data.Keys + {newIno}
                              + (if q.handle in h.open then {h.open[q.handle].ino} else {})
            && (d.handles.Opened? ==> d.handles.file.ino in Apply(s, d.effect).data)
  {
    hide Clean, Has, With, Resize, Overwrite, Slice, SizeOf, Content;
  }

  /** What a request leaves behind: files that only grew on one side, and handles as they were, with one more, or with
      one less. */
  ghost predicate Changed(w: Stores, c: Conn, q: Request, a: Answer) {
    && ValidStores(a.stores)
    && w.local.data.Keys <= a.stores.local.data.Keys && w.remote.data.Keys <= a.stores.remote.data.Keys
    && (a.conn == c
        || AddedHandle(c, a)
        || (q.op == OP_CLOSE && q.handle in c.refs && a.conn == ConnAfterClose(c, q.handle)))
  }

  ghost predicate AddedHandle(c: Conn, a: Answer) {
    && a.reply.err == 0 && a.reply.handle == c.next
    && exists far, f :: a.conn == ConnAfterOpen(c, far, f) && f.ino in Side(a.stores, far).data
  }

  lemma StoresAfter(w: Stores, c: Conn, far: bool, q: Request, newIno: Ino)
    requires ValidStores(w) && Open(w, c) && Fresh(w, newIno) && OnFiles(q.op)
    ensures var s, h := Side(w, far), On(c, far);
            var e := Decide(q, Find(s, q.path), Find(s, q.path2), HeldAt(s, h, q.handle), newIno).effect;
            var w' := WithSide(w, far, Apply(s, e));
            && ValidStores(w')
            && w.local.data.Keys <= w'.local.data.Keys && w.remote.data.Keys <= w'.remote.data.Keys
  {
    hide Decide, Find, HeldAt, Apply;
    DecisionIsSound(Side(w, far), On(c, far), q, newIno);
  }

  lemma ByPathChanges(t: Table, w: Stores, c: Conn, q: Request, newIno: Ino)
    requires Valid(w, c) && Fresh(w, newIno) && OnFiles(q.op) && !ByHandle(q.op) && !Crosses(t, q)
    ensures Changed(w, c, q, SessionServe(t, w, c, q, newIno))
    ensures Opens(q.op) && SessionServe(t, w, c, q, newIno).reply.err == 0 ==>
              AddedHandle(c, SessionServe(t, w, c, q, newIno))
  {
    hide IsRemote, Apply, Decide, Find, HeldAt, ServeOn, ValidStores, ValidConn, Open, Fresh;
    var far := IsRemote(t, q.path);
    var s, h := Side(w, far), On(c, far);
    ServeOnIsServe(w, c, far, q, newIno);
    var held := HeldAt(s, h, q.handle);
    var d := Decide(q, Find(s, q.path), Find(s, q.path2), held, newIno);
    DecisionByPath(q, Find(s, q.path), Find(s, q.path2), Find(s, q.path2), held, held, newIno);
    StoresAfter(w, c, far, q, newIno);
    if d.handles.Opened? {
      SideIsValid(w, far);
      DecisionIsSound(s, h, q, newIno);
      OpenChanges(t, w, c, far, q, newIno, d);
    } else {
      assert WithOn(c, far, h) == c;
    }
  }

  lemma OpenChanges(t: Table, w: Stores, c: Conn, far: bool, q: Request, newIno: Ino, d: Decision)
    requires Opens(q.op) && far == IsRemote(t, q.path) && d.handles.Opened? && d.reply.err == 0
    requires ServeOn(w, c, far, q, newIno)
          == Answer(WithSide(w, far, Apply(Side(w, far), d.effect)),
                    WithOn(c, far, ApplyHandles(On(c, far), d.handles, q.handle)),
                    d.reply.(handle := On(c, far).next))
    requires d.handles.file.ino in Apply(Side(w, far), d.effect).data
    ensures AddedHandle(c, SessionServe(t, w, c, q, newIno))
  {
    hide IsRemote, Apply, ServeOn;
    var a := SessionServe(t, w, c, q, newIno);
    assert a.conn == ConnAfterOpen(c, far, d.handles.file);
    assert d.handles.file.ino in Side(a.stores, far).data;
  }

  lemma SideIsValid(w: Stores, far: bool)
    requires ValidStores(w)
    ensures ValidStore(Side(w, far))
  {
  }

  lemma ByHandleChanges(t: Table, w: Stores, c: Conn, q: Request, newIno: Ino)
    requires Valid(w, c) && Fresh(w, newIno) && ByHandle(q.op)
    ensures Changed(w, c, q, SessionServe(t, w, c, q, newIno))
  {
    hide IsRemote, Apply, Decide, Find, HeldAt, ServeOn, ValidStores, ValidConn, Open, Fresh;
    if q.handle in c.refs {
      var ref := c.refs[q.handle];
      var far, q' := ref.remote, q.(handle := ref.id);
      var s, h := Side(w, far), On(c, far);
      var c' := if q.op == OP_CLOSE then c.(refs := c.refs - {q.handle}) else c;
      var held := HeldAt(s, h, ref.id);
      HandleIsHeld(w, c, q.handle);
      ServeOnIsServe(w, c', far, q', newIno);
      DecisionByHandle(q', ref.id, Find(s, q.path), Find(s, q.path2), None, None, held, newIno);
      StoresAfter(w, c, far, q', newIno);
      assert WithOn(c, far, h) == c;
    }
  }

  lemma StepChanges(t: Table, w: Stores, c: Conn, q: Request, newIno: Ino)
    requires Valid(w, c) && Fresh(w, newIno) && Routed(q.op)
    ensures Changed(w, c, q, SessionServe(t, w, c, q, newIno))
    ensures Opens(q.op) && SessionServe(t, w, c, q, newIno).reply.err == 0 ==>
              AddedHandle(c, SessionServe(t, w, c, q, newIno))
  {
    hide ValidStores, ValidConn, Open, Fresh, IsRemote;
    if q.op == OP_SERVERINFO || Crosses(t, q) {
    } else if ByHandle(q.op) {
      ByHandleChanges(t, w, c, q, newIno);
    } else {
      ByPathChanges(t, w, c, q, newIno);
    }
  }

  /** Other connections' handles stay good: no file ever disappears under them. */
  lemma OthersStayOpen(w: Stores, c: Conn, q: Request, a: Answer, other: Conn)
    requires Changed(w, c, q, a) && Open(w, other)
    ensures Open(a.stores, other)
  {
    hide AddedHandle, ConnAfterClose;
  }

  lemma ChangedIsValid(w: Stores, c: Conn, q: Request, a: Answer)
    requires Valid(w, c) && c.next + 1 < TWO64 && Changed(w, c, q, a)
    ensures Valid(a.stores, a.conn)
  {
    hide ValidStores, ConnAfterOpen, ConnAfterClose, ValidConn, Open;
    OthersStayOpen(w, c, q, a, c);
    if a.conn == c {
    } else if AddedHandle(c, a) {
      var far, f :| a.conn == ConnAfterOpen(c, far, f) && f.ino in Side(a.stores, far).data;
      OpenKeepsConn(c, far, f);
      OpenKeepsOpen(a.stores, c, far, f);
    } else {
      CloseKeepsConn(c, q.handle);
      CloseKeepsOpen(a.stores, c, q.handle);
    }
  }

  lemma OpenKeepsOpen(w: Stores, c: Conn, far: bool, f: OpenFile)
    requires Open(w, c) && f.ino in Side(w, far).data
    ensures Open(w, ConnAfterOpen(c, far, f))
  {
  }

  lemma CloseKeepsOpen(w: Stores, c: Conn, n: uint64)
    requires Open(w, c) && n in c.refs
    ensures Open(w, ConnAfterClose(c, n))
  {
  }

  /** A session's rename is the merged service's exactly when it does not cross the boundary. */
  lemma RenameIsSingleIffNotCrossing(t: Table, w: Stores, c: Conn, q: Request, newIno: Ino)
    requires Valid(w, c) && Fresh(w, newIno) && q.op == OP_RENAME && c.next + 1 < TWO64
    ensures var a := SessionServe(t, w, c, q, newIno);
            Outcome(Merge(t, a.stores), MergeHandles(a.conn), a.reply) == Serve(Merge(t, w), MergeHandles(c), q, newIno)
            <==> IsRemote(t, q.path) == IsRemote(t, q.path2)
  {
    hide IsRemote, Merge, MergeHandles, Valid, Fresh, ServeOn, Find, Clean;
    if IsRemote(t, q.path) == IsRemote(t, q.path2) {
      StepRefines(t, w, c, q, newIno);
    }
  }

  // ---- whole runs --------------------------------------------------------------------------------------

  /** Both hosts' files and every connection there has been. */
  datatype System = System(stores: Stores, conns: seq<Conn>)

  datatype Event = Connect | Call(conn: nat, q: Request, newIno: Ino) | Disconnect(conn: nat)

  /** A connection that ended: both services dropped their handles. */
  function Ended(c: Conn): Conn { Conn(Handles(map[], c.local.next), Handles(map[], c.remote.next), map[], c.next) }

  ghost predicate Possible(sys: System, e: Event) {
    match e
    case Connect => true
    case Call(i, q, newIno) =>
      i < |sys.conns| && Routed(q.op) && Fresh(sys.stores, newIno) && sys.conns[i].next + 1 < TWO64
    case Disconnect(i) => i < |sys.conns|
  }

  function Advance(t: Table, sys: System, e: Event): (System, Option<Response>) {
    match e
    case Connect => (sys.(conns := sys.conns + [NEW_CONN]), None)
    case Call(i, q, newIno) =>
      if i < |sys.conns| && Routed(q.op) then
        var a := SessionServe(t, sys.stores, sys.conns[i], q, newIno);
        (System(a.stores, sys.conns[i := a.conn]), Some(a.reply))
      else (sys, None)
    case Disconnect(i) =>
      (if i < |sys.conns| then sys.(conns := sys.conns[i := Ended(sys.conns[i])]) else sys, None)
  }

  /** One host with one service per connection. */
  datatype Single = Single(store: Store, services: seq<Handles>)

  function AdvanceSingle(t: Table, s: Single, e: Event): (Single, Option<Response>) {
    match e
    case Connect => (s.(services := s.services + [NO_HANDLES]), None)
    case Call(i, q, newIno) =>
      if i < |s.services| && Routed(q.op) then
        var o := MergedServe(t, s.store, s.services[i], q, newIno);
        (Single(o.store, s.services[i := o.handles]), Some(o.reply))
      else (s, None)
    case Disconnect(i) =>
      (if i < |s.services| then s.(services := s.services[i := Handles(map[], s.services[i].next)]) else s, None)
  }

  function Seen(t: Table, sys: System): Single {
    Single(Merge(t, sys.stores), seq(|sys.conns|, i requires 0 <= i < |sys.conns| => MergeHandles(sys.conns[i])))
  }

  ghost predicate ValidSystem(sys: System) {
    && ValidStores(sys.stores)
    && forall i :: 0 <= i < |sys.conns| ==> ValidConn(sys.conns[i]) && Open(sys.stores, sys.conns[i])
  }

  lemma EndedIsValid(w: Stores, c: Conn)
    requires ValidConn(c)
    ensures ValidConn(Ended(c)) && Open(w, Ended(c)) && MergeHandles(Ended(c)) == Handles(map[], c.next)
  {
    assert ValidSide(c, false) && ValidSide(c, true);
  }

  lemma NewConnIsValid(w: Stores)
    ensures ValidConn(NEW_CONN) && Open(w, NEW_CONN) && MergeHandles(NEW_CONN) == NO_HANDLES
  {
  }

  /** Every event keeps both sides' files apart and every connection's handles in bijection with its live ones. */
  lemma EventKeepsValid(t: Table, sys: System, e: Event)
    requires ValidSystem(sys) && Possible(sys, e)
    ensures ValidSystem(Advance(t, sys, e).0)
  {
    hide ValidStores, ValidConn, Open, SessionServe, Changed, Fresh;
    match e
    case Connect => NewConnIsValid(sys.stores);
    case Disconnect(i) => EndedIsValid(sys.stores, sys.conns[i]);
    case Call(i, q, newIno) =>
      var c := sys.conns[i];
      var a := SessionServe(t, sys.stores, c, q, newIno);
      StepChanges(t, sys.stores, c, q, newIno);
      ChangedIsValid(sys.stores, c, q, a);
      forall k | 0 <= k < |sys.conns|
        ensures Open(a.stores, sys.conns[k])
      {
        OthersStayOpen(sys.stores, c, q, a, sys.conns[k]);
      }
  }

  lemma EventRefines(t: Table, sys: System, e: Event)
    requires ValidSystem(sys) && Possible(sys, e)
    ensures AdvanceSingle(t, Seen(t, sys), e) == (Seen(t, Advance(t, sys, e).0), Advance(t, sys, e).1)
  {
    hide ValidStores, ValidConn, Open, SessionServe, MergedServe, Merge, MergeHandles, Fresh;
    var s := Seen(t, sys);
    var s' := Seen(t, Advance(t, sys, e).0);
    match e
    case Connect =>
      NewConnIsValid(sys.stores);
      assert s'.services == s.services + [NO_HANDLES];
    case Disconnect(i) =>
      EndedIsValid(sys.stores, sys.conns[i]);
      NextOfMerge(sys.conns[i]);
      assert s'.services == s.services[i := Handles(map[], s.services[i].next)];
    case Call(i, q, newIno) =>
      StepRefines(t, sys.stores, sys.conns[i], q, newIno);
      var a := SessionServe(t, sys.stores, sys.conns[i], q, newIno);
      assert s'.services == s.services[i := MergeHandles(a.conn)];
  }

  datatype RunResult<S> = RunResult(end: S, replies: seq<Option<Response>>)

  function Run(t: Table, sys: System, es: seq<Event>): RunResult<System>
    decreases |es|
  {
    if es == [] then RunResult(sys, [])
    else
      var (next, reply) := Advance(t, sys, es[0]);
      var rest := Run(t, next, es[1..]);
      RunResult(rest.end, [reply] + rest.replies)
  }

  function RunSingle(t: Table, s: Single, es: seq<Event>): RunResult<Single>
    decreases |es|
  {
    if es == [] then RunResult(s, [])
    else
      var (next, reply) := AdvanceSingle(t, s, es[0]);
      var rest := RunSingle(t, next, es[1..]);
      RunResult(rest.end, [reply] + rest.replies)
  }

  ghost predicate PossibleRun(t: Table, sys: System, es: seq<Event>)
    decreases |es|
  {
    es != [] ==> Possible(sys, es[0]) && PossibleRun(t, Advance(t, sys, es[0]).0, es[1..])
  }

  /** Over every run of any number of connections, the adapter and its two hosts answer as one host would that holds
      the merged files, and end in its state. */
  lemma {:induction false} RunRefines(t: Table, sys: System, es: seq<Event>)
    requires ValidSystem(sys) && PossibleRun(t, sys, es)
    ensures RunSingle(t, Seen(t, sys), es) == RunResult(Seen(t, Run(t, sys, es).end), Run(t, sys, es).replies)
    ensures ValidSystem(Run(t, sys, es).end)
    decreases |es|
  {
    hide ValidSystem, Seen, Advance, AdvanceSingle, Possible;
    if es != [] {
      EventRefines(t, sys, es[0]);
      EventKeepsValid(t, sys, es[0]);
      RunRefines(t, Advance(t, sys, es[0]).0, es[1..]);
    }
  }

  // ---- handle numbers over a run -----------------------------------------------------------------------

  lemma NextAfterCall(t: Table, w: Stores, c: Conn, q: Request, newIno: Ino)
    requires Valid(w, c) && Fresh(w, newIno) && Routed(q.op) && c.next + 1 < TWO64
    ensures var a := SessionServe(t, w, c, q, newIno);
            && c.next <= a.conn.next
            && (Opens(q.op) && a.reply.err == 0 ==> a.reply.handle == c.next && a.conn.next == c.next + 1)
            && forall n :: n < c.next && n !in c.refs ==> n !in a.conn.refs
  {
    hide SessionServe, Valid, Fresh;
    StepChanges(t, w, c, q, newIno);
  }

  /** The handle an event gave to connection `i`. */
  function GivenBy(e: Event, reply: Option<Response>, i: nat): seq<uint64> {
    if e.Call? && e.conn == i && Opens(e.q.op) && reply.Some? && reply.value.err == 0 then [reply.value.handle] else []
  }

  function Given(es: seq<Event>, replies: seq<Option<Response>>, i: nat): seq<uint64>
    requires |es| == |replies|
  {
    if es == [] then [] else GivenBy(es[0], replies[0], i) + Given(es[1..], replies[1..], i)
  }

  lemma {:induction false} RunRepliesToAll(t: Table, sys: System, es: seq<Event>)
    ensures |Run(t, sys, es).replies| == |es|
    decreases |es|
  {
    hide Advance;
    if es != [] {
      RunRepliesToAll(t, Advance(t, sys, es[0]).0, es[1..]);
    }
  }

  function NextOn(sys: System, i: nat): uint64 { if i < |sys.conns| then sys.conns[i].next else 1 }

  lemma NextAfterEvent(t: Table, sys: System, e: Event, i: nat)
    requires ValidSystem(sys) && Possible(sys, e)
    ensures var (sys', reply) := Advance(t, sys, e);
            && NextOn(sys, i) <= NextOn(sys', i)
            && forall h :: h in GivenBy(e, reply, i) ==> h == NextOn(sys, i) < NextOn(sys', i)
  {
    hide SessionServe, ValidStores, ValidConn, Open, Fresh;
    match e
    case Call(k, q, newIno) => NextAfterCall(t, sys.stores, sys.conns[k], q, newIno);
    case _ =>
  }

  /** On one connection, handle numbers only ever go up over a run: none is given out twice. */
  lemma {:induction false} HandlesNeverReissued(t: Table, sys: System, es: seq<Event>, i: nat)
    requires ValidSystem(sys) && PossibleRun(t, sys, es)
    ensures |Run(t, sys, es).replies| == |es|
    ensures Ascending(Given(es, Run(t, sys, es).replies, i), NextOn(sys, i))
    decreases |es|
  {
    hide ValidSystem, Advance, Possible, GivenBy, NextOn, Ascending;
    RunRepliesToAll(t, sys, es);
    if es == [] {
      assert Ascending([], NextOn(sys, i)) by {
        NothingAscends(NextOn(sys, i));
      }
    } else {
      var (sys', reply) := Advance(t, sys, es[0]);
      EventKeepsValid(t, sys, es[0]);
      NextAfterEvent(t, sys, es[0], i);
      HandlesNeverReissued(t, sys', es[1..], i);
      AtMostOneGiven(es[0], reply, i);
      var g, rest := GivenBy(es[0], reply, i), Given(es[1..], Run(t, sys', es[1..]).replies, i);
      assert Run(t, sys, es).replies[1..] == Run(t, sys', es[1..]).replies;
      JoinAscending(g, rest, NextOn(sys, i), NextOn(sys', i));
    }
  }

  /** Strictly increasing numbers, none below `least`. */
  predicate Ascending(g: seq<uint64>, least: nat) {
    && (forall j :: 0 <= j < |g| ==> g[j] >= least)
    && (forall j, k :: 0 <= j < k < |g| ==> g[j] < g[k])
  }

  lemma NothingAscends(least: nat)
    ensures Ascending([], least)
  {
  }

  lemma JoinAscending(g: seq<uint64>, rest: seq<uint64>, least: nat, next: nat)
    requires |g| <= 1 && least <= next && Ascending(rest, next)
    requires forall h :: h in g ==> h == least < next
    ensures Ascending(g + rest, least)
  {
    assert forall j :: 0 <= j < |g| ==> g[j] in g;
  }

  lemma AtMostOneGiven(e: Event, reply: Option<Response>, i: nat)
    ensures |GivenBy(e, reply, i)| <= 1
  {
  }

  /** A number that was given out and is not in use any more. */
  ghost predicate Retired(sys: System, i: nat, n: uint64) {
    i < |sys.conns| && n < sys.conns[i].next && n !in sys.conns[i].refs
  }

  lemma CloseRetires(t: Table, sys: System, i: nat, q: Request, newIno: Ino)
    requires ValidSystem(sys) && Possible(sys, Call(i, q, newIno)) && q.op == OP_CLOSE && q.handle in sys.conns[i].refs
    ensures var (sys', reply) := Advance(t, sys, Call(i, q, newIno));
            reply == Some(Reply(0)) && Retired(sys', i, q.handle)
  {
    hide Find, HeldAt, Content, IsRemote, ValidStores, Serve;
    var c := sys.conns[i];
    var ref := c.refs[q.handle];
    var q', c' := q.(handle := ref.id), c.(refs := c.refs - {q.handle});
    CloseSucceeds(Side(sys.stores, ref.remote), On(c', ref.remote), q', newIno);
    ServeOnIsServe(sys.stores, c', ref.remote, q', newIno);
  }

  lemma CloseSucceeds(s: Store, h: Handles, q: Request, newIno: Ino)
    requires q.op == OP_CLOSE && q.handle in h.open
    ensures Serve(s, h, q, newIno) == Outcome(s, h.(open := h.open - {q.handle}), Reply(0))
  {
  }

  lemma {:induction false} RetiredStaysRetired(t: Table, sys: System, es: seq<Event>, i: nat, n: uint64)
    requires ValidSystem(sys) && PossibleRun(t, sys, es) && Retired(sys, i, n)
    ensures Retired(Run(t, sys, es).end, i, n)
    decreases |es|
  {
    hide ValidSystem, Advance, Possible, Retired;
    if es != [] {
      EventKeepsValid(t, sys, es[0]);
      RetiredAfterEvent(t, sys, es[0], i, n);
      RetiredStaysRetired(t, Advance(t, sys, es[0]).0, es[1..], i, n);
    }
  }

  lemma RetiredAfterEvent(t: Table, sys: System, e: Event, i: nat, n: uint64)
    requires ValidSystem(sys) && Possible(sys, e) && Retired(sys, i, n)
    ensures Retired(Advance(t, sys, e).0, i, n)
  {
    hide SessionServe, ValidStores, ValidConn, Open, Fresh;
    if e.Call? {
      NextAfterCall(t, sys.stores, sys.conns[e.conn], e.q, e.newIno);
    }
  }

  /** However a run goes on after a handle was closed, using it again answers EBADF and touches neither side. */
  lemma ClosedHandleIsDead(t: Table, sys: System, es: seq<Event>, i: nat, q: Request, newIno: Ino)
    requires ValidSystem(sys) && PossibleRun(t, sys, es) && Retired(sys, i, q.handle) && ByHandle(q.op)
    ensures var end := Run(t, sys, es).end;
            && i < |end.conns|
            && SessionServe(t, end.stores, end.conns[i], q, newIno)
               == Answer(end.stores, end.conns[i], Reply(EBADF))
  {
    hide ValidSystem, Run, IsRemote;
    RetiredStaysRetired(t, sys, es, i, q.handle);
  }

  // ---- the session itself ------------------------------------------------------------------------------

  class Adapter {
    const table: Table
    const localFS: FSService
    const remoteFS: FSService // at the far end of the executor stream
    var handles: map<uint64, Ref>
    var next: uint64

    ghost predicate Valid()
      reads this
    {
      localFS != remoteFS && localFS.host != remoteFS.host
    }

    function Files(): Stores
      reads localFS.host, remoteFS.host
    {
      Stores(localFS.host.Now(), remoteFS.host.Now())
    }

    function Now(): Conn
      reads this, localFS, remoteFS
    {
      Conn(localFS.Now(), remoteFS.Now(), handles, next)
    }

    constructor (table: Table, local: Host, remote: Host)
      requires local != remote
      ensures Valid() && this.table == table && localFS.host == local && remoteFS.host == remote
      ensures fresh(localFS) && fresh(remoteFS) && Now() == NEW_CONN
    {
      this.table := table;
      localFS := new FSService(local);
      remoteFS := new FSService(remote);
      handles, next := map[], 1;
    }

    method Handle(q: Request, newIno: Ino) returns (r: Response)
      requires Valid() && Routed(q.op)
      modifies this, localFS, remoteFS, localFS.host, remoteFS.host
      ensures Valid() && Answer(Files(), Now(), r) == SessionServe(table, old(Files()), old(Now()), q, newIno)
    {
      hide IsRemote, ServeOn;
      if q.op == OP_RENAME {
        r := Rename(q, newIno);
      } else if q.op == OP_OPEN || q.op == OP_CREATE {
        r := Open(q, newIno);
      } else if q.op == OP_PREAD || q.op == OP_PWRITE || q.op == OP_CLOSE {
        r := ForwardByHandle(q, newIno);
      } else if q.op == OP_STAT || q.op == OP_WRITEFILE || q.op == OP_UNLINK || q.op == OP_SETATTR {
        r := ForwardByPath(q, newIno);
      } else {
        UnknownOp(Files(), Now(), IsRemote(table, q.path), q, newIno);
        r := Reply(EINVAL);
      }
    }

    method Rename(q: Request, newIno: Ino) returns (r: Response)
      requires Valid() && q.op == OP_RENAME
      modifies this, localFS, remoteFS, localFS.host, remoteFS.host
      ensures Answer(Files(), Now(), r)
           == if Crosses(table, q) then Answer(old(Files()), old(Now()), Reply(EXDEV))
              else ServeOn(old(Files()), old(Now()), IsRemote(table, q.path), q, newIno)
    {
      hide IsRemote, ServeOn;
      if IsRemote(table, q.path) != IsRemote(table, q.path2) {
        return Reply(EXDEV);
      }
      r := ForwardByPath(q, newIno);
    }

    method ForwardByPath(q: Request, newIno: Ino) returns (r: Response)
      requires Valid() && OnFiles(q.op)
      modifies localFS, remoteFS, localFS.host, remoteFS.host
      ensures Answer(Files(), Now(), r) == ServeOn(old(Files()), old(Now()), IsRemote(table, q.path), q, newIno)
    {
      hide IsRemote, Serve, Relevant, Delivered;
      if IsRemote(table, q.path) {
        r := RemoteRPC(q, newIno);
      } else {
        r := localFS.Handle(q, newIno);
      }
    }

    method Open(q: Request, newIno: Ino) returns (r: Response)
      requires Valid() && Opens(q.op)
      modifies this, localFS, remoteFS, localFS.host, remoteFS.host
      ensures Answer(Files(), Now(), r) == SessionServe(table, old(Files()), old(Now()), q, newIno)
    {
      hide IsRemote, ServeOn, Serve, Relevant, Delivered;
      var remote := IsRemote(table, q.path);
      if remote {
        r := RemoteRPC(q, newIno);
      } else {
        r := localFS.Handle(q, newIno);
      }
      assert Answer(Files(), Now(), r) == ServeOn(old(Files()), old(Now()), remote, q, newIno) by {
        ServedHere(old(Files()), old(Now()), remote, q, newIno);
      }
      if r.err != 0 {
        return;
      }
      var a := next;
      next := Next(next);
      handles := handles[a := Ref(remote, r.handle)];
      r := r.(handle := a);
    }

    method ForwardByHandle(q: Request, newIno: Ino) returns (r: Response)
      requires Valid() && ByHandle(q.op)
      modifies this, localFS, remoteFS, localFS.host, remoteFS.host
      ensures Answer(Files(), Now(), r) == SessionServe(table, old(Files()), old(Now()), q, newIno)
    {
      hide IsRemote, ServeOn, Serve, Relevant, Delivered;
      if q.handle !in handles {
        return Reply(EBADF);
      }
      var ref := handles[q.handle];
      if q.op == OP_CLOSE {
        handles := handles - {q.handle};
      }
      ghost var c := Now();
      var q' := q.(handle := ref.id);
      if ref.remote {
        r := RemoteRPC(q', newIno);
      } else {
        r := localFS.Handle(q', newIno);
      }
      ServedHere(old(Files()), c, ref.remote, q', newIno);
    }

    /** One request over the executor stream, which carries the fields of its op and brings back those of the reply. */
    method RemoteRPC(q: Request, newIno: Ino) returns (r: Response)
      requires Valid() && OnFiles(q.op)
      modifies remoteFS, remoteFS.host
      ensures remoteFS.host.Now() == Serve(old(remoteFS.host.Now()), old(remoteFS.Now()), Relevant(q), newIno).store
      ensures remoteFS.Now() == Serve(old(remoteFS.host.Now()), old(remoteFS.Now()), Relevant(q), newIno).handles
      ensures r == Delivered(q.op, Serve(old(remoteFS.host.Now()), old(remoteFS.Now()), Relevant(q), newIno).reply)
    {
      hide Serve, Delivered;
      var reply := remoteFS.Handle(Relevant(q), newIno);
      r := Delivered(q.op, reply);
    }

    /** The end of the connection: both services release every handle. */
    method Close()
      requires Valid()
      modifies this, localFS, remoteFS
      ensures Now() == Ended(old(Now()))
    {
      localFS.CloseAll();
      remoteFS.CloseAll();
      handles := map[];
    }
  }

  lemma ServedHere(w: Stores, c: Conn, far: bool, q: Request, newIno: Ino)
    requires OnFiles(q.op)
    ensures var o := Serve(Side(w, far), On(c, far), if far then Relevant(q) else q, newIno);
            && ServeOn(w, c, far, q, newIno).stores == WithSide(w, far, o.store)
            && ServeOn(w, c, far, q, newIno).conn == WithOn(c, far, o.handles)
            && ServeOn(w, c, far, q, newIno).reply == if far then Delivered(q.op, o.reply) else o.reply
  {
  }

  /** An op neither side knows. */
  lemma UnknownOp(w: Stores, c: Conn, far: bool, q: Request, newIno: Ino)
    requires Routed(q.op)
    ensures q.op == OP_SERVERINFO || KnownOp(q.op)
         || ServeOn(w, c, far, q, newIno) == Answer(w, c, Reply(EINVAL))
  {
    hide Find, HeldAt;
  }
}
