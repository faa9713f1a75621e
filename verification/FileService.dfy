/** The executor's file service (internal/executor/fs.go): a host's files, open handles, and one request at a time.
    Files only; a file is known by its cleaned path. */
module FileService {
  import opened Bytes
  import opened Paths
  import opened Protocol
  import R = Responses

  const ENOENT: int32 := -2
  const EIO: int32 := -5
  const EBADF: int32 := -9
  const EEXIST: int32 := -17
  const EXDEV: int32 := -18
  const ENOTDIR: int32 := -20
  const EINVAL: int32 := -22

  // Open flags of a Linux host.
  const O_CREAT: nat := 0x40
  const O_EXCL: nat := 0x80
  const O_TRUNC: nat := 0x200
  const O_APPEND: nat := 0x400

  const UNLINK_RMDIR: nat := 1
  const SET_MODE: nat := 1
  const SET_SIZE: nat := 2
  const SET_ATIME: nat := 4
  const SET_MTIME: nat := 8

  predicate Has(flags: nat, bit: nat)
    requires bit > 0
  {
    (flags / bit) % 2 == 1
  }

  function With(flags: nat, bit: nat): nat
    requires bit > 0
  {
    if Has(flags, bit) then flags else flags + bit
  }

  // ---- a host's files ----------------------------------------------------------------------------------

  type Ino = nat

  /** The files of a host: names by cleaned path, contents by inode. An inode outlives its last name. */
  datatype Store = Store(names: map<bytes, Ino>, data: map<Ino, bytes>)

  datatype OpenFile = OpenFile(ino: Ino, readable: bool, writable: bool, appending: bool)

  /** A service's open handles. The handle counter is 64 bits wide. */
  datatype Handles = Handles(open: map<uint64, OpenFile>, next: uint64)

  const NO_HANDLES := Handles(map[], 1)

  ghost predicate ValidStore(s: Store) { forall k :: k in s.names ==> s.names[k] in s.data }

  ghost predicate ValidHandles(s: Store, h: Handles) { forall a :: a in h.open ==> h.open[a].ino in s.data }

  function Content(s: Store, i: Ino): bytes { if i in s.data then s.data[i] else [] }

  datatype Found = Found(ino: Ino, content: bytes)

  /** What a path names. The empty path names nothing. */
  function Find(s: Store, path: bytes): Option<Found> {
    if path == [] || Clean(path) !in s.names then None
    else
      var i := s.names[Clean(path)];
      Some(Found(i, Content(s, i)))
  }

  datatype Held = Held(file: OpenFile, content: bytes)

  function HeldAt(s: Store, h: Handles, a: uint64): Option<Held> {
    if a in h.open then Some(Held(h.open[a], Content(s, h.open[a].ino))) else None
  }

  function FileOf(i: Ino, flags: nat): OpenFile {
    OpenFile(i, flags % 4 == 0 || flags % 4 == 2, flags % 4 == 1 || flags % 4 == 2, Has(flags, O_APPEND))
  }

  function Zeros(n: nat): bytes { seq(n, _ => 0) }

  /** A file's bytes cut or zero-filled to a length. */
  function Resize(b: bytes, n: nat): (r: bytes)
    ensures |r| == n && forall i :: 0 <= i < n ==> r[i] == if i < |b| then b[i] else 0
  {
    if n <= |b| then b[..n] else b + Zeros(n - |b|)
  }

  /** A file's bytes after writing `d` at `off`; a gap before `off` is zero-filled. */
  function Overwrite(b: bytes, off: nat, d: bytes): bytes
  {
    if d == [] then b
    else if off + |d| <= |b| then b[..off] + d + b[off + |d|..]
    else Resize(b, off) + d
  }

  /** At most `len` of a file's bytes from `off` on. */
  function Slice(b: bytes, off: nat, len: nat): bytes {
    if off >= |b| then [] else if off + len <= |b| then b[off..off + len] else b[off..]
  }

  function SizeOf(b: bytes): int64 { I64Of(U64Of(|b|)) }

  // ---- what a request does -----------------------------------------------------------------------------

  datatype Effect = Keep | Put(ino: Ino, content: bytes) | Create(key: bytes, ino: Ino, content: bytes)
                  | Unbind(key: bytes) | Move(from: bytes, to: bytes)

  datatype HandleEffect = Same | Opened(file: OpenFile) | Closed

  datatype Decision = Decision(effect: Effect, handles: HandleEffect, reply: Response)

  function Fail(err: int32): Decision { Decision(Keep, Same, Reply(err)) }

  function Done(e: Effect): Decision { Decision(e, Same, Reply(0)) }

  function DecideOpen(path: bytes, flags: nat, found: Option<Found>, newIno: Ino): Decision {
    match found
    case None =>
      if path == [] || !Has(flags, O_CREAT) then Fail(ENOENT)
      else Decision(Create(Clean(path), newIno, []), Opened(FileOf(newIno, flags)), Reply(0))
    case Some(f) =>
      if Has(flags, O_CREAT) && Has(flags, O_EXCL) then Fail(EEXIST)
      else if Has(flags, O_TRUNC) then Decision(Put(f.ino, []), Opened(FileOf(f.ino, flags)), Reply(0))
      else Decision(Keep, Opened(FileOf(f.ino, flags)), Reply(0).(size := SizeOf(f.content)))
  }

  function DecideSetattr(q: Request, found: Option<Found>): Decision {
    if Has(q.mask, SET_MODE) && found.None? then Fail(ENOENT)
    else if Has(q.mask, SET_SIZE) && q.size < 0 then Fail(EINVAL)
    else if Has(q.mask, SET_SIZE) && found.None? then Fail(ENOENT)
    else if (Has(q.mask, SET_ATIME) || Has(q.mask, SET_MTIME)) && found.None? then Fail(ENOENT)
    else if Has(q.mask, SET_SIZE) then Done(Put(found.value.ino, Resize(found.value.content, q.size)))
    else Done(Keep)
  }

  function DecideRename(q: Request, found: Option<Found>, found2: Option<Found>): Decision {
    if found.None? || q.path2 == [] then Fail(ENOENT)
    else if found2.Some? && found2.value.ino == found.value.ino then Done(Keep)
    else Done(Move(Clean(q.path), Clean(q.path2)))
  }

  function DecidePread(q: Request, held: Option<Held>): Decision {
    if held.None? then Fail(EBADF)
    else if q.off < 0 then Fail(EIO)
    else if q.len == 0 then Done(Keep)
    else if !held.value.file.readable then Fail(EBADF)
    else Decision(Keep, Same, Reply(0).(data := Slice(held.value.content, q.off, q.len)))
  }

  function DecidePwrite(q: Request, held: Option<Held>): Decision {
    if held.None? then Fail(EBADF)
    else if held.value.file.appending || q.off < 0 then Fail(EIO)
    else if q.data == [] then Done(Keep)
    else if !held.value.file.writable then Fail(EBADF)
    else
      var content := Overwrite(held.value.content, q.off, q.data);
      Decision(Put(held.value.file.ino, content), Same, Reply(0).(size := SizeOf(q.data)))
  }

  /** The ops that concern files; MKDIR and READDIR concern directories, SERVERINFO neither. */
  predicate OnFiles(op: byte) { op != OP_MKDIR && op != OP_READDIR && op != OP_SERVERINFO }

  /** What a request does and answers, from what its paths and its handle refer to. */
  function Decide(q: Request, found: Option<Found>, found2: Option<Found>, held: Option<Held>, newIno: Ino): Decision
    requires OnFiles(q.op)
  {
    if q.op == OP_STAT then
      if found.None? then Fail(ENOENT) else Decision(Keep, Same, Reply(0).(size := SizeOf(found.value.content)))
    else if q.op == OP_OPEN then DecideOpen(q.path, q.flags, found, newIno)
    else if q.op == OP_CREATE then DecideOpen(q.path, With(q.flags, O_CREAT), found, newIno)
    else if q.op == OP_PREAD then DecidePread(q, held)
    else if q.op == OP_PWRITE then DecidePwrite(q, held)
    else if q.op == OP_CLOSE then if held.None? then Fail(EBADF) else Decision(Keep, Closed, Reply(0))
    else if q.op == OP_WRITEFILE then
      if found.Some? then Done(Put(found.value.ino, q.data))
      else if q.path == [] then Fail(ENOENT)
      else Done(Create(Clean(q.path), newIno, q.data))
    else if q.op == OP_UNLINK then
      if found.None? then Fail(ENOENT)
      else if Has(q.flags, UNLINK_RMDIR) then Fail(ENOTDIR)
      else Done(Unbind(Clean(q.path)))
    else if q.op == OP_RENAME then DecideRename(q, found, found2)
    else if q.op == OP_SETATTR then DecideSetattr(q, found)
    else Fail(EINVAL)
  }

  function Apply(s: Store, e: Effect): Store {
    match e
    case Keep => s
    case Put(i, b) => s.(data := s.data[i := b])
    case Create(k, i, b) => s.(names := s.names[k := i], data := s.data[i := b])
    case Unbind(k) => s.(names := s.names - {k})
    case Move(from, to) => if from in s.names then s.(names := (s.names - {from})[to := s.names[from]]) else s
  }

  function Next(n: uint64): uint64 { if n + 1 < TWO64 then n + 1 else 0 }

  function ApplyHandles(h: Handles, e: HandleEffect, a: uint64): Handles {
    match e
    case Same => h
    case Opened(f) => Handles(h.open[h.next := f], Next(h.next))
    case Closed => h.(open := h.open - {a})
  }

  datatype Outcome = Outcome(store: Store, handles: Handles, reply: Response)

  /** One request served by one service: the new files, the new handles and the reply. `newIno` is the inode the
      host would give a new file. */
  function Serve(s: Store, h: Handles, q: Request, newIno: Ino): Outcome
    requires OnFiles(q.op)
  {
    var d := Decide(q, Find(s, q.path), Find(s, q.path2), HeldAt(s, h, q.handle), newIno);
    var reply := if d.handles.Opened? then d.reply.(handle := h.next) else d.reply;
    Outcome(Apply(s, d.effect), ApplyHandles(h, d.handles, q.handle), reply)
  }

  // ---- what the replies mean ---------------------------------------------------------------------------

  /** A write changes the bytes it covers and nothing else; a gap reads as zeros. */
  lemma OverwriteBytes(b: bytes, off: nat, d: bytes)
    requires d != []
    ensures |Overwrite(b, off, d)| == if off + |d| <= |b| then |b| else off + |d|
    ensures forall i :: 0 <= i < |Overwrite(b, off, d)| ==>
              Overwrite(b, off, d)[i] == if off <= i < off + |d| then d[i - off] else if i < |b| then b[i] else 0
  {
  }

  lemma SliceOfOverwrite(b: bytes, off: nat, d: bytes)
    requires d != []
    ensures Slice(Overwrite(b, off, d), off, |d|) == d
  {
    var r := Overwrite(b, off, d);
    OverwriteBytes(b, off, d);
    assert forall i :: 0 <= i < |d| ==> r[off + i] == d[i];
  }

  /** What is written through one handle is read back through every readable handle on the same file. */
  lemma WriteThenRead(s: Store, h: Handles, w: Request, r: Request, i: Ino, j: Ino)
    requires w.op == OP_PWRITE && Serve(s, h, w, i).reply.err == 0 && w.data != []
    requires r.op == OP_PREAD && r.off == w.off && r.len == |w.data| && r.handle in h.open && h.open[r.handle].readable
    requires h.open[r.handle].ino == h.open[w.handle].ino
    ensures var o := Serve(s, h, w, i); Serve(o.store, o.handles, r, j).reply == Reply(0).(data := w.data)
  {
    hide Overwrite, Slice, Clean, SizeOf;
    SliceOfOverwrite(Content(s, h.open[w.handle].ino), w.off, w.data);
  }

  /** A request never takes a file's bytes away from the handles open on it, except by writing to that file. */
  lemma OtherFilesKeepTheirBytes(s: Store, h: Handles, q: Request, newIno: Ino, i: Ino)
    requires OnFiles(q.op) && i in s.data && i != newIno
    requires forall f :: Find(s, q.path) == Some(f) ==> f.ino != i
    requires q.handle in h.open ==> h.open[q.handle].ino != i
    ensures var o := Serve(s, h, q, newIno); i in o.store.data && o.store.data[i] == s.data[i]
  {
    hide Clean, Has, With, Resize, Overwrite, Slice, SizeOf;
  }

  /** Renaming moves the file itself: the new name finds it with its bytes, the old name finds nothing. */
  lemma RenameMoves(s: Store, h: Handles, q: Request, newIno: Ino)
    requires q.op == OP_RENAME && Serve(s, h, q, newIno).reply.err == 0
    ensures var s' := Serve(s, h, q, newIno).store;
            && Find(s', q.path2) == Find(s, q.path)
            && (Find(s, q.path2) != Find(s, q.path) ==> Find(s', q.path) == None)
            && s'.data == s.data && Serve(s, h, q, newIno).handles == h
  {
    hide Clean;
  }

  // ---- the service itself ------------------------------------------------------------------------------

  /** A host's files and the system calls the service makes on them. */
  class Host {
    var names: map<bytes, Ino>
    var data: map<Ino, bytes>

    function Now(): Store
      reads this
    {
      Store(names, data)
    }

    constructor (names: map<bytes, Ino>, data: map<Ino, bytes>)
      ensures this.names == names && this.data == data
    {
      this.names, this.data := names, data;
    }

    method Stat(path: bytes) returns (err: int32, size: int64)
      ensures match Find(Now(), path) case None => err == ENOENT case Some(f) => err == 0 && size == SizeOf(f.content)
    {
      if path == [] || Clean(path) !in names {
        return ENOENT, 0;
      }
      return 0, SizeOf(Content(Now(), names[Clean(path)]));
    }

    /** chmod(2) and utimes(2): all that shows here is whether the file exists. */
    method SetMetadata(path: bytes) returns (err: int32)
      ensures err == if Find(Now(), path).None? then ENOENT else 0
    {
      if path == [] || Clean(path) !in names {
        return ENOENT;
      }
      return 0;
    }

    /** open(2). */
    method Open(path: bytes, flags: nat, newIno: Ino) returns (err: int32, f: OpenFile)
      modifies this
      ensures var d := DecideOpen(path, flags, old(Find(Now(), path)), newIno);
              && Now() == Apply(old(Now()), d.effect) && err == d.reply.err
              && (err == 0 <==> d.handles.Opened?) && (err == 0 ==> f == d.handles.file)
              && (err == 0 ==> d.reply == Reply(0).(size := SizeOf(Content(Now(), f.ino))))
    {
      f := FileOf(0, flags);
      if path == [] {
        return ENOENT, f;
      }
      if Clean(path) in names {
        if Has(flags, O_CREAT) && Has(flags, O_EXCL) {
          return EEXIST, f;
        }
        f := FileOf(names[Clean(path)], flags);
        if Has(flags, O_TRUNC) {
          data := data[f.ino := []];
        }
        return 0, f;
      }
      if !Has(flags, O_CREAT) {
        return ENOENT, f;
      }
      names, data := names[Clean(path) := newIno], data[newIno := []];
      return 0, FileOf(newIno, flags);
    }

    /** unlink(2) and rmdir(2), on a path that is no directory. */
    method Unlink(path: bytes, rmdir: bool) returns (err: int32)
      modifies this`names
      ensures err == if old(Find(Now(), path)).None? then ENOENT else if rmdir then ENOTDIR else 0
      ensures names == if err == 0 then old(names) - {Clean(path)} else old(names)
    {
      if path == [] || Clean(path) !in names {
        return ENOENT;
      }
      if rmdir {
        return ENOTDIR;
      }
      names := names - {Clean(path)};
      return 0;
    }

    /** rename(2). Two names of one file are left alone. */
    method Rename(path: bytes, path2: bytes) returns (err: int32)
      modifies this`names
      ensures var found, found2 := old(Find(Now(), path)), old(Find(Now(), path2));
              && err == (if found.None? || path2 == [] then ENOENT else 0)
              && names == if err != 0 || (found2.Some? && found2.value.ino == found.value.ino) then old(names)
                          else (old(names) - {Clean(path)})[Clean(path2) := found.value.ino]
    {
      if path == [] || path2 == [] || Clean(path) !in names {
        return ENOENT;
      }
      var i := names[Clean(path)];
      if Clean(path2) in names && names[Clean(path2)] == i {
        return 0;
      }
      names := (names - {Clean(path)})[Clean(path2) := i];
      return 0;
    }

    /** truncate(2). */
    method Truncate(path: bytes, size: int64) returns (err: int32)
      modifies this`data
      ensures var found := old(Find(Now(), path));
              && err == (if size < 0 then EINVAL else if found.None? then ENOENT else 0)
              && data == if err != 0 then old(data)
                         else old(data)[found.value.ino := Resize(found.value.content, size)]
    {
      if size < 0 {
        return EINVAL;
      }
      if path == [] || Clean(path) !in names {
        return ENOENT;
      }
      var i := names[Clean(path)];
      data := data[i := Resize(Content(Now(), i), size)];
      return 0;
    }

    /** `File.WriteAt`, which makes no system call for an empty buffer. */
    method WriteAt(f: OpenFile, d: bytes, off: int64) returns (err: int32, n: int64)
      modifies this`data
      ensures err == if f.appending || off < 0 then EIO else if d != [] && !f.writable then EBADF else 0
      ensures data == if err != 0 || d == [] then old(data)
                      else old(data)[f.ino := Overwrite(old(Content(Now(), f.ino)), off, d)]
      ensures err == 0 ==> n == SizeOf(d)
    {
      if f.appending || off < 0 {
        return EIO, 0;
      }
      if d == [] {
        return 0, 0;
      }
      if !f.writable {
        return EBADF, 0;
      }
      data := data[f.ino := Overwrite(Content(Now(), f.ino), off, d)];
      return 0, SizeOf(d);
    }

    /** `File.ReadAt`, end of file counted as success. */
    method ReadAt(f: OpenFile, len: nat, off: int64) returns (err: int32, d: bytes)
      ensures err == if off < 0 then EIO else if len > 0 && !f.readable then EBADF else 0
      ensures d == if err != 0 || len == 0 then [] else Slice(Content(Now(), f.ino), off, len)
    {
      if off < 0 {
        return EIO, [];
      }
      if len == 0 {
        return 0, [];
      }
      if !f.readable {
        return EBADF, [];
      }
      return 0, Slice(Content(Now(), f.ino), off, len);
    }

    /** `os.WriteFile`: create or truncate, then write everything. */
    method WriteFile(path: bytes, d: bytes, newIno: Ino) returns (err: int32)
      modifies this
      ensures err == if path == [] then ENOENT else 0
      ensures Now() == match old(Find(Now(), path))
                       case Some(f) => Apply(old(Now()), Put(f.ino, d))
                       case None => if path == [] then old(Now())
                                    else Apply(old(Now()), Create(Clean(path), newIno, d))
    {
      if path == [] {
        return ENOENT;
      }
      if Clean(path) !in names {
        names := names[Clean(path) := newIno];
      }
      var i := names[Clean(path)];
      data := data[i := []];
      data := data[i := d];
      return 0;
    }
  }

  class FSService {
    const host: Host
    var open: map<uint64, OpenFile>
    var next: uint64

    function Now(): Handles
      reads this
    {
      Handles(open, next)
    }

    constructor (host: Host)
      ensures this.host == host && Now() == NO_HANDLES
    {
      this.host := host;
      open, next := map[], 1;
    }

    /** Dispatches one request. */
    method Handle(q: Request, newIno: Ino) returns (r: Response)
      requires OnFiles(q.op)
      modifies this, host
      ensures Outcome(host.Now(), Now(), r) == Serve(old(host.Now()), old(Now()), q, newIno)
    {
      hide Clean, Has, With, Resize, Overwrite, Slice, SizeOf;
      if q.op == OP_STAT {
        var err, size := host.Stat(q.path);
        r := if err != 0 then Reply(err) else Reply(0).(size := size);
      } else if q.op == OP_OPEN {
        r := OpenWithMode(q, q.flags, newIno);
      } else if q.op == OP_CREATE {
        r := OpenWithMode(q, With(q.flags, O_CREAT), newIno);
      } else if q.op == OP_PREAD || q.op == OP_PWRITE || q.op == OP_CLOSE {
        r := HandleByHandle(q, newIno);
      } else {
        r := HandleByPath(q, newIno);
      }
    }

    method OpenWithMode(q: Request, flags: nat, newIno: Ino) returns (r: Response)
      modifies this, host
      ensures var d := DecideOpen(q.path, flags, old(Find(host.Now(), q.path)), newIno);
              && host.Now() == Apply(old(host.Now()), d.effect)
              && Now() == ApplyHandles(old(Now()), d.handles, q.handle)
              && r == if d.handles.Opened? then d.reply.(handle := old(next)) else d.reply
    {
      hide Clean, Has, SizeOf;
      var err, f := host.Open(q.path, flags, newIno);
      if err != 0 {
        return Reply(err);
      }
      var h := next;
      next := Next(next);
      open := open[h := f];
      return Reply(0).(size := SizeOf(Content(host.Now(), f.ino)), handle := h);
    }

    method HandleByHandle(q: Request, newIno: Ino) returns (r: Response)
      requires q.op == OP_PREAD || q.op == OP_PWRITE || q.op == OP_CLOSE
      modifies this, host`data
      ensures Outcome(host.Now(), Now(), r) == Serve(old(host.Now()), old(Now()), q, newIno)
    {
      hide Clean, Has, With, Resize, Overwrite, Slice, SizeOf, Find;
      if q.handle !in open {
        return Reply(EBADF);
      }
      var f := open[q.handle];
      if q.op == OP_PREAD {
        var err, d := host.ReadAt(f, q.len, q.off);
        r := if err != 0 then Reply(err) else Reply(0).(data := d);
      } else if q.op == OP_PWRITE {
        var err, n := host.WriteAt(f, q.data, q.off);
        r := if err != 0 then Reply(err) else Reply(0).(size := n);
        NoBytes(q.data);
      } else {
        open := open - {q.handle};
        r := Reply(0);
      }
    }

    method HandleByPath(q: Request, newIno: Ino) returns (r: Response)
      requires OnFiles(q.op) && q.op != OP_STAT && q.op != OP_OPEN && q.op != OP_CREATE
      requires q.op != OP_PREAD && q.op != OP_PWRITE && q.op != OP_CLOSE
      modifies host
      ensures Outcome(host.Now(), Now(), r) == Serve(old(host.Now()), old(Now()), q, newIno)
    {
      hide Clean, Has, With, Resize, Overwrite, Slice, SizeOf;
      var err := EINVAL;
      if q.op == OP_WRITEFILE {
        err := host.WriteFile(q.path, q.data, newIno);
      } else if q.op == OP_UNLINK {
        err := host.Unlink(q.path, Has(q.flags, UNLINK_RMDIR));
      } else if q.op == OP_RENAME {
        err := host.Rename(q.path, q.path2);
      } else if q.op == OP_SETATTR {
        r := Setattr(q, newIno);
        return;
      }
      r := Reply(err);
    }

    method Setattr(q: Request, newIno: Ino) returns (r: Response)
      requires q.op == OP_SETATTR
      modifies host`data
      ensures Outcome(host.Now(), Now(), r) == Serve(old(host.Now()), old(Now()), q, newIno)
    {
      hide Clean, Has, Resize;
      var err;
      if Has(q.mask, SET_MODE) {
        err := host.SetMetadata(q.path);
        if err != 0 {
          return Reply(err);
        }
      }
      if Has(q.mask, SET_SIZE) {
        err := host.Truncate(q.path, q.size);
        if err != 0 {
          return Reply(err);
        }
      }
      if Has(q.mask, SET_ATIME) || Has(q.mask, SET_MTIME) {
        err := host.SetMetadata(q.path);
        if err != 0 {
          return Reply(err);
        }
      }
      return Reply(0);
    }

    /** Releases every handle, as at the end of a stream. */
    method CloseAll()
      modifies this
      ensures Now() == Handles(map[], old(next))
    {
      ghost var was := open;
      while open != map[]
        invariant open.Keys <= was.Keys && next == old(next)
        decreases |open|
      {
        var h :| h in open;
        open := open - {h};
      }
    }
  }

  lemma NoBytes(d: bytes)
    ensures d == [] ==> SizeOf(d) == 0
  {
  }

  // ---- behind the wire ---------------------------------------------------------------------------------

  /** Relaying a request over the wire changes nothing: a service looks only at the fields its op carries. */
  lemma RelayedRequest(s: Store, h: Handles, q: Request, newIno: Ino)
    requires OnFiles(q.op)
    ensures Serve(s, h, Relevant(q), newIno) == Serve(s, h, q, newIno)
  {
    hide Clean, Has, With, Resize, Overwrite, Slice, SizeOf, Find, HeldAt;
  }

  /** And a reply sets only the fields its op carries. */
  lemma RelayedReply(s: Store, h: Handles, q: Request, newIno: Ino)
    requires OnFiles(q.op)
    ensures var o := Serve(s, h, q, newIno); R.Delivered(q.op, o.reply) == o.reply
  {
    hide Clean, Has, With, Resize, Overwrite, Slice, SizeOf, Find, HeldAt;
  }
}
