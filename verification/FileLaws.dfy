/** What the file service does for its clients, request by request, in terms of what paths find and handles hold before
    and after (the system calls behind internal/executor/fs.go). */
module FileLaws {
  import opened Bytes
  import opened Paths
  import opened Protocol
  import opened FileService

  /** The host's files and handles make sense, and the inode it would give to a new file is unused. */
  ghost predicate Sound(s: Store, h: Handles, newIno: Ino) {
    && ValidStore(s) && ValidHandles(s, h) && newIno !in s.data
    && forall i :: i in s.data ==> |s.data[i]| < TWO63
  }

  /** Nothing at all has happened. */
  predicate Unchanged(s: Store, h: Handles, o: Outcome) { o.store == s && o.handles == h }

  /** A reply with this errno, size, handle and data, and nothing else in it. */
  predicate Says(r: Response, errno: int, size: int, handle: int, data: bytes) {
    && r.err == errno && r.size == size && r.handle == handle && r.data == data
    && r.names == [] && r.types == [] && r.os == [] && r.arch == []
  }

  /** An error is the errno alone, and changes nothing. */
  predicate Fails(s: Store, h: Handles, o: Outcome, errno: int32) {
    Unchanged(s, h, o) && Says(o.reply, errno, 0, 0, [])
  }

  /** Every path that names another place finds what it found. */
  ghost predicate OtherPathsKeep(s: Store, t: Store, path: bytes) {
    forall p :: p == [] || Clean(p) != Clean(path) ==> Find(t, p) == Find(s, p)
  }

  /** Every handle holds the bytes it held. */
  ghost predicate HandlesKeep(s: Store, t: Store, h: Handles) {
    forall a :: a in h.open ==> HeldAt(t, h, a) == HeldAt(s, h, a)
  }

  /** The bytes of file `i`, by whatever path or handle, are `b` now, and everything else is as it was. */
  ghost predicate OnlyBytesOf(s: Store, t: Store, h: Handles, i: Ino, b: bytes) {
    && (forall p :: Find(t, p) == match Find(s, p)
                                  case None => None
                                  case Some(f) => Some(Found(f.ino, if f.ino == i then b else f.content)))
    && (forall a :: a in h.open ==>
          HeldAt(t, h, a)
          == Some(Held(h.open[a], if h.open[a].ino == i then b else HeldAt(s, h, a).value.content)))
  }

  /** The paths that name one place find the same; the empty path finds nothing. */
  lemma SamePlaceSameFile(s: Store, p: bytes, q: bytes)
    ensures Find(s, []) == None
    ensures p != [] && q != [] && Clean(p) == Clean(q) ==> Find(s, p) == Find(s, q)
  {
    hide Clean;
  }

  /** STAT answers the file's size. */
  lemma StatLaw(s: Store, h: Handles, q: Request, newIno: Ino)
    requires q.op == OP_STAT && Sound(s, h, newIno)
    ensures var o := Serve(s, h, q, newIno);
            if Find(s, q.path).None? then Fails(s, h, o, ENOENT)
            else Unchanged(s, h, o) && Says(o.reply, 0, |Find(s, q.path).value.content|, 0, [])
  {
    hide Clean;
  }

  /** UNLINK takes the name away and nothing else: not the bytes of open handles, not what other paths find. */
  lemma UnlinkLaw(s: Store, h: Handles, q: Request, newIno: Ino)
    requires q.op == OP_UNLINK
    ensures var o := Serve(s, h, q, newIno);
            if Find(s, q.path).None? then Fails(s, h, o, ENOENT)
            else if q.flags % 2 == 1 then Fails(s, h, o, ENOTDIR)
            else
              && Says(o.reply, 0, 0, 0, []) && Find(o.store, q.path) == None && OtherPathsKeep(s, o.store, q.path)
              && o.store.data == s.data && o.handles == h
  {
    hide Clean;
    LowBit(q.flags);
  }

  // ---- opening -----------------------------------------------------------------------------------------

  predicate Bit(flags: nat, b: nat)
    requires b > 0
  {
    flags % (2 * b) >= b
  }

  lemma QuotientIs(n: nat, d: nat, q: nat, r: nat)
    requires r < d && n == d * q + r
    ensures n / d == q && n % d == r
  {
    var k := n / d - q;
    assert n == d * (n / d) + n % d;
    assert d * k == r - n % d;
    Multiple(d, k);
  }

  lemma Multiple(d: nat, k: int)
    ensures k >= 1 ==> d * k >= d
    ensures k <= -1 ==> d * k <= -(d as int)
  {
  }

  lemma LowBit(flags: nat)
    ensures Has(flags, 1) == (flags % 2 == 1)
  {
  }

  lemma HasIsBit(flags: nat, b: nat)
    requires b > 0
    ensures Has(flags, b) == Bit(flags, b)
  {
    var m, r := flags / b, flags % b;
    var d := m % 2;
    assert flags == b * m + r && m == 2 * (m / 2) + d;
    assert b * m == 2 * b * (m / 2) + b * d;
    assert b * d == if d == 1 then b else 0;
    QuotientIs(flags, 2 * b, m / 2, b * d + r);
  }

  /** Setting the create flag changes no other flag and no access mode. */
  lemma WithCreate(flags: nat)
    ensures Bit(With(flags, O_CREAT), 0x40) && With(flags, O_CREAT) % 64 == flags % 64
    ensures Bit(With(flags, O_CREAT), 0x80) == Bit(flags, 0x80)
    ensures Bit(With(flags, O_CREAT), 0x200) == Bit(flags, 0x200)
    ensures Bit(With(flags, O_CREAT), 0x400) == Bit(flags, 0x400)
  {
    hide Has, Bit;
    HasIsBit(flags, O_CREAT);
    CreateBit(flags);
    if !Has(flags, O_CREAT) {
      HigherBitStays(flags, 1);
      HigherBitStays(flags, 4);
      HigherBitStays(flags, 8);
    }
  }

  lemma CreateBit(flags: nat)
    ensures Bit(flags, 0x40) <==> flags % 128 >= 64
    ensures !Bit(flags, 0x40) ==> Bit(flags + 64, 0x40)
    ensures (flags + 64) % 64 == flags % 64
  {
    if flags % 128 < 64 {
      QuotientIs(flags + 64, 128, flags / 128, flags % 128 + 64);
    }
  }

  lemma HigherBitStays(flags: nat, c: nat)
    requires c > 0 && flags % 128 < 64
    ensures Bit(flags + 64, 128 * c) == Bit(flags, 128 * c)
  {
    hide Has, Bit;
    var u, v := flags / 128, flags % 128;
    var w, x := u / c, u % c;
    assert u == c * w + x;
    assert flags == 128 * c * w + (128 * x + v);
    QuotientIs(flags, 128 * c, w, 128 * x + v);
    QuotientIs(flags + 64, 128 * c, w, 128 * x + v + 64);
    HasIsBit(flags, 128 * c);
    HasIsBit(flags + 64, 128 * c);
    SameQuotientSameBit(flags, flags + 64, 128 * c);
  }

  lemma SameQuotientSameBit(a: nat, b: nat, bit: nat)
    requires bit > 0 && a / bit == b / bit
    ensures Has(a, bit) == Has(b, bit)
  {
  }

  /** One more handle, under the next number: read-only, write-only or both by the low two flag bits, appending by
      O_APPEND. */
  predicate OpensAs(h: Handles, k: Handles, i: Ino, flags: nat) {
    && k.next == (if h.next + 1 == TWO64 then 0 else h.next + 1)
    && k.open.Keys == h.open.Keys + {h.next}
    && (forall a :: a in h.open && a != h.next ==> k.open[a] == h.open[a])
    && k.open[h.next].ino == i
    && k.open[h.next].readable == (flags % 4 == 0 || flags % 4 == 2)
    && k.open[h.next].writable == (flags % 4 == 1 || flags % 4 == 2)
    && k.open[h.next].appending == Bit(flags, 0x400)
  }

  /** OPEN and CREATE: an absent file is made, empty, if the flags or the op ask for it; a present one is refused if it
      was to be exclusive, emptied if it was to be truncated, and otherwise left alone. */
  lemma OpenLaw(s: Store, h: Handles, q: Request, newIno: Ino)
    requires (q.op == OP_OPEN || q.op == OP_CREATE) && Sound(s, h, newIno)
    ensures var o, found := Serve(s, h, q, newIno), Find(s, q.path);
            var creating := q.op == OP_CREATE || Bit(q.flags, 0x40);
            if found.None? then
              if q.path == [] || !creating then Fails(s, h, o, ENOENT)
              else
                && Says(o.reply, 0, 0, h.next, []) && Find(o.store, q.path) == Some(Found(newIno, []))
                && OtherPathsKeep(s, o.store, q.path) && HandlesKeep(s, o.store, h)
                && OpensAs(h, o.handles, newIno, q.flags)
            else if creating && Bit(q.flags, 0x80) then Fails(s, h, o, EEXIST)
            else
              var i, b := found.value.ino, if Bit(q.flags, 0x200) then [] else found.value.content;
              && Says(o.reply, 0, |b|, h.next, [])
              && OnlyBytesOf(s, o.store, h, i, b) && OpensAs(h, o.handles, i, q.flags)
  {
    hide Clean, Has, With, Bit, OnlyBytesOf, OtherPathsKeep, HandlesKeep, OpensAs, SizeOf;
    var flags, found := if q.op == OP_CREATE then With(q.flags, O_CREAT) else q.flags, Find(s, q.path);
    WithCreate(q.flags);
    HasIsBit(flags, O_CREAT);
    HasIsBit(flags, O_EXCL);
    HasIsBit(flags, O_TRUNC);
    if found.Some? {
      var i, b := found.value.ino, if Bit(q.flags, 0x200) then [] else found.value.content;
      PutLaw(s, h, i, b);
      KeepLaw(s, h, q.path);
      HandleLaw(h, i, flags, q.flags);
      SizeIsLength(s, q.path);
      NothingHasSize();
    } else if q.path != [] {
      CreateLaw(s, h, q.path, newIno, []);
      HandleLaw(h, newIno, flags, q.flags);
    }
  }

  lemma NothingHasSize()
    ensures SizeOf([]) == 0
  {
  }

  lemma SizeIsLength(s: Store, path: bytes)
    requires ValidStore(s) && forall i :: i in s.data ==> |s.data[i]| < TWO63
    ensures Find(s, path).Some? ==> SizeOf(Find(s, path).value.content) == |Find(s, path).value.content|
  {
    hide Clean;
  }

  lemma HandleLaw(h: Handles, i: Ino, flags: nat, asked: nat)
    requires flags % 64 == asked % 64 && Bit(flags, 0x400) == Bit(asked, 0x400)
    ensures OpensAs(h, ApplyHandles(h, Opened(FileOf(i, flags)), 0), i, asked)
  {
    hide Has, Bit;
    HasIsBit(flags, O_APPEND);
    LowTwo(flags);
    LowTwo(asked);
  }

  lemma LowTwo(flags: nat)
    ensures flags % 4 == (flags % 64) % 4
  {
    QuotientIs(flags, 4, 16 * (flags / 64) + (flags % 64) / 4, (flags % 64) % 4);
  }

  lemma PutLaw(s: Store, h: Handles, i: Ino, b: bytes)
    requires ValidStore(s) && ValidHandles(s, h)
    ensures OnlyBytesOf(s, Apply(s, Put(i, b)), h, i, b)
  {
    hide Clean;
  }

  lemma KeepLaw(s: Store, h: Handles, path: bytes)
    requires ValidStore(s) && ValidHandles(s, h) && Find(s, path).Some?
    ensures OnlyBytesOf(s, s, h, Find(s, path).value.ino, Find(s, path).value.content)
  {
    hide Clean;
  }

  lemma CreateLaw(s: Store, h: Handles, path: bytes, newIno: Ino, b: bytes)
    requires ValidStore(s) && ValidHandles(s, h) && newIno !in s.data && path != []
    ensures var t := Apply(s, Create(Clean(path), newIno, b));
            Find(t, path) == Some(Found(newIno, b)) && OtherPathsKeep(s, t, path) && HandlesKeep(s, t, h)
  {
    hide Clean;
  }

  // ---- by handle ---------------------------------------------------------------------------------------

  /** PREAD answers the bytes there are in the range asked for, through readable handles only. */
  lemma PreadLaw(s: Store, h: Handles, q: Request, newIno: Ino)
    requires q.op == OP_PREAD
    ensures var o, held := Serve(s, h, q, newIno), HeldAt(s, h, q.handle);
            if held.None? then Fails(s, h, o, EBADF)
            else if q.off < 0 then Fails(s, h, o, EIO)
            else if q.len > 0 && !held.value.file.readable then Fails(s, h, o, EBADF)
            else
              var b, d := held.value.content, o.reply.data;
              && Unchanged(s, h, o) && Says(o.reply, 0, 0, 0, d)
              && |d| == (if q.off >= |b| then 0 else if q.off + q.len > |b| then |b| - q.off else q.len)
              && forall k :: 0 <= k < |d| ==> d[k] == b[q.off + k]
  {
  }

  /** PWRITE puts its bytes where it says, through writable handles that do not append, and fills a gap with zeros. */
  lemma PwriteLaw(s: Store, h: Handles, q: Request, newIno: Ino)
    requires q.op == OP_PWRITE && Sound(s, h, newIno) && |q.data| < TWO63
    ensures var o, held := Serve(s, h, q, newIno), HeldAt(s, h, q.handle);
            if held.None? then Fails(s, h, o, EBADF)
            else if held.value.file.appending || q.off < 0 then Fails(s, h, o, EIO)
            else if q.data == [] then Unchanged(s, h, o) && Says(o.reply, 0, 0, 0, [])
            else if !held.value.file.writable then Fails(s, h, o, EBADF)
            else
              var i, was, b := held.value.file.ino, held.value.content, HeldAt(o.store, h, q.handle).value.content;
              && Says(o.reply, 0, |q.data|, 0, []) && o.handles == h && OnlyBytesOf(s, o.store, h, i, b)
              && |b| == (if q.off + |q.data| > |was| then q.off + |q.data| else |was|)
              && forall k :: 0 <= k < |b| ==>
                   b[k] == if q.off <= k < q.off + |q.data| then q.data[k - q.off] else if k < |was| then was[k] else 0
  {
    hide Overwrite, OnlyBytesOf, Find, SizeOf;
    var held := HeldAt(s, h, q.handle);
    if held.Some? && q.off >= 0 && q.data != [] {
      var b := Overwrite(held.value.content, q.off, q.data);
      OverwriteBytes(held.value.content, q.off, q.data);
      PutLaw(s, h, held.value.file.ino, b);
      SizeOfData(q.data);
    }
  }

  lemma SizeOfData(d: bytes)
    requires |d| < TWO63
    ensures SizeOf(d) == |d|
  {
  }

  /** CLOSE forgets that one handle. */
  lemma CloseLaw(s: Store, h: Handles, q: Request, newIno: Ino)
    requires q.op == OP_CLOSE
    ensures var o := Serve(s, h, q, newIno);
            if q.handle !in h.open then Fails(s, h, o, EBADF)
            else
              && Says(o.reply, 0, 0, 0, []) && o.store == s && o.handles.next == h.next
              && o.handles.open.Keys == h.open.Keys - {q.handle}
              && forall a :: a in o.handles.open ==> o.handles.open[a] == h.open[a]
  {
    hide Find;
  }

  // ---- by path -----------------------------------------------------------------------------------------

  /** WRITEFILE leaves the file with exactly the data, in place if there was one. */
  lemma WriteFileLaw(s: Store, h: Handles, q: Request, newIno: Ino)
    requires q.op == OP_WRITEFILE && Sound(s, h, newIno)
    ensures var o, found := Serve(s, h, q, newIno), Find(s, q.path);
            if q.path == [] then Fails(s, h, o, ENOENT)
            else
              && Says(o.reply, 0, 0, 0, []) && o.handles == h
              && if found.Some? then OnlyBytesOf(s, o.store, h, found.value.ino, q.data)
                 else
                   && Find(o.store, q.path) == Some(Found(newIno, q.data))
                   && OtherPathsKeep(s, o.store, q.path) && HandlesKeep(s, o.store, h)
  {
    hide Clean, OnlyBytesOf, OtherPathsKeep, HandlesKeep;
    if Find(s, q.path).Some? {
      PutLaw(s, h, Find(s, q.path).value.ino, q.data);
    } else if q.path != [] {
      CreateLaw(s, h, q.path, newIno, q.data);
    }
  }

  /** RENAME moves the file over whatever had the new name; two names of one file stay. */
  lemma RenameLaw(s: Store, h: Handles, q: Request, newIno: Ino)
    requires q.op == OP_RENAME
    ensures var o, from, to := Serve(s, h, q, newIno), Find(s, q.path), Find(s, q.path2);
            if from.None? || q.path2 == [] then Fails(s, h, o, ENOENT)
            else
              && Says(o.reply, 0, 0, 0, []) && o.handles == h && o.store.data == s.data
              && if to.Some? && to.value.ino == from.value.ino then o.store == s
                 else
                   && Find(o.store, q.path) == None && Find(o.store, q.path2) == from
                   && forall p :: p == [] || (Clean(p) != Clean(q.path) && Clean(p) != Clean(q.path2)) ==>
                        Find(o.store, p) == Find(s, p)
  {
    hide Clean;
  }

  /** SETATTR needs the file for anything it sets; a new size cuts it or fills it with zeros. */
  lemma SetattrLaw(s: Store, h: Handles, q: Request, newIno: Ino)
    requires q.op == OP_SETATTR && Sound(s, h, newIno)
    ensures var o, found := Serve(s, h, q, newIno), Find(s, q.path);
            var mode, size, times := q.mask % 2 == 1, Bit(q.mask, 2), Bit(q.mask, 4) || Bit(q.mask, 8);
            if mode && found.None? then Fails(s, h, o, ENOENT)
            else if size && q.size < 0 then Fails(s, h, o, EINVAL)
            else if (size || times) && found.None? then Fails(s, h, o, ENOENT)
            else
              && Says(o.reply, 0, 0, 0, []) && o.handles == h
              && if !size then o.store == s
                 else
                   && Find(o.store, q.path).Some?
                   && var i, was, b := found.value.ino, found.value.content, Find(o.store, q.path).value.content;
                      && OnlyBytesOf(s, o.store, h, i, b) && |b| == q.size
                      && forall k :: 0 <= k < |b| ==> b[k] == if k < |was| then was[k] else 0
  {
    hide Clean, Has, Bit, Resize, OnlyBytesOf, OtherPathsKeep, HandlesKeep;
    HasIsBit(q.mask, SET_SIZE);
    HasIsBit(q.mask, SET_ATIME);
    HasIsBit(q.mask, SET_MTIME);
    LowBit(q.mask);
    var found := Find(s, q.path);
    if found.Some? && q.size >= 0 {
      PutLaw(s, h, found.value.ino, Resize(found.value.content, q.size));
    }
  }

  /** An op the service does not know is refused. */
  lemma UnknownOpLaw(s: Store, h: Handles, q: Request, newIno: Ino)
    requires OnFiles(q.op) && !KnownOp(q.op)
    ensures Fails(s, h, Serve(s, h, q, newIno), EINVAL)
  {
    hide Clean;
  }
}
