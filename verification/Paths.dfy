/** Lexical path cleaning (Go's filepath.Clean on a Unix host) by way of path components. */
module Paths {
  import opened Bytes

  const SLASH: byte := 47
  const DOT: byte := 46
  const HERE: bytes := [DOT]
  const UP: bytes := [DOT, DOT]

  type Parts = seq<bytes>

  /** The pieces of `s` between occurrences of `sep`; there is always at least one. */
  function Split(s: bytes, sep: byte): (parts: Parts)
    ensures parts != []
    ensures forall i :: 0 <= i < |parts| ==> sep !in parts[i]
  {
    if s == [] then [[]] else PutFirst(s[0], sep, Split(s[1..], sep))
  }

  /** One more byte in front: a separator starts a new piece, anything else joins the first one. */
  function PutFirst(x: byte, sep: byte, parts: Parts): (r: Parts)
    requires parts != [] && forall i :: 0 <= i < |parts| ==> sep !in parts[i]
    ensures r != [] && forall i :: 0 <= i < |r| ==> sep !in r[i]
  {
    if x == sep then [[]] + parts else [[x] + parts[0]] + parts[1..]
  }

  lemma PutFirstConcat(x: byte, sep: byte, a: Parts, b: Parts)
    requires a != [] && (forall i :: 0 <= i < |a| ==> sep !in a[i])
    requires forall i :: 0 <= i < |b| ==> sep !in b[i]
    ensures PutFirst(x, sep, a + b) == PutFirst(x, sep, a) + b
  {
    assert (a + b)[0] == a[0] && (a + b)[1..] == a[1..] + b;
    assert [[x] + a[0]] + (a[1..] + b) == ([[x] + a[0]] + a[1..]) + b;
    assert [[]] + (a + b) == ([[]] + a) + b;
  }

  function Join(parts: Parts, sep: byte): bytes {
    if parts == [] then []
    else if |parts| == 1 then parts[0]
    else parts[0] + [sep] + Join(parts[1..], sep)
  }

  /** Drops empty and "." components and lets ".." undo the component before it. */
  function Reduce(parts: Parts, rooted: bool, acc: Parts): Parts
    decreases |parts|
  {
    if parts == [] then acc
    else
      var p, rest := parts[0], parts[1..];
      if p == [] || p == HERE then Reduce(rest, rooted, acc)
      else if p != UP then Reduce(rest, rooted, acc + [p])
      else if acc != [] && acc[|acc| - 1] != UP then Reduce(rest, rooted, acc[..|acc| - 1])
      else if rooted then Reduce(rest, rooted, acc)
      else Reduce(rest, rooted, acc + [p])
  }

  predicate Rooted(p: bytes) { p != [] && p[0] == SLASH }

  /** The components of a path after cleaning. */
  function Components(p: bytes): Parts { Reduce(Split(p, SLASH), Rooted(p), []) }

  function Render(rooted: bool, parts: Parts): bytes {
    if rooted then [SLASH] + Join(parts, SLASH) else if parts == [] then HERE else Join(parts, SLASH)
  }

  function Clean(p: bytes): bytes { Render(Rooted(p), Components(p)) }

  predicate Plain(part: bytes) { part != [] && part != HERE && SLASH !in part }

  /** What cleaning leaves: plain components, with ".." only at the front of a relative path. */
  predicate Normal(parts: Parts, rooted: bool) {
    && (forall i :: 0 <= i < |parts| ==> Plain(parts[i]))
    && (forall i :: 0 <= i < |parts| && parts[i] == UP ==> !rooted && forall j :: 0 <= j < i ==> parts[j] == UP)
  }

  lemma {:induction false} ReduceIsNormal(parts: Parts, rooted: bool, acc: Parts)
    requires forall i :: 0 <= i < |parts| ==> SLASH !in parts[i]
    requires Normal(acc, rooted)
    ensures Normal(Reduce(parts, rooted, acc), rooted)
    decreases |parts|
  {
    if parts != [] {
      var p, rest := parts[0], parts[1..];
      if p == [] || p == HERE {
        ReduceIsNormal(rest, rooted, acc);
      } else if p != UP {
        ReduceIsNormal(rest, rooted, acc + [p]);
      } else if acc != [] && acc[|acc| - 1] != UP {
        ReduceIsNormal(rest, rooted, acc[..|acc| - 1]);
      } else if rooted {
        ReduceIsNormal(rest, rooted, acc);
      } else {
        ReduceIsNormal(rest, rooted, acc + [p]);
      }
    }
  }

  lemma {:induction false} ReduceKeepsNormal(parts: Parts, rooted: bool, acc: Parts)
    requires Normal(acc + parts, rooted)
    ensures Reduce(parts, rooted, acc) == acc + parts
    decreases |parts|
  {
    if parts == [] {
      assert acc + parts == acc;
    } else {
      var p := parts[0];
      assert (acc + parts)[|acc|] == p;
      assert acc + parts == (acc + [p]) + parts[1..];
      if p == UP && acc != [] {
        assert (acc + parts)[|acc| - 1] == acc[|acc| - 1];
      }
      ReduceKeepsNormal(parts[1..], rooted, acc + [p]);
    }
  }

  lemma {:induction false} SplitPiece(a: bytes, sep: byte)
    requires sep !in a
    ensures Split(a, sep) == [a]
  {
    if a != [] {
      SplitPiece(a[1..], sep);
      assert [a[0]] + a[1..] == a;
    }
  }

  /** Splitting at a separator that is written out splits each side. */
  lemma {:induction false} SplitConcat(a: bytes, b: bytes, sep: byte)
    ensures Split(a + [sep] + b, sep) == Split(a, sep) + Split(b, sep)
  {
    var all := a + [sep] + b;
    if a == [] {
      assert all[1..] == b;
    } else {
      hide PutFirst;
      assert all[0] == a[0] && all[1..] == a[1..] + [sep] + b;
      SplitConcat(a[1..], b, sep);
      PutFirstConcat(a[0], sep, Split(a[1..], sep), Split(b, sep));
    }
  }

  lemma {:induction false} SplitJoin(parts: Parts, sep: byte)
    requires parts != [] && forall i :: 0 <= i < |parts| ==> sep !in parts[i]
    ensures Split(Join(parts, sep), sep) == parts
  {
    if |parts| == 1 {
      SplitPiece(parts[0], sep);
    } else {
      SplitConcat(parts[0], Join(parts[1..], sep), sep);
      SplitPiece(parts[0], sep);
      SplitJoin(parts[1..], sep);
      assert parts == [parts[0]] + parts[1..];
    }
  }

  lemma {:induction false} JoinSplit(s: bytes, sep: byte)
    ensures Join(Split(s, sep), sep) == s
  {
    if s != [] {
      JoinSplit(s[1..], sep);
      JoinPutFirst(s[0], sep, Split(s[1..], sep));
      assert [s[0]] + s[1..] == s;
    }
  }

  lemma JoinPutFirst(x: byte, sep: byte, parts: Parts)
    requires parts != [] && forall i :: 0 <= i < |parts| ==> sep !in parts[i]
    ensures Join(PutFirst(x, sep, parts), sep) == [x] + Join(parts, sep)
  {
    var r := PutFirst(x, sep, parts);
    if x == sep {
      assert r[1..] == parts;
    } else {
      assert r[0] == [x] + parts[0] && r[1..] == parts[1..];
    }
  }

  lemma {:induction false} JoinConcat(a: Parts, b: Parts, sep: byte)
    requires a != [] && b != []
    ensures Join(a + b, sep) == Join(a, sep) + [sep] + Join(b, sep)
  {
    if |a| == 1 {
      assert (a + b)[1..] == b;
    } else {
      assert (a + b)[1..] == a[1..] + b;
      JoinConcat(a[1..], b, sep);
    }
  }

  lemma JoinIsRelative(parts: Parts)
    requires parts != [] && Plain(parts[0])
    ensures Join(parts, SLASH) != [] && !Rooted(Join(parts, SLASH)) && Join(parts, SLASH)[0] == parts[0][0]
  {
    assert parts[0][0] in parts[0];
  }

  /** Splitting a rendered path gives its components back, after the empty piece before the root. */
  lemma SplitRender(rooted: bool, parts: Parts)
    requires Normal(parts, rooted)
    ensures Rooted(Render(rooted, parts)) == rooted
    ensures parts != [] ==>
              Split(Render(rooted, parts), SLASH) == (if rooted then [[]] else []) + parts
  {
    if parts != [] {
      JoinIsRelative(parts);
      SplitJoin(parts, SLASH);
      if rooted {
        SplitConcat([], Join(parts, SLASH), SLASH);
        assert [] + [SLASH] + Join(parts, SLASH) == Render(rooted, parts);
      }
    }
  }

  lemma RootAndHereHaveNoComponents()
    ensures Components([SLASH]) == [] && Components(HERE) == []
    ensures Render(true, []) == [SLASH] && Render(false, []) == HERE
  {
    SplitConcat([], [], SLASH);
    assert [] + [SLASH] + [] == [SLASH] && Split([], SLASH) == [[]];
    var two: Parts := [[], []];
    assert Split([SLASH], SLASH) == two && two[1..] == [[]] && two[1..][1..] == [];
    assert Reduce(two[1..], true, []) == Reduce(two[1..][1..], true, []) == [];
    SplitPiece(HERE, SLASH);
    var one: Parts := [HERE];
    assert one[1..] == [] && Split(HERE, SLASH) == one;
    assert Reduce(one, false, []) == Reduce(one[1..], false, []) == [];
    assert !Rooted(HERE);
  }

  lemma ComponentsOfRender(rooted: bool, parts: Parts)
    requires Normal(parts, rooted)
    ensures Components(Render(rooted, parts)) == parts
  {
    SplitRender(rooted, parts);
    if parts == [] {
      RootAndHereHaveNoComponents();
    } else {
      assert [] + parts == parts;
      ReduceKeepsNormal(parts, rooted, []);
      if rooted {
        assert ([[]] + parts)[1..] == parts;
      }
    }
  }

  lemma ComponentsAreNormal(p: bytes)
    ensures Normal(Components(p), Rooted(p))
  {
    ReduceIsNormal(Split(p, SLASH), Rooted(p), []);
  }

  /** Cleaning a clean path changes nothing, and keeps the components. */
  lemma CleanIsIdempotent(p: bytes)
    ensures Clean(Clean(p)) == Clean(p)
    ensures Rooted(Clean(p)) == Rooted(p) && Components(Clean(p)) == Components(p)
  {
    ComponentsAreNormal(p);
    SplitRender(Rooted(p), Components(p));
    ComponentsOfRender(Rooted(p), Components(p));
  }

  // ---- where a path leads --------------------------------------------------------------------------------

  /** Where these components lead from a directory: down by a name, up by "..", never above the root. */
  function Walk(at: Parts, parts: Parts): Parts
    decreases |parts|
  {
    if parts == [] then at
    else if parts[0] == [] || parts[0] == HERE then Walk(at, parts[1..])
    else if parts[0] == UP then Walk(if at == [] then [] else at[..|at| - 1], parts[1..])
    else Walk(at + [parts[0]], parts[1..])
  }

  /** The place a path names for someone in directory `cwd`. */
  function Place(cwd: Parts, p: bytes): Parts { Walk(if Rooted(p) then [] else cwd, Split(p, SLASH)) }

  lemma {:induction false} WalkConcat(at: Parts, a: Parts, b: Parts)
    ensures Walk(at, a + b) == Walk(Walk(at, a), b)
    decreases |a|
  {
    if a == [] {
      assert a + b == b;
    } else {
      assert (a + b)[1..] == a[1..] + b;
      var next := if a[0] == [] || a[0] == HERE then at
                  else if a[0] == UP then (if at == [] then [] else at[..|at| - 1])
                  else at + [a[0]];
      WalkConcat(next, a[1..], b);
    }
  }

  lemma OneStep(at: Parts, p: bytes)
    ensures Walk(at, [p]) == if p == [] || p == HERE then at
                             else if p == UP then (if at == [] then [] else at[..|at| - 1])
                             else at + [p]
  {
    assert [p][1..] == [];
  }

  lemma DownAndUp(at: Parts, acc: Parts)
    requires acc != [] && Plain(acc[|acc| - 1]) && acc[|acc| - 1] != UP
    ensures Walk(at, acc + [UP]) == Walk(at, acc[..|acc| - 1])
  {
    hide Walk;
    var init, x := acc[..|acc| - 1], acc[|acc| - 1];
    assert acc == init + [x];
    WalkConcat(at, acc, [UP]);
    WalkConcat(at, init, [x]);
    OneStep(Walk(at, init), x);
    OneStep(Walk(at, init) + [x], UP);
    assert (Walk(at, init) + [x])[..|Walk(at, init)|] == Walk(at, init);
  }

  lemma {:induction false} ReduceWalks(at: Parts, parts: Parts, rooted: bool, acc: Parts)
    requires Normal(acc, rooted) && (forall i :: 0 <= i < |parts| ==> SLASH !in parts[i]) && (rooted ==> at == [])
    ensures Walk(at, Reduce(parts, rooted, acc)) == Walk(at, acc + parts)
    decreases |parts|
  {
    hide Walk;
    if parts == [] {
      assert acc + parts == acc;
    } else {
      var p, rest := parts[0], parts[1..];
      assert acc + parts == acc + [p] + rest;
      WalkConcat(at, acc + [p], rest);
      WalkConcat(at, acc, [p]);
      WalkConcat(at, acc, rest);
      OneStep(Walk(at, acc), p);
      if p == [] || p == HERE {
        ReduceWalks(at, rest, rooted, acc);
      } else if p != UP {
        ReduceWalks(at, rest, rooted, acc + [p]);
      } else if acc != [] && acc[|acc| - 1] != UP {
        DownAndUp(at, acc);
        WalkConcat(at, acc[..|acc| - 1], rest);
        ReduceWalks(at, rest, rooted, acc[..|acc| - 1]);
      } else if rooted {
        NowhereYet(at);
        ReduceWalks(at, rest, rooted, acc);
      } else {
        ReduceWalks(at, rest, rooted, acc + [p]);
      }
    }
  }

  lemma NowhereYet(at: Parts)
    ensures Walk(at, []) == at
  {
  }

  /** Cleaning keeps what a path means: from every directory, the clean path leads to the same place. */
  lemma CleanKeepsPlace(cwd: Parts, p: bytes)
    ensures Place(cwd, Clean(p)) == Place(cwd, p)
  {
    hide Walk, Reduce, Split;
    var rooted, parts := Rooted(p), Components(p);
    var at := if rooted then [] else cwd;
    ComponentsAreNormal(p);
    ReduceWalks(at, Split(p, SLASH), rooted, []);
    assert [] + Split(p, SLASH) == Split(p, SLASH);
    SplitRender(rooted, parts);
    if parts == [] {
      RootLeadsNowhere(at, rooted);
    } else if rooted {
      WalkConcat(at, [[]], parts);
      OneStep(at, []);
    } else {
      assert [] + parts == parts;
    }
  }

  lemma RootLeadsNowhere(at: Parts, rooted: bool)
    ensures Walk(at, Split(Render(rooted, []), SLASH)) == at == Walk(at, [])
  {
    SplitConcat([], [], SLASH);
    SplitPiece([], SLASH);
    SplitPiece(HERE, SLASH);
    assert [] + [SLASH] + [] == [SLASH];
    var two: Parts := [[], []];
    assert two[1..] == [[]] && two[1..][1..] == [];
    OneStep(at, HERE);
    assert Split([SLASH], SLASH) == two;
    assert Walk(at, two) == Walk(at, two[1..]) == Walk(at, two[1..][1..]);
  }
}
