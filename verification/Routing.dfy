/** Local-or-remote routing by path prefix (internal/routing), and the two C copies of the prefix match that work
    on a colon-joined environment variable. */
module Routing {
  import opened Bytes
  import opened Paths

  const COLON: byte := 58

  datatype Mode = RemoteAllowlist | LocalAllowlist

  datatype Table = Table(mode: Mode, remotePrefixes: Parts, localPrefixes: Parts)

  /** The prefixes of a list that are not blank, trimmed and cleaned, in order. */
  function CleanPrefixes(prefixes: Parts): Parts {
    if prefixes == [] then []
    else
      var init, p := CleanPrefixes(prefixes[..|prefixes| - 1]), Trim(prefixes[|prefixes| - 1]);
      if p == [] then init else init + [Clean(p)]
  }

  /** `clean` is `pre` or lies under it. */
  predicate Under(clean: bytes, pre: bytes) { clean == pre || pre + [SLASH] <= clean }

  predicate UnderAny(clean: bytes, prefixes: Parts) { exists i :: 0 <= i < |prefixes| && Under(clean, prefixes[i]) }

  predicate IsRemote(t: Table, path: bytes) {
    if path == [] then t.mode.LocalAllowlist?
    else if t.mode.LocalAllowlist? then !UnderAny(Clean(path), t.localPrefixes)
    else UnderAny(Clean(path), t.remotePrefixes)
  }

  method CleanPrefixList(prefixes: Parts) returns (out: Parts)
    ensures out == CleanPrefixes(prefixes)
  {
    hide Clean, Trim;
    out := [];
    for i := 0 to |prefixes|
      invariant out == CleanPrefixes(prefixes[..i])
    {
      assert prefixes[..i + 1][..i] == prefixes[..i];
      var p := Trim(prefixes[i]);
      if p == [] {
        continue;
      }
      out := out + [Clean(p)];
    }
    assert prefixes[..|prefixes|] == prefixes;
  }

  method NewTable(mode: Mode, remotePrefixes: Parts, localPrefixes: Parts) returns (t: Table)
    ensures t == Table(mode, CleanPrefixes(remotePrefixes), CleanPrefixes(localPrefixes))
  {
    var remote := CleanPrefixList(remotePrefixes);
    var local := CleanPrefixList(localPrefixes);
    t := Table(mode, remote, local);
  }

  method MatchesAny(clean: bytes, prefixes: Parts) returns (hit: bool)
    ensures hit <==> UnderAny(clean, prefixes)
  {
    for i := 0 to |prefixes|
      invariant forall j :: 0 <= j < i ==> !Under(clean, prefixes[j])
    {
      if clean == prefixes[i] {
        assert Under(clean, prefixes[i]);
        return true;
      }
      if prefixes[i] + [SLASH] <= clean {
        assert Under(clean, prefixes[i]);
        return true;
      }
    }
    return false;
  }

  // ---- what a prefix match means -----------------------------------------------------------------------

  /** Component-wise: `pre` names `path` or one of its ancestors. The paths without components, "/" and ".", are
      ancestors of nothing here. */
  predicate NamesAncestor(pre: bytes, path: bytes) {
    && Rooted(pre) == Rooted(path)
    && Components(pre) <= Components(path)
    && (Components(pre) == [] ==> Components(path) == [])
  }

  lemma AncestorIsPrefix(rooted: bool, a: Parts, b: Parts)
    requires Normal(a, rooted) && Normal(b, rooted) && a != [] && a <= b
    ensures Under(Render(rooted, b), Render(rooted, a))
  {
    hide Normal, Join;
    if a != b {
      var rest := b[|a|..];
      assert b == a + rest;
      JoinConcat(a, rest, SLASH);
      var tail := Join(rest, SLASH);
      assert Join(b, SLASH) == Join(a, SLASH) + [SLASH] + tail;
      assert [SLASH] + (Join(a, SLASH) + [SLASH] + tail) == [SLASH] + Join(a, SLASH) + [SLASH] + tail;
      assert Render(rooted, b) == Render(rooted, a) + [SLASH] + tail;
    }
  }

  lemma PrefixIsAncestor(rooted: bool, a: Parts, rooted': bool, b: Parts)
    requires Normal(a, rooted) && Normal(b, rooted')
    requires Under(Render(rooted', b), Render(rooted, a))
    ensures rooted == rooted' && a <= b && (a == [] ==> b == [])
  {
    var x, y := Render(rooted, a), Render(rooted', b);
    SplitRender(rooted, a);
    SplitRender(rooted', b);
    ComponentsOfRender(rooted, a);
    ComponentsOfRender(rooted', b);
    if x != y {
      var tail := y[|x| + 1..];
      assert x + [SLASH] == y[..|x| + 1];
      assert y == x + [SLASH] + tail;
      assert x != [] && x[0] == y[0];
      SplitConcat(x, tail, SLASH);
      UnderMeansLonger(rooted, a, b, x, y, tail);
    }
  }

  lemma UnderMeansLonger(rooted: bool, a: Parts, b: Parts, x: bytes, y: bytes, tail: bytes)
    requires Normal(a, rooted) && Normal(b, rooted)
    requires x == Render(rooted, a) && y == Render(rooted, b) && y == x + [SLASH] + tail
    ensures a <= b && a != []
  {
    hide Render, Normal, Split, Reduce;
    if a == [] {
      NothingUnderRoot(rooted, b, x, y, tail);
    } else {
      SplitConcat(x, tail, SLASH);
      SplitRender(rooted, a);
      SplitRender(rooted, b);
      var lead: Parts := if rooted then [[]] else [];
      var more := Split(tail, SLASH);
      if b == [] {
        NothingUnderNothing(rooted, x, y, tail);
      }
      assert lead + b == (lead + a) + more;
      assert b == (lead + b)[|lead|..] == a + more;
    }
  }

  /** "//..." and "./..." are not clean. */
  lemma NothingUnderRoot(rooted: bool, b: Parts, x: bytes, y: bytes, tail: bytes)
    requires Normal(b, rooted)
    requires x == Render(rooted, []) && y == Render(rooted, b)
    ensures y != x + [SLASH] + tail
  {
    hide Split, Reduce;
    if b != [] {
      JoinIsRelative(b);
      var j := Join(b, SLASH);
      if rooted {
        assert y[1] == j[0] != SLASH;
      } else {
        SplitRender(false, b);
        assert Split(y, SLASH)[0] == b[0];
        SplitConcat(x, tail, SLASH);
        SplitPiece(HERE, SLASH);
        assert Split(x + [SLASH] + tail, SLASH)[0] == HERE;
      }
    }
  }

  lemma NothingUnderNothing(rooted: bool, x: bytes, y: bytes, tail: bytes)
    requires x != [] && y == x + [SLASH] + tail
    ensures y != Render(rooted, [])
  {
  }

  /** Some prefix of the list, blank ones aside, names the path or one of its ancestors component by component. */
  predicate Covered(prefixes: Parts, path: bytes) {
    exists i :: 0 <= i < |prefixes| && Trim(prefixes[i]) != [] && NamesAncestor(Trim(prefixes[i]), path)
  }

  /** In remote-allowlist mode a path is remote exactly when the remote prefixes cover it, */
  lemma RemoteMeansAncestor(mode: Mode, remote: Parts, local: Parts, path: bytes)
    requires mode.RemoteAllowlist? && path != []
    ensures IsRemote(Table(mode, CleanPrefixes(remote), CleanPrefixes(local)), path) <==> Covered(remote, path)
  {
    hide Clean, UnderAny, Covered, CleanPrefixes;
    UnderAnyIsCovered(remote, path);
  }

  /** in local-allowlist mode exactly when the local prefixes do not. */
  lemma LocalMeansAncestor(mode: Mode, remote: Parts, local: Parts, path: bytes)
    requires mode.LocalAllowlist? && path != []
    ensures IsRemote(Table(mode, CleanPrefixes(remote), CleanPrefixes(local)), path) <==> !Covered(local, path)
  {
    hide Clean, UnderAny, Covered, CleanPrefixes;
    UnderAnyIsCovered(local, path);
  }

  /** The empty path is where its mode puts what no prefix names. */
  lemma EmptyPathIsDefault(remote: Parts, local: Parts)
    ensures !IsRemote(Table(RemoteAllowlist, remote, local), []) && IsRemote(Table(LocalAllowlist, remote, local), [])
  {
  }

  lemma UnderAnyIsCovered(prefixes: Parts, path: bytes)
    ensures UnderAny(Clean(path), CleanPrefixes(prefixes)) <==> Covered(prefixes, path)
  {
    hide Clean, NamesAncestor, Under, Trim;
    var out := CleanPrefixes(prefixes);
    if i :| 0 <= i < |out| && Under(Clean(path), out[i]) {
      var j := PrefixSource(prefixes, i);
      UnderIsAncestor(Trim(prefixes[j]), path);
    }
    if j :| 0 <= j < |prefixes| && Trim(prefixes[j]) != [] && NamesAncestor(Trim(prefixes[j]), path) {
      UnderIsAncestor(Trim(prefixes[j]), path);
      var i := PrefixKept(prefixes, j);
      assert Under(Clean(path), out[i]);
    }
  }

  /** Between two clean paths, the string test is the component-wise test. */
  lemma UnderIsAncestor(pre: bytes, path: bytes)
    ensures Under(Clean(path), Clean(pre)) <==> NamesAncestor(pre, path)
  {
    hide Components, Under;
    ComponentsAreNormal(pre);
    ComponentsAreNormal(path);
    var a, b := Components(pre), Components(path);
    if Under(Clean(path), Clean(pre)) {
      PrefixIsAncestor(Rooted(pre), a, Rooted(path), b);
    }
    if NamesAncestor(pre, path) {
      if a == [] {
        assert Under(Clean(path), Clean(pre)) by {
          SameIsUnder(Clean(path));
        }
      } else {
        AncestorIsPrefix(Rooted(pre), a, b);
      }
    }
  }

  lemma SameIsUnder(p: bytes)
    ensures Under(p, p)
  {
  }

  lemma {:induction false} PrefixSource(prefixes: Parts, i: nat) returns (j: nat)
    requires i < |CleanPrefixes(prefixes)|
    ensures j < |prefixes| && Trim(prefixes[j]) != [] && CleanPrefixes(prefixes)[i] == Clean(Trim(prefixes[j]))
  {
    hide Clean, Trim;
    var last := |prefixes| - 1;
    if i < |CleanPrefixes(prefixes[..last])| {
      j := PrefixSource(prefixes[..last], i);
    } else {
      j := last;
    }
  }

  lemma {:induction false} PrefixKept(prefixes: Parts, j: nat) returns (i: nat)
    requires j < |prefixes| && Trim(prefixes[j]) != []
    ensures i < |CleanPrefixes(prefixes)| && CleanPrefixes(prefixes)[i] == Clean(Trim(prefixes[j]))
  {
    hide Clean, Trim;
    var last := |prefixes| - 1;
    if j == last {
      i := |CleanPrefixes(prefixes)| - 1;
    } else {
      i := PrefixKept(prefixes[..last], j);
    }
  }

  // ---- the C matchers ----------------------------------------------------------------------------------

  /** One token of the colon-joined list against a path, as strncmp and the byte after it decide. */
  predicate TokenHit(path: bytes, tok: bytes) {
    && |tok| <= |path| && path[..|tok|] == tok
    && (|path| == |tok| || path[|tok|] == SLASH)
  }

  predicate AnyTokenHit(path: bytes, tokens: Parts) {
    exists i :: 0 <= i < |tokens| && tokens[i] != [] && TokenHit(path, tokens[i])
  }

  predicate Hits(path: bytes, env: bytes) { AnyTokenHit(path, Split(env, COLON)) }

  lemma HitsAfterColon(path: bytes, env: bytes)
    requires env != [] && env[0] == COLON
    ensures Hits(path, env) <==> Hits(path, env[1..])
  {
    hide Split, TokenHit;
    var rest := Split(env[1..], COLON);
    assert Split(env, COLON) == [[]] + rest by {
      SplitConcat([], env[1..], COLON);
      SplitPiece([], COLON);
      assert [] + [COLON] + env[1..] == env;
    }
    HitsAfterFirst(path, [], rest);
  }

  lemma HitsAfterFirst(path: bytes, first: bytes, rest: Parts)
    ensures AnyTokenHit(path, [first] + rest) <==> (first != [] && TokenHit(path, first)) || AnyTokenHit(path, rest)
  {
    hide TokenHit;
    var all := [first] + rest;
    if i :| 0 <= i < |rest| && rest[i] != [] && TokenHit(path, rest[i]) {
      assert all[i + 1] == rest[i];
    }
    if first != [] && TokenHit(path, first) {
      assert all[0] == first;
    }
  }

  lemma HitsAfterToken(path: bytes, tok: bytes, rest: bytes)
    requires tok != [] && COLON !in tok && (rest == [] || rest[0] == COLON)
    ensures Hits(path, tok + rest) <==> TokenHit(path, tok) || Hits(path, rest)
  {
    hide Split, TokenHit;
    SplitPiece(tok, COLON);
    if rest == [] {
      assert tok + rest == tok;
      SplitPiece([], COLON);
      HitsAfterFirst(path, tok, []);
      assert [tok] + [] == [tok];
    } else {
      SplitConcat(tok, rest[1..], COLON);
      assert tok + rest == tok + [COLON] + rest[1..];
      HitsAfterFirst(path, tok, Split(rest[1..], COLON));
      HitsAfterColon(path, rest);
    }
  }

  /** `prefix_hit` and `is_remote` in C: strtok over the list, each token compared in place. */
  method PrefixHit(path: bytes, env: bytes) returns (hit: bool)
    ensures hit <==> Hits(path, env)
  {
    hide Hits, TokenHit;
    hit := false;
    var pos := 0;
    assert env[0..] == env;
    while pos < |env| && !hit
      invariant pos <= |env|
      invariant Hits(path, env) <==> hit || Hits(path, env[pos..])
      decreases |env| - pos, !hit
    {
      if env[pos] == COLON {
        HitsAfterColon(path, env[pos..]);
        assert env[pos..][1..] == env[pos + 1..];
        pos := pos + 1;
      } else {
        var end := TokenEnd(env, pos);
        var tok := env[pos..end];
        HitsAfterToken(path, tok, env[end..]);
        assert env[pos..] == tok + env[end..];
        hit := TokenHit(path, tok);
        pos := end;
      }
    }
    if !hit {
      NoHitsInNothing(path);
      assert env[pos..] == [];
    }
  }

  lemma NoHitsInNothing(path: bytes)
    ensures !Hits(path, [])
  {
    SplitPiece([], COLON);
  }

  method TokenEnd(env: bytes, pos: nat) returns (end: nat)
    requires pos < |env| && env[pos] != COLON
    ensures pos < end <= |env|
    ensures COLON !in env[pos..end]
    ensures end == |env| || env[end] == COLON
  {
    end := pos + 1;
    while end < |env| && env[end] != COLON
      invariant pos < end <= |env|
      invariant COLON !in env[pos..end]
    {
      end := end + 1;
    }
  }

  predicate ColonFree(prefixes: Parts) {
    forall i :: 0 <= i < |prefixes| ==> prefixes[i] != [] && COLON !in prefixes[i]
  }

  lemma TokenHitIsUnder(path: bytes, tok: bytes)
    ensures TokenHit(path, tok) <==> Under(path, tok)
  {
    if |tok| < |path| {
      assert path[..|tok| + 1] == path[..|tok|] + [path[|tok|]];
    }
    if Under(path, tok) && path != tok {
      assert path[..|tok| + 1] == tok + [SLASH];
      assert path[..|tok|] == path[..|tok| + 1][..|tok|] == tok;
    }
  }

  lemma NativeMatchersAgree(prefixes: Parts, path: bytes)
    requires ColonFree(prefixes)
    ensures Hits(path, Join(prefixes, COLON)) <==> UnderAny(path, prefixes)
  {
    hide TokenHit, Under, Split;
    if prefixes == [] {
      NoHitsInNothing(path);
    } else {
      SplitJoin(prefixes, COLON);
      forall i | 0 <= i < |prefixes|
        ensures prefixes[i] != [] && (TokenHit(path, prefixes[i]) <==> Under(path, prefixes[i]))
      {
        TokenHitIsUnder(path, prefixes[i]);
      }
    }
  }

  lemma {:induction false} CleanPrefixesAreNotEmpty(prefixes: Parts)
    ensures forall i :: 0 <= i < |CleanPrefixes(prefixes)| ==> CleanPrefixes(prefixes)[i] != []
  {
    hide Components, Trim;
    if prefixes != [] {
      CleanPrefixesAreNotEmpty(prefixes[..|prefixes| - 1]);
      CleanIsNotEmpty(Trim(prefixes[|prefixes| - 1]));
    }
  }

  lemma CleanIsNotEmpty(p: bytes)
    ensures Clean(p) != []
  {
    ComponentsAreNormal(p);
    if Components(p) != [] {
      JoinIsRelative(Components(p));
    }
  }

  /** As long as no cleaned prefix holds a colon, joining the prefixes with colons and matching token by token, as
      both native interceptors do, gives for the cleaned path the adapter's verdict on the path. */
  lemma NativeVerdictIsTheAdapters(remote: Parts, local: Parts, path: bytes)
    requires forall i :: 0 <= i < |CleanPrefixes(remote)| ==> COLON !in CleanPrefixes(remote)[i]
    requires path != []
    ensures Hits(Clean(path), Join(CleanPrefixes(remote), COLON))
       <==> IsRemote(Table(RemoteAllowlist, CleanPrefixes(remote), CleanPrefixes(local)), path)
  {
    hide CleanPrefixes, Clean, Hits;
    CleanPrefixesAreNotEmpty(remote);
    NativeMatchersAgree(CleanPrefixes(remote), Clean(path));
  }

  predicate IsClean(path: bytes) { path != [] && Clean(path) == path }

  /** What can be checked on the list itself: every prefix is matched by some token of the joined list, and every token
      that is a clean path is matched by some prefix. */
  predicate TokensCover(prefixes: Parts) {
    var env := Join(prefixes, COLON);
    var tokens := Split(env, COLON);
    && (forall i :: 0 <= i < |prefixes| ==> Hits(prefixes[i], env))
    && (forall i :: 0 <= i < |tokens| && IsClean(tokens[i]) ==> UnderAny(tokens[i], prefixes))
  }

  lemma UnderIsTransitive(x: bytes, y: bytes, z: bytes)
    requires Under(x, y) && Under(y, z)
    ensures Under(x, z)
  {
    if x != y && y != z {
      assert z + [SLASH] == y[..|z| + 1] == x[..|y| + 1][..|z| + 1] == x[..|z| + 1];
    }
  }

  /** Whatever lies above a clean path is clean. */
  lemma AboveCleanIsClean(path: bytes, tok: bytes)
    requires IsClean(path) && tok != [] && Under(path, tok)
    ensures IsClean(tok)
  {
    hide Split, Components, Normal, Clean;
    if path != tok {
      var tail := path[|tok| + 1..];
      assert tok + [SLASH] == path[..|tok| + 1];
      assert path == tok + [SLASH] + tail;
      SplitConcat(tok, tail, SLASH);
      JoinSplit(tok, SLASH);
      CleanIsRendered(path);
      var rooted, parts := Rooted(path), Components(path);
      ComponentsAreNormal(path);
      SplitRender(rooted, parts);
      assert tok[0] == path[0];
      NothingUnderNothing(rooted, tok, path, tail);
      FrontIsRendered(rooted, parts, tok, Split(tail, SLASH));
    }
  }

  lemma CleanIsRendered(path: bytes)
    requires IsClean(path)
    ensures path == Render(Rooted(path), Components(path))
  {
    hide Render, Components;
  }

  /** The front pieces of a rendered path render back to themselves. */
  lemma FrontIsRendered(rooted: bool, parts: Parts, tok: bytes, rest: Parts)
    requires Normal(parts, rooted) && tok != [] && Rooted(tok) == rooted && rest != []
    requires Split(tok, SLASH) + rest == (if rooted then [[]] else []) + parts
    requires Join(Split(tok, SLASH), SLASH) == tok
    ensures IsClean(tok)
  {
    hide Split, Normal, Components;
    var pieces := Split(tok, SLASH);
    var k := if rooted then |pieces| - 1 else |pieces|;
    if rooted {
      RootedHasTwoPieces(tok);
    }
    var front := parts[..k];
    assert pieces == (Split(tok, SLASH) + rest)[..|pieces|] == (if rooted then [[]] else []) + front;
    FrontIsNormal(parts, rooted, k);
    assert tok == Render(rooted, front) by {
      if rooted {
        assert pieces[1..] == front && pieces[0] == [];
        assert [] + [SLASH] + Join(front, SLASH) == [SLASH] + Join(front, SLASH);
      } else {
        assert [] + front == front;
      }
    }
    ComponentsOfRender(rooted, front);
  }

  lemma RootedHasTwoPieces(tok: bytes)
    requires Rooted(tok)
    ensures |Split(tok, SLASH)| >= 2
  {
  }

  lemma FrontIsNormal(parts: Parts, rooted: bool, k: nat)
    requires Normal(parts, rooted) && k <= |parts|
    ensures Normal(parts[..k], rooted)
  {
  }

  lemma HitsByToken(path: bytes, env: bytes, i: nat)
    requires i < |Split(env, COLON)| && Split(env, COLON)[i] != [] && Under(path, Split(env, COLON)[i])
    ensures Hits(path, env)
  {
    hide Split, TokenHit;
    TokenHitIsUnder(path, Split(env, COLON)[i]);
  }

  lemma TokenOfHit(path: bytes, env: bytes) returns (i: nat)
    requires Hits(path, env)
    ensures i < |Split(env, COLON)| && Split(env, COLON)[i] != [] && Under(path, Split(env, COLON)[i])
  {
    hide Split, TokenHit;
    i :| 0 <= i < |Split(env, COLON)| && Split(env, COLON)[i] != [] && TokenHit(path, Split(env, COLON)[i]);
    TokenHitIsUnder(path, Split(env, COLON)[i]);
  }

  ghost predicate Agree(prefixes: Parts, path: bytes) {
    Hits(path, Join(prefixes, COLON)) <==> UnderAny(path, prefixes)
  }

  lemma CoverMeansAgree(prefixes: Parts, path: bytes)
    requires TokensCover(prefixes) && IsClean(path)
    ensures Agree(prefixes, path)
  {
    hide Hits, Under, Split, Join, IsClean;
    var env := Join(prefixes, COLON);
    if Hits(path, env) {
      var i := TokenOfHit(path, env);
      var tok := Split(env, COLON)[i];
      AboveCleanIsClean(path, tok);
      var j :| 0 <= j < |prefixes| && Under(tok, prefixes[j]);
      UnderIsTransitive(path, tok, prefixes[j]);
    }
    if j :| 0 <= j < |prefixes| && Under(path, prefixes[j]) {
      var i := TokenOfHit(prefixes[j], env);
      UnderIsTransitive(path, prefixes[j], Split(env, COLON)[i]);
      HitsByToken(path, env, i);
    }
  }

  lemma AgreeMeansCover(prefixes: Parts)
    requires forall i :: 0 <= i < |prefixes| ==> IsClean(prefixes[i])
    requires forall path :: IsClean(path) ==> Agree(prefixes, path)
    ensures TokensCover(prefixes)
  {
    hide Hits, Under, Split, Join, IsClean;
    var env := Join(prefixes, COLON);
    var tokens := Split(env, COLON);
    forall i | 0 <= i < |prefixes|
      ensures Hits(prefixes[i], env)
    {
      SameIsUnder(prefixes[i]);
      assert Agree(prefixes, prefixes[i]);
    }
    forall i | 0 <= i < |tokens| && IsClean(tokens[i])
      ensures UnderAny(tokens[i], prefixes)
    {
      SameIsUnder(tokens[i]);
      CleanHasBytes(tokens[i]);
      HitsByToken(tokens[i], env, i);
      assert Agree(prefixes, tokens[i]);
    }
  }

  lemma CleanHasBytes(path: bytes)
    requires IsClean(path)
    ensures path != []
  {
  }

  /** The interceptors' match on the joined list and the adapter's match on the list agree on every clean path exactly
      when the tokens and the prefixes cover each other. */
  lemma MatchersAgreeIff(prefixes: Parts)
    requires forall i :: 0 <= i < |prefixes| ==> IsClean(prefixes[i])
    ensures (forall path :: IsClean(path) ==> Agree(prefixes, path)) <==> TokensCover(prefixes)
  {
    hide Agree, TokensCover, IsClean;
    if TokensCover(prefixes) {
      forall path | IsClean(path)
        ensures Agree(prefixes, path)
      {
        CoverMeansAgree(prefixes, path);
      }
    }
    if forall path :: IsClean(path) ==> Agree(prefixes, path) {
      AgreeMeansCover(prefixes);
    }
  }

  lemma {:induction false} CleanPrefixesAreClean(prefixes: Parts)
    ensures forall i :: 0 <= i < |CleanPrefixes(prefixes)| ==> IsClean(CleanPrefixes(prefixes)[i])
  {
    hide Clean, Trim;
    if prefixes != [] {
      var p := Trim(prefixes[|prefixes| - 1]);
      CleanPrefixesAreClean(prefixes[..|prefixes| - 1]);
      CleanIsIdempotent(p);
      CleanIsNotEmpty(p);
    }
  }

  // ---- the two sides' verdicts -------------------------------------------------------------------------

  function Configured(mode: Mode, remote: Parts, local: Parts): Table {
    Table(mode, CleanPrefixes(remote), CleanPrefixes(local))
  }

  /** On this path, taken as it comes, the interceptors decide as the adapter does. They have the remote prefixes alone
      and compare the raw path; the adapter cleans it first. */
  predicate SameVerdict(t: Table, path: bytes) { Hits(path, Join(t.remotePrefixes, COLON)) <==> IsRemote(t, path) }

  /** A name of `n` letters. */
  function Letters(n: nat): bytes { seq(n, _ => 122) }

  lemma {:induction false} PieceIsShort(parts: Parts, sep: byte, i: nat)
    requires i < |parts|
    ensures |parts[i]| <= |Join(parts, sep)|
  {
    if |parts| > 1 && i > 0 {
      PieceIsShort(parts[1..], sep, i - 1);
    }
  }

  /** A path whose first name is longer than the whole list has no token above it. */
  lemma LongNameMisses(path: bytes, env: bytes)
    requires |path| > |env| && forall i :: 1 <= i <= |env| ==> path[i] != SLASH
    ensures !Hits(path, env)
  {
    hide Split, TokenHit, Join;
    if Hits(path, env) {
      var i := TokenOfHit(path, env);
      PieceIsShort(Split(env, COLON), COLON, i);
      JoinSplit(env, COLON);
      NotUnderShort(path, Split(env, COLON)[i]);
    }
  }

  lemma NotUnderShort(path: bytes, tok: bytes)
    requires |tok| < |path| && path[|tok|] != SLASH
    ensures !Under(path, tok)
  {
    assert (tok + [SLASH])[|tok|] == SLASH;
  }

  lemma LetterPathIsClean(n: nat)
    requires n > 0
    ensures IsClean([SLASH] + Letters(n))
  {
    hide Split;
    var name := Letters(n);
    assert name[0] == 122;
    var parts: Parts := [name];
    assert Render(true, parts) == [SLASH] + name;
    ComponentsOfRender(true, parts);
  }

  /** Where paths are remote by default, the interceptors keep some clean path local that the adapter forwards. */
  lemma DefaultRemoteDiffers(t: Table)
    requires t.mode.LocalAllowlist? && forall i :: 0 <= i < |t.localPrefixes| ==> t.localPrefixes[i] != []
    ensures exists path :: IsClean(path) && !SameVerdict(t, path)
  {
    hide Clean, Hits, Join, IsClean, Split;
    var env := Join(t.remotePrefixes, COLON);
    var n := |env| + |Join(t.localPrefixes, COLON)| + 1;
    var path := [SLASH] + Letters(n);
    LetterPathIsClean(n);
    LongNameMisses(path, env);
    forall i | 0 <= i < |t.localPrefixes|
      ensures !Under(path, t.localPrefixes[i])
    {
      PieceIsShort(t.localPrefixes, COLON, i);
      NotUnderShort(path, t.localPrefixes[i]);
    }
    CleanIs(path);
    assert IsClean(path) && !SameVerdict(t, path);
  }

  lemma CleanIs(path: bytes)
    requires IsClean(path)
    ensures Clean(path) == path && path != []
  {
  }

  /** Whatever is configured: the interceptors decide as the adapter does on every clean path exactly when nothing is
      remote by default and the cleaned prefixes and the tokens of their colon-joined list cover each other. */
  lemma NativeVerdictIff(mode: Mode, remote: Parts, local: Parts)
    ensures (forall path :: IsClean(path) ==> SameVerdict(Configured(mode, remote, local), path))
       <==> mode.RemoteAllowlist? && TokensCover(CleanPrefixes(remote))
  {
    hide CleanPrefixes, TokensCover, Clean, Hits, UnderAny;
    var pre, t := CleanPrefixes(remote), Configured(mode, remote, local);
    if mode.LocalAllowlist? {
      CleanPrefixesAreNotEmpty(local);
      DefaultRemoteDiffers(t);
    } else {
      CleanPrefixesAreClean(remote);
      MatchersAgreeIff(pre);
      if TokensCover(pre) {
        forall path | IsClean(path)
          ensures SameVerdict(t, path)
        {
          assert Agree(pre, path);
        }
      }
      if forall path :: IsClean(path) ==> SameVerdict(t, path) {
        forall path | IsClean(path)
          ensures Agree(pre, path)
        {
          assert SameVerdict(t, path);
        }
      }
    }
  }

  /** A prefix with a colon in it can break the agreement: with "/a:b" configured, the adapter keeps "/a" local while
      the interceptors, which see the tokens "/a" and "b", forward it. */
  lemma ColonBreaksAgreement()
    ensures var pre: Parts := [[SLASH, 97, COLON, 98]];
            Clean(pre[0]) == pre[0] && Hits([SLASH, 97], Join(pre, COLON)) && !UnderAny([SLASH, 97], pre)
  {
    var p: bytes := [SLASH, 97, COLON, 98];
    var a: bytes := [SLASH, 97];
    var name: bytes := [97, COLON, 98];
    assert Join([p], COLON) == p;
    assert a + p[2..] == p;
    HitsAfterToken(a, a, p[2..]);
    SplitPiece(name, SLASH);
    SplitConcat([], name, SLASH);
    SplitPiece([], SLASH);
    assert [] + [SLASH] + name == p;
    var parts: Parts := [[], name];
    assert Split(p, SLASH) == parts && parts[1..] == [name] && parts[1..][1..] == [];
    assert Reduce(parts[1..], true, []) == Reduce(parts[1..][1..], true, [name]) == [name];
  }

  // ---- paths as they come ------------------------------------------------------------------------------

  /** The same place by way of a directory `name`. */
  function Detour(p: bytes, name: bytes): bytes {
    if Rooted(p) then [SLASH] + name + [SLASH] + UP + p else name + [SLASH] + UP + [SLASH] + p
  }

  lemma DetourCleans(p: bytes, name: bytes)
    requires Plain(name) && name != UP
    ensures Clean(Detour(p, name)) == Clean(p)
  {
    hide Split, Reduce, Render;
    SplitPiece(name, SLASH);
    if Rooted(p) {
      RootedSplit(p);
      RootedSplit([SLASH] + name);
      assert ([SLASH] + name)[1..] == name;
      RootedDetour(p, name);
      DetourReduces(name, Split(p[1..], SLASH), true);
    } else {
      DetourSplits(name, p, Detour(p, name));
      DetourReduces(name, Split(p, SLASH), false);
    }
  }

  lemma RootedDetour(p: bytes, name: bytes)
    requires Rooted(p)
    ensures Split(Detour(p, name), SLASH) == Split([SLASH] + name, SLASH) + [UP] + Split(p[1..], SLASH)
  {
    hide Split;
    assert p == [SLASH] + p[1..];
    DetourSplits([SLASH] + name, p[1..], Detour(p, name));
  }

  lemma RootedSplit(p: bytes)
    requires Rooted(p)
    ensures Split(p, SLASH) == [[]] + Split(p[1..], SLASH)
  {
  }

  lemma DetourSplits(lead: bytes, tail: bytes, path: bytes)
    requires path == lead + [SLASH] + UP + [SLASH] + tail
    ensures Split(path, SLASH) == Split(lead, SLASH) + [UP] + Split(tail, SLASH)
  {
    hide Split;
    var more := UP + [SLASH] + tail;
    assert path == lead + [SLASH] + more;
    SplitConcat(lead, more, SLASH);
    SplitConcat(UP, tail, SLASH);
    SplitPiece(UP, SLASH);
    assert Split(lead, SLASH) + ([UP] + Split(tail, SLASH)) == Split(lead, SLASH) + [UP] + Split(tail, SLASH);
  }

  lemma DetourReduces(name: bytes, more: Parts, rooted: bool)
    requires Plain(name) && name != UP
    ensures Reduce([name] + [UP] + more, rooted, []) == Reduce(more, rooted, [])
    ensures Reduce([[]] + [name] + [UP] + more, rooted, []) == Reduce([[]] + more, rooted, [])
  {
    var two := [name] + [UP] + more;
    assert two[1..] == [UP] + more && two[1..][1..] == more;
    assert ([[]] + [name] + [UP] + more)[1..] == two && ([[]] + more)[1..] == more;
    assert [] + [name] == [name] && [name][..0] == [];
  }

  /** Every configured prefix can be named by a detour that the adapter forwards and the interceptors keep local. */
  lemma DetourDiffers(t: Table, i: nat, n: nat)
    requires t.mode.RemoteAllowlist? && i < |t.remotePrefixes| && IsClean(t.remotePrefixes[i])
    requires n > |Join(t.remotePrefixes, COLON)|
    ensures !SameVerdict(t, Detour(t.remotePrefixes[i], Letters(n)))
  {
    hide Clean, Hits, Join;
    var p := t.remotePrefixes[i];
    assert Letters(n)[0] == 122;
    DetourCleans(p, Letters(n));
    SameIsUnder(p);
    LongNameMisses(Detour(p, Letters(n)), Join(t.remotePrefixes, COLON));
  }

  /** On paths as they come, the two sides decide alike everywhere only when there is nothing to decide: nothing is
      remote by default and every remote prefix is blank. */
  lemma RawVerdictIff(mode: Mode, remote: Parts, local: Parts)
    ensures (forall path :: SameVerdict(Configured(mode, remote, local), path))
       <==> mode.RemoteAllowlist? && forall i :: 0 <= i < |remote| ==> Trim(remote[i]) == []
  {
    hide CleanPrefixes, Clean, Hits, Trim, Join, IsClean;
    var pre, t := CleanPrefixes(remote), Configured(mode, remote, local);
    if mode.LocalAllowlist? {
      NativeVerdictIff(mode, remote, local);
    } else if pre == [] {
      NoPrefixNoHit(t);
      forall i | 0 <= i < |remote|
        ensures Trim(remote[i]) == []
      {
        if Trim(remote[i]) != [] {
          var j := PrefixKept(remote, i);
        }
      }
    } else {
      var j := PrefixSource(remote, 0);
      CleanPrefixesAreClean(remote);
      DetourDiffers(t, 0, |Join(pre, COLON)| + 1);
    }
  }

  lemma NoPrefixNoHit(t: Table)
    requires t.mode.RemoteAllowlist? && t.remotePrefixes == []
    ensures forall path :: SameVerdict(t, path)
  {
    hide Clean, Hits;
    forall path: bytes
      ensures SameVerdict(t, path)
    {
      NoHitsInNothing(path);
    }
  }

  /** The other way round too: with "/w" configured, the interceptors forward "/w/../e", which is "/e" to the adapter
      and local. */
  lemma DotsBreakAgreement()
    ensures var pre, path: bytes := [[SLASH, 119]], [SLASH, 119, SLASH, DOT, DOT, SLASH, 101];
            Hits(path, Join(pre, COLON)) && Clean(path) == [SLASH, 101] && !UnderAny(Clean(path), pre)
  {
    hide Split, Reduce;
    var w, e: bytes := [SLASH, 119], [SLASH, 101];
    var path: bytes := [SLASH, 119, SLASH, DOT, DOT, SLASH, 101];
    assert Detour(e, [119]) == path;
    DetourCleans(e, [119]);
    var parts: Parts := [[101]];
    assert Render(true, parts) == e;
    ComponentsOfRender(true, parts);
    assert path[..3] == w + [SLASH];
    NativeMatchersAgree([w], path);
    assert Under(path, [w][0]);
  }
}
