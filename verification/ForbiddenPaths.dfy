/** The paths nobody may read: a test on strings that means a test on folders. */
module ForbiddenPaths {
  import opened Bytes
  import opened Paths

  function PopSlash(f: bytes): bytes { if f != [] && f[|f| - 1] == SLASH then f[..|f| - 1] else f }

  predicate IsForbidden(forbidden: set<bytes>, s: bytes) {
    s in forbidden || exists f :: f in forbidden && StringInside(s, PopSlash(f))
  }

  method TestForbidden(forbidden: set<bytes>, s: bytes) returns (r: bool)
    ensures r == IsForbidden(forbidden, s)
  {
    if s in forbidden {
      return true;
    }
    var left := forbidden;
    while left != {}
      invariant left <= forbidden
      invariant forall f :: f in forbidden && f !in left ==> !StringInside(s, PopSlash(f))
      decreases left
    {
      var f :| f in left;
      var folder := PopSlash(f);
      if folder <= s && (|folder| == |s| || s[|folder|] == SLASH) {
        return true;
      }
      left := left - {f};
    }
    return false;
  }

  /** A string names a folder: as it is, or with one slash behind it. */
  predicate Denotes(s: bytes, f: Path) {
    Normal(f) && (s == Render(f) || (f != [ROOT_DIR] && s == Render(f) + [SLASH]))
  }

  /** `p` is the folder `f` or inside it, component by component. */
  predicate Within(p: Path, f: Path) { f <= p }

  /** The set of strings is a set of folders. */
  predicate DenotesAll(forbidden: set<bytes>, folders: set<Path>) {
    && (forall s :: s in forbidden ==> exists f :: f in folders && Denotes(s, f))
    && forall f :: f in folders ==> exists s :: s in forbidden && Denotes(s, f)
  }

  lemma PopsTo(s: bytes, f: Path)
    requires Denotes(s, f)
    ensures PopSlash(s) == if f == [ROOT_DIR] then [] else Render(f)
  {
    if f != [ROOT_DIR] {
      RenderEndsInName(f);
      assert (Render(f) + [SLASH])[..|Render(f)|] == Render(f);
    }
  }

  lemma RenderEndsInName(f: Path)
    requires Normal(f) && f != [ROOT_DIR]
    ensures EndsInName(Render(f))
  {
    if f[0] == ROOT_DIR {
      var names := f[1..];
      var n := names[|names| - 1];
      assert n in names && n[|n| - 1] in n;
      TailSnoc(names[..|names| - 1], n);
      assert names == names[..|names| - 1] + [n];
    } else {
      EndOfTail(f[0], f[1..]);
    }
  }

  lemma InsideMeans(p: Path, s: bytes, f: Path)
    requires NearlyNormal(p) && Denotes(s, f)
    ensures StringInside(Render(p), PopSlash(s)) <==> Within(p, f)
    ensures Render(p) == s ==> Within(p, f)
  {
    PopsTo(s, f);
    FirstByte(p);
    NearlyNormalParts(p);
    if f == [ROOT_DIR] {
      assert f <= p <==> p[0] == ROOT_DIR;
    } else {
      InsideIffPrefix(p, f);
    }
  }

  /** On normal paths the string test holds exactly when some forbidden folder is
      a component-wise prefix. */
  lemma ForbiddenIff(forbidden: set<bytes>, folders: set<Path>, p: Path)
    requires DenotesAll(forbidden, folders) && NearlyNormal(p)
    ensures IsForbidden(forbidden, Render(p)) <==> exists f :: f in folders && Within(p, f)
  {
    hide StringInside, Denotes, NearlyNormal, Render, PopSlash, Within;
    if IsForbidden(forbidden, Render(p)) { ForbiddenMeans(forbidden, folders, p); }
    if f :| f in folders && Within(p, f) {
      var s :| s in forbidden && Denotes(s, f);
      InsideMeans(p, s, f);
    }
  }

  lemma ForbiddenMeans(forbidden: set<bytes>, folders: set<Path>, p: Path)
    requires DenotesAll(forbidden, folders) && NearlyNormal(p) && IsForbidden(forbidden, Render(p))
    ensures exists f :: f in folders && Within(p, f)
  {
    hide StringInside, Denotes, NearlyNormal, Render, PopSlash, Within;
    var s :| s in forbidden && (s == Render(p) || StringInside(Render(p), PopSlash(s)));
    var f :| f in folders && Denotes(s, f);
    InsideMeans(p, s, f);
  }

  /** What is forbidden is forbidden with everything inside it. */
  lemma ClosedUnderDescendants(forbidden: set<bytes>, folders: set<Path>, p: Path, q: Path)
    requires DenotesAll(forbidden, folders) && NearlyNormal(p) && NearlyNormal(q)
    requires WithoutSlash(p) <= q && IsForbidden(forbidden, Render(p))
    ensures IsForbidden(forbidden, Render(q))
  {
    hide StringInside, NearlyNormal, Render, PopSlash, IsForbidden, WithoutSlash, Normal, Within;
    ForbiddenIff(forbidden, folders, p);
    ForbiddenIff(forbidden, folders, q);
    var f :| f in folders && Within(p, f);
    var s :| s in forbidden && Denotes(s, f);
    SlashMakesNoFolder(p, f, q);
  }

  lemma SlashMakesNoFolder(p: Path, f: Path, q: Path)
    requires NearlyNormal(p) && Normal(f) && Within(p, f)
    requires WithoutSlash(p) <= q
    ensures Within(q, f)
  {
    if f == p && |p| > 1 { assert p[|p| - 1] in f[1..]; }
  }

  /** The string test depends on normal paths: a doubled slash keeps the same
      components and fails the test. */
  lemma DoubledSlashIsMissed(name: bytes)
    requires Name(name)
    ensures var f, s := [SLASH] + name, [SLASH, SLASH] + name;
      Components(s) == Components(f) && IsForbidden({f}, f) && !IsForbidden({f}, s)
  {
    hide FromName;
    var f, s := [SLASH] + name, [SLASH, SLASH] + name;
    assert name[0] in name && name[|name| - 1] in name;
    assert s[1..] == f && f[1..] == name;
    assert SkipSlashes(name) == name && SkipSlashes(f) == name;
    assert SkipSlashes(s) == SkipSlashes(f);
    assert PopSlash(f) == f;
    assert s[1] == SLASH && f[1] == name[0];
  }

  // ----- exactly which strings the test reads as paths ---------------------------------

  predicate AllSlashes(s: bytes) { forall i :: 0 <= i < |s| ==> s[i] == SLASH }

  /** Two slashes at `i`, and a name after them. */
  ghost predicate DoubledAt(s: bytes, i: nat) {
    i + 1 < |s| && s[i] == SLASH && s[i + 1] == SLASH && exists j :: i < j < |s| && s[j] != SLASH
  }

  ghost predicate Doubled(s: bytes) { exists i :: DoubledAt(s, i) }

  lemma {:induction false} SkipAll(s: bytes)
    ensures SkipSlashes(s) == [] <==> AllSlashes(s)
    ensures |SkipSlashes(s)| <= |s| && s[|s| - |SkipSlashes(s)|..] == SkipSlashes(s)
  {
    if s != [] && s[0] == SLASH {
      SkipAll(s[1..]);
      assert AllSlashes(s) <==> AllSlashes(s[1..]) by {
        assert forall i :: 0 <= i < |s| - 1 ==> s[1..][i] == s[i + 1];
      }
      var t := SkipSlashes(s);
      assert s[|s| - |t|..] == s[1..][|s| - 1 - |t|..];
    }
  }

  /** Part of a string without doubled slashes. */
  lemma PartOf(s: bytes, n: nat)
    requires n <= |s| && !Doubled(s)
    ensures !Doubled(s[n..])
  {
    if i: nat :| DoubledAt(s[n..], i) {
      var j :| i < j < |s[n..]| && s[n..][j] != SLASH;
      assert s[n + j] != SLASH && s[n + i] == SLASH && s[n + i + 1] == SLASH;
      assert DoubledAt(s, n + i);
    }
  }

  /** A string that starts with a name and has no doubled slash in front of a name is
      what its components render to, and perhaps some more slashes behind a last one. */
  lemma {:induction false} CleanIsRendered(t: bytes) returns (extra: bytes)
    requires t != [] && t[0] != SLASH && !Doubled(t)
    ensures var names := FromName(t);
      && t == names[0] + Tail(names[1..]) + extra && AllSlashes(extra)
      && (extra != [] ==> names[|names| - 1] == [])
    decreases |t|
  {
    var n := NameLength(t);
    var rest := t[n..];
    NameHasNoSlash(t);
    RestStartsWithSlash(t);
    assert t == t[..n] + rest;
    if rest == [] {
      extra := [];
    } else {
      var u := SkipSlashes(rest[1..]);
      SkipAll(rest[1..]);
      PartOf(t, n);
      if u == [] {
        extra := rest[1..];
        var last: Path := [[]];
        assert last[1..] == [] && Tail(last) == [SLASH];
        assert rest == [SLASH] + extra;
        assert FromName(t)[1..] == last;
      } else {
        NextIsName(rest);
        assert u == rest[1..];
        PartOf(rest, 1);
        extra := CleanIsRendered(u);
        var names := FromName(u);
        assert FromName(t)[1..] == names;
        assert rest == [SLASH] + u;
        Regrouped(t[..n], names[0], Tail(names[1..]), extra);
      }
    }
  }

  lemma Regrouped(a: bytes, b: bytes, c: bytes, d: bytes)
    ensures a + ([SLASH] + (b + c + d)) == a + ([SLASH] + b + c) + d
  {
  }

  lemma {:induction false} RestStartsWithSlash(t: bytes)
    ensures NameLength(t) < |t| ==> t[NameLength(t)] == SLASH
  {
    if t != [] && t[0] != SLASH { RestStartsWithSlash(t[1..]); }
  }

  lemma NextIsName(rest: bytes)
    requires rest != [] && rest[0] == SLASH && !Doubled(rest) && SkipSlashes(rest[1..]) != []
    ensures SkipSlashes(rest[1..]) == rest[1..]
  {
    var r := rest[1..];
    SkipAll(r);
    var j :| 0 <= j < |r| && r[j] != SLASH;
    if r[0] == SLASH {
      assert rest[j + 1] != SLASH && rest[1] == SLASH;
      assert DoubledAt(rest, 0);
    }
  }

  lemma ComponentsNearlyNormal(s: bytes)
    requires s != []
    ensures NearlyNormal(Components(s))
    ensures s[0] == SLASH <==> Components(s)[0] == ROOT_DIR
  {
    assert SLASH in ROOT_DIR;
    if s[0] != SLASH {
      FromNameIsNames(s);
      NearlyFrom(FromName(s)[0], FromName(s)[1..]);
      assert FromName(s) == [FromName(s)[0]] + FromName(s)[1..];
    } else if SkipSlashes(s) != [] {
      FromNameIsNames(SkipSlashes(s));
      NearlyFrom(ROOT_DIR, FromName(SkipSlashes(s)));
    }
  }

  lemma NearlyFrom(first: bytes, names: Path)
    requires (first == ROOT_DIR && names != [] && Name(names[0])) || Name(first)
    requires NamesOrSlash(names)
    ensures NearlyNormal([first] + names)
  {
    var p := [first] + names;
    assert p[1..] == names;
    if !Names(names) {
      var m := |names| - 1;
      assert p[..|p| - 1] == [first] + names[..m];
      assert p[..|p| - 1][1..] == names[..m];
      assert |p| > 1 && p[|p| - 1] == [];
      assert m == 0 ==> names[0] == [] && first != ROOT_DIR;
    }
  }

  /** `s` is `t`, and perhaps more slashes behind a last one. */
  ghost predicate MoreSlashes(s: bytes, t: bytes, extra: bytes) {
    s == t + extra && AllSlashes(extra) && (extra != [] ==> t != [] && t[|t| - 1] == SLASH)
  }

  /** Without a doubled slash in front of a name: the rendered components, so extended. */
  lemma CleanWhole(s: bytes) returns (extra: bytes)
    requires s != [] && !Doubled(s)
    ensures MoreSlashes(s, Render(Components(s)), extra)
  {
    hide Doubled, FromName;
    if s[0] != SLASH {
      extra := CleanNamed(s);
    } else if SkipSlashes(s) == [] {
      SkipAll(s);
      extra := s[1..];
      assert s == ROOT_DIR + extra;
    } else {
      extra := CleanRooted(s);
    }
  }

  lemma CleanNamed(s: bytes) returns (extra: bytes)
    requires s != [] && s[0] != SLASH && !Doubled(s)
    ensures MoreSlashes(s, Render(Components(s)), extra)
  {
    ComponentsNearlyNormal(s);
    hide Doubled, FromName, Tail;
    extra := CleanIsRendered(s);
    var c := Components(s);
    if extra != [] {
      NamedFirst(s);
      EndsInSlash(c[0], c[1..]);
    }
  }

  lemma NamedFirst(s: bytes)
    requires s != [] && s[0] != SLASH
    ensures FromName(s)[0] != []
  {
    NameHasNoSlash(s);
  }

  lemma CleanRooted(s: bytes) returns (extra: bytes)
    requires s != [] && s[0] == SLASH && SkipSlashes(s) != [] && !Doubled(s)
    ensures MoreSlashes(s, Render(Components(s)), extra)
  {
    NextIsName(s);
    PartOf(s, 1);
    var u := s[1..];
    RootedParts(s);
    hide Doubled, SkipSlashes, FromName, Tail, Render, Components;
    extra := CleanIsRendered(u);
    var names := FromName(u);
    RootedRegroup(names[0], Tail(names[1..]), extra);
    assert s == [SLASH] + u;
    if extra != [] {
      EndsInSlash([], names);
      assert [] + Tail(names) == Tail(names);
    }
  }

  lemma RootedParts(s: bytes)
    requires s != [] && s[0] == SLASH && SkipSlashes(s) != []
    ensures var names := FromName(SkipSlashes(s));
      && names != [] && Render(Components(s)) == Tail(names)
      && Tail(names) == [SLASH] + names[0] + Tail(names[1..])
  {
    hide SkipSlashes, NameLength, AfterName;
    var names := FromName(SkipSlashes(s));
    assert ([ROOT_DIR] + names)[1..] == names;
  }

  lemma RootedRegroup(head: bytes, tail: bytes, extra: bytes)
    ensures [SLASH] + (head + tail + extra) == [SLASH] + head + tail + extra
    ensures [SLASH] + (head + tail) == [SLASH] + head + tail
  {
  }

  lemma {:induction false} EndsInSlash(head: bytes, names: Path)
    requires names != [] && names[|names| - 1] == []
    ensures var t := head + Tail(names); t != [] && t[|t| - 1] == SLASH
  {
    TailSnoc(names[..|names| - 1], []);
    assert names == names[..|names| - 1] + [[]];
  }

  // ----- counting what is not a slash ----------------------------------------------------

  function Letters(s: bytes): nat {
    if s == [] then 0 else (if s[0] != SLASH then 1 else 0) + Letters(s[1..])
  }

  lemma {:induction false} LettersAppend(a: bytes, b: bytes)
    ensures Letters(a + b) == Letters(a) + Letters(b)
  {
    if a == [] {
      assert a + b == b;
    } else {
      assert (a + b)[1..] == a[1..] + b;
      LettersAppend(a[1..], b);
    }
  }

  lemma {:induction false} LettersSkip(s: bytes)
    ensures Letters(SkipSlashes(s)) == Letters(s)
  {
    if s != [] && s[0] == SLASH { LettersSkip(s[1..]); }
  }

  lemma {:induction false} NoLetters(s: bytes)
    ensures Letters(s) == 0 <==> AllSlashes(s)
  {
    if s != [] {
      NoLetters(s[1..]);
      assert forall i :: 0 <= i < |s| - 1 ==> s[1..][i] == s[i + 1];
    }
  }

  lemma {:induction false} LettersFromName(t: bytes)
    requires t != [] && t[0] != SLASH
    ensures var names := FromName(t); Letters(t) == Letters(names[0] + Tail(names[1..]))
    decreases |t|, 0
  {
    var n := NameLength(t);
    var head, rest, names := t[..n], t[n..], FromName(t);
    NameHasNoSlash(t);
    RestStartsWithSlash(t);
    assert t == head + rest;
    LettersAppend(head, rest);
    assert names[0] == head && names[1..] == AfterName(rest);
    LettersAppend(head, Tail(names[1..]));
    hide FromName, Tail;
    LettersAfterName(rest);
  }

  lemma {:induction false} LettersAfterName(rest: bytes)
    requires rest != [] ==> rest[0] == SLASH
    ensures Letters(rest) == Letters(Tail(AfterName(rest)))
    decreases |rest|, 1
  {
    if rest != [] {
      var u := SkipSlashes(rest[1..]);
      LettersSkip(rest[1..]);
      if u == [] {
        var last: Path := [[]];
        assert last[1..] == [] && Tail(last) == [SLASH];
      } else {
        LettersFromName(u);
        LettersJoined(FromName(u));
      }
    }
  }

  lemma LettersJoined(names: Path)
    requires names != []
    ensures Letters(Tail(names)) == Letters(names[0] + Tail(names[1..]))
  {
    RootedRegroup(names[0], Tail(names[1..]), []);
    LettersAppend([SLASH], names[0] + Tail(names[1..]));
  }

  lemma LettersWhole(s: bytes)
    requires s != []
    ensures Letters(s) == Letters(Render(Components(s)))
  {
    hide FromName, SkipSlashes;
    LettersSkip(s);
    if s[0] != SLASH {
      LettersFromName(s);
      ComponentsNearlyNormal(s);
    } else if SkipSlashes(s) != [] {
      LettersFromName(SkipSlashes(s));
      RootedParts(s);
      LettersJoined(FromName(SkipSlashes(s)));
    }
  }

  // ----- the two together ----------------------------------------------------------

  predicate NoPair(s: bytes) {
    forall i :: 0 <= i < |s| - 1 ==> s[i] != SLASH || s[i + 1] != SLASH
  }

  lemma NoPairAppend(a: bytes, b: bytes)
    requires NoPair(a) && NoPair(b) && a != [] && a[|a| - 1] != SLASH
    ensures NoPair(a + b)
  {
  }

  lemma NamePair(first: bytes, n: bytes)
    requires Name(n) && (first == [] || first == [SLASH])
    ensures NoPair(first + n) && EndsInName(first + n)
  {
    var s := first + n;
    forall i | 0 <= i < |s| && i >= |first| ensures s[i] != SLASH { assert s[i] == n[i - |first|] && s[i] in n; }
  }

  lemma {:induction false} TailNoPair(names: Path)
    requires Names(names)
    ensures NoPair(Tail(names))
  {
    if names != [] {
      assert names[0] in names;
      NamePair([SLASH], names[0]);
      assert forall n :: n in names[1..] ==> n in names;
      TailNoPair(names[1..]);
      NoPairAppend([SLASH] + names[0], Tail(names[1..]));
    }
  }

  lemma RenderNoPair(f: Path)
    requires Normal(f)
    ensures NoPair(Render(f))
  {
    TailNoPair(f[1..]);
    if f[0] != ROOT_DIR {
      NamePair([], f[0]);
      assert [] + f[0] == f[0];
      NoPairAppend(f[0], Tail(f[1..]));
    }
  }

  /** The test on one forbidden folder. */
  lemma OneFolder(s: bytes, f: Path)
    requires Normal(f) && f != [ROOT_DIR]
    ensures IsForbidden({Render(f)}, s) <==> StringInside(s, Render(f))
  {
    RenderEndsInName(f);
    assert PopSlash(Render(f)) == Render(f);
  }

  lemma SlashesMakeNoDifference(s: bytes, t: bytes, extra: bytes, r: bytes)
    requires MoreSlashes(s, t, extra) && EndsInName(r)
    ensures StringInside(s, r) <==> StringInside(t, r)
  {
    if r <= s {
      assert r[|r| - 1] == s[|r| - 1];
      assert forall k :: |t| <= k < |s| ==> s[k] == extra[k - |t|];
      assert |r| <= |t| ==> s[..|r|] == t[..|r|];
    }
    if r <= t { assert s[..|r|] == t[..|r|]; }
  }

  /** The string test reads `s` as the path it is, whatever is forbidden. */
  ghost predicate ReadsAsPath(s: bytes) {
    forall f: Path :: Normal(f) && f != [ROOT_DIR] ==> (IsForbidden({Render(f)}, s) <==> Within(Components(s), f))
  }

  lemma CleanReads(s: bytes, f: Path)
    requires s != [] && !Doubled(s) && Normal(f) && f != [ROOT_DIR]
    ensures IsForbidden({Render(f)}, s) <==> Within(Components(s), f)
  {
    hide IsForbidden, StringInside, Render, Components, MoreSlashes, NearlyNormal, Normal, Doubled;
    OneFolder(s, f);
    var extra := CleanWhole(s);
    ComponentsNearlyNormal(s);
    RenderEndsInName(f);
    SlashesMakeNoDifference(s, Render(Components(s)), extra, Render(f));
    InsideIffPrefix(Components(s), f);
  }

  lemma SameLetters(c: Path)
    requires NearlyNormal(c)
    ensures Letters(Render(WithoutSlash(c))) == Letters(Render(c))
    ensures Normal(WithoutSlash(c)) && WithoutSlash(c) <= c
    ensures WithoutSlash(c) == [ROOT_DIR] ==> Letters(Render(c)) == 0
  {
    assert Letters([SLASH]) == 0;
    if Normal(c) {
      if |c| > 1 { assert c[|c| - 1] in c[1..]; }
    } else {
      var f := c[..|c| - 1];
      RenderEndsInName(f);
      assert c == f + [[]];
      RenderSlash(f);
      LettersAppend(Render(f), [SLASH]);
    }
  }

  lemma RenderSlash(f: Path)
    requires Normal(f) && f != [ROOT_DIR]
    ensures Render(f + [[]]) == Render(f) + [SLASH]
  {
    var c := f + [[]];
    assert c[1..] == f[1..] + [[]];
    TailSnoc(f[1..], []);
  }

  /** A doubled slash in front of a name: the path's own folder is missed. */
  lemma DoubledMisses(s: bytes, i: nat)
    requires DoubledAt(s, i)
    ensures var f := WithoutSlash(Components(s));
      Normal(f) && f != [ROOT_DIR] && Within(Components(s), f) && !IsForbidden({Render(f)}, s)
  {
    hide IsForbidden, Render, Components, NearlyNormal, Normal, WithoutSlash, Letters;
    ComponentsNearlyNormal(s);
    var c := Components(s);
    var f := WithoutSlash(c);
    SameLetters(c);
    LettersWhole(s);
    NoLetters(s);
    OneFolder(s, f);
    RenderNoPair(f);
    if Render(f) <= s { FewerLetters(s, i, Render(f)); }
  }

  /** A beginning of the string without the doubled slash lacks the name behind it. */
  lemma FewerLetters(s: bytes, i: nat, r: bytes)
    requires DoubledAt(s, i) && NoPair(r) && r <= s
    ensures Letters(r) < Letters(s)
  {
    var rest := s[|r|..];
    assert s == r + rest;
    LettersAppend(r, rest);
    NoLetters(rest);
    if AllSlashes(rest) { PairInside(s, i, r); }
  }

  lemma PairInside(s: bytes, i: nat, r: bytes)
    requires DoubledAt(s, i) && r <= s && AllSlashes(s[|r|..])
    ensures !NoPair(r)
  {
    assert forall k :: |r| <= k < |s| ==> s[k] == s[|r|..][k - |r|];
    assert r[i] == s[i] && r[i + 1] == s[i + 1];
  }

  /** For every string: the test agrees with the components, for every folder but the root,
      exactly when no doubled slash stands in front of a name. */
  lemma ReadsAsPathIff(s: bytes)
    requires s != []
    ensures ReadsAsPath(s) <==> !Doubled(s)
  {
    hide IsForbidden, Components, Render, Normal;
    if i: nat :| DoubledAt(s, i) {
      DoubledMisses(s, i);
    } else {
      forall f: Path | Normal(f) && f != [ROOT_DIR]
        ensures IsForbidden({Render(f)}, s) <==> Within(Components(s), f)
      {
        CleanReads(s, f);
      }
    }
  }
}
