/** Paths as strings and as the components a `std::filesystem::path` iterates. */
module Paths {
  import opened Bytes

  const SLASH: byte := 47

  type Path = seq<bytes>

  const ROOT_DIR: bytes := [SLASH]

  predicate Name(s: bytes) { s != [] && SLASH !in s }

  // ----- from string to components -------------------------------------------

  function NameLength(s: bytes): (n: nat)
    ensures n <= |s|
  {
    if s == [] || s[0] == SLASH then 0 else 1 + NameLength(s[1..])
  }

  function SkipSlashes(s: bytes): (t: bytes)
    ensures |t| <= |s|
    ensures t != [] ==> t[0] != SLASH
  {
    if s != [] && s[0] == SLASH then SkipSlashes(s[1..]) else s
  }

  /** The components after a name: a trailing slash is an empty last component. */
  function AfterName(s: bytes): Path
    decreases |s|, 0
  {
    if s == [] || s[0] != SLASH then []
    else if SkipSlashes(s[1..]) == [] then [[]]
    else FromName(SkipSlashes(s[1..]))
  }

  function FromName(s: bytes): Path
    requires s != [] && s[0] != SLASH
    decreases |s|, 1
  {
    [s[..NameLength(s)]] + AfterName(s[NameLength(s)..])
  }

  function Components(s: bytes): Path {
    if s == [] then []
    else if s[0] != SLASH then FromName(s)
    else if SkipSlashes(s) == [] then [ROOT_DIR]
    else [ROOT_DIR] + FromName(SkipSlashes(s))
  }

  // ----- from components to string -------------------------------------------

  /** Each component behind a slash. */
  function Tail(names: seq<bytes>): bytes {
    if names == [] then [] else [SLASH] + names[0] + Tail(names[1..])
  }

  function Render(p: Path): bytes {
    if p == [] then []
    else if p[0] != ROOT_DIR then p[0] + Tail(p[1..])
    else if |p| == 1 then ROOT_DIR
    else Tail(p[1..])
  }

  predicate Names(names: seq<bytes>) { forall n :: n in names ==> Name(n) }

  /** Names, and perhaps the empty component a trailing slash leaves. */
  predicate NamesOrSlash(names: seq<bytes>) {
    Names(names) || (|names| > 0 && Names(names[..|names| - 1]) && names[|names| - 1] == [])
  }

  /** A path as it comes out of normalisation: no repeated or trailing slash. */
  predicate Normal(p: Path) {
    && p != []
    && (p[0] == ROOT_DIR || Name(p[0]))
    && Names(p[1..])
  }

  /** A normal path, and perhaps a slash behind its last name. */
  predicate NearlyNormal(p: Path) {
    Normal(p) || (|p| > 1 && Normal(p[..|p| - 1]) && p[..|p| - 1] != [ROOT_DIR] && p[|p| - 1] == [])
  }

  function WithoutSlash(p: Path): Path { if |p| > 1 && p[|p| - 1] == [] then p[..|p| - 1] else p }

  lemma {:induction false} NameThenSlash(n: bytes, rest: bytes)
    requires SLASH !in n && (rest == [] || rest[0] == SLASH)
    ensures NameLength(n + rest) == |n|
  {
    if n != [] {
      assert n[0] in n;
      assert (n + rest)[1..] == n[1..] + rest;
      NameThenSlash(n[1..], rest);
    } else {
      assert n + rest == rest;
    }
  }

  /** Splitting what was joined gives back the names. */
  lemma {:induction false} SplitJoined(n: bytes, names: seq<bytes>)
    requires Name(n) && NamesOrSlash(names)
    ensures FromName(n + Tail(names)) == [n] + names
    decreases |names|
  {
    var s := n + Tail(names);
    assert n[0] in n;
    NameThenSlash(n, Tail(names));
    assert s[..|n|] == n && s[|n|..] == Tail(names);
    if names != [] {
      var t := Tail(names)[1..];
      assert t == names[0] + Tail(names[1..]);
      if names[0] == [] {
        assert names == [[]] by { OnlyLastEmpty(names); }
        assert t == [];
      } else {
        NamesTail(names);
        assert names[0][0] in names[0];
        SplitJoined(names[0], names[1..]);
        assert SkipSlashes(t) == t;
        assert names == [names[0]] + names[1..];
      }
    }
  }

  lemma OnlyLastEmpty(names: seq<bytes>)
    requires NamesOrSlash(names) && names != [] && names[0] == []
    ensures names == [[]]
  {
    assert names[0] in names;
    if |names| > 1 { FirstIsName(names); }
  }

  lemma FirstIsName(names: seq<bytes>)
    requires NamesOrSlash(names) && |names| > 1
    ensures Name(names[0])
  {
    assert names[0] in names;
    if !Names(names) { assert names[..|names| - 1][0] == names[0]; }
  }

  lemma AllButSlash(names: seq<bytes>)
    requires NamesOrSlash(names) && names != [] && names[|names| - 1] == []
    ensures Names(names[..|names| - 1])
  {
    assert names[|names| - 1] in names;
  }

  lemma NamesTail(names: seq<bytes>)
    requires NamesOrSlash(names) && names != [] && names[0] != []
    ensures Name(names[0]) && NamesOrSlash(names[1..])
  {
    assert names[0] in names;
    if !Names(names) {
      var m := |names| - 1;
      assert names[..m][0] == names[0];
      assert names[1..][..m - 1] == names[..m][1..];
      assert names[1..][m - 1] == [];
    }
  }

  /** A path is what its string iterates. */
  lemma ComponentsOfRender(p: Path)
    requires NearlyNormal(p)
    ensures Components(Render(p)) == p
  {
    NearlyNormalParts(p);
    if p[0] == ROOT_DIR {
      ComponentsOfTail(p[1..]);
      assert p == [ROOT_DIR] + p[1..];
    } else {
      assert p[0][0] in p[0];
      SplitJoined(p[0], p[1..]);
      assert p == [p[0]] + p[1..];
    }
  }

  lemma NearlyNormalParts(p: Path)
    requires NearlyNormal(p)
    ensures p != [] && (p[0] == ROOT_DIR || Name(p[0])) && NamesOrSlash(p[1..])
    ensures p[0] == ROOT_DIR && |p| > 1 ==> Name(p[1])
  {
    if Normal(p) {
      if |p| > 1 { assert p[1..][0] == p[1]; }
    } else {
      var m := |p| - 1;
      assert p[1..][..m - 1] == p[..m][1..];
      if m > 1 { assert p[..m][1..][0] == p[1]; }
    }
  }

  lemma ComponentsOfTail(names: seq<bytes>)
    requires NamesOrSlash(names) && (names != [] ==> names[0] != [])
    ensures Components(Tail(names)) == if names == [] then [] else [ROOT_DIR] + names
  {
    if names != [] {
      NamesTail(names);
      var t := names[0] + Tail(names[1..]);
      assert names[0][0] in names[0];
      assert Tail(names) == [SLASH] + t;
      assert SkipSlashes(Tail(names)) == t;
      SplitJoined(names[0], names[1..]);
      assert names == [names[0]] + names[1..];
    }
  }

  /** What iterating any string yields after its root: names, and perhaps a
      trailing empty component. */
  lemma {:induction false} FromNameIsNames(s: bytes)
    requires s != [] && s[0] != SLASH
    ensures Name(FromName(s)[0]) && NamesOrSlash(FromName(s)[1..])
    ensures NamesOrSlash(FromName(s))
    decreases |s|
  {
    var n := NameLength(s);
    NameHasNoSlash(s);
    var rest := AfterName(s[n..]);
    assert FromName(s) == [s[..n]] + rest;
    if rest != [] && rest != [[]] {
      var t := SkipSlashes(s[n..][1..]);
      FromNameIsNames(t);
      assert rest == FromName(t);
    }
    NamesCons(s[..n], rest);
  }

  lemma {:induction false} NameHasNoSlash(s: bytes)
    requires s != [] && s[0] != SLASH
    ensures NameLength(s) > 0 && Name(s[..NameLength(s)])
  {
    if |s| > 1 && s[1] != SLASH {
      NameHasNoSlash(s[1..]);
      assert s[..NameLength(s)] == [s[0]] + s[1..][..NameLength(s[1..])];
    } else {
      assert NameLength(s[1..]) == 0;
      assert s[..1] == [s[0]];
    }
  }

  lemma NamesCons(n: bytes, names: seq<bytes>)
    requires Name(n) && NamesOrSlash(names)
    ensures NamesOrSlash([n] + names)
  {
    var all := [n] + names;
    if !Names(names) {
      assert all[..|all| - 1] == [n] + names[..|names| - 1];
    }
  }

  // ----- trimming ------------------------------------------------------------

  function SkipSlashesBack(s: bytes): (t: bytes)
    ensures |t| <= |s|
  {
    if s != [] && s[|s| - 1] == SLASH then SkipSlashesBack(s[..|s| - 1]) else s
  }

  /** Drops the slashes at both ends. */
  function Trim(s: bytes): bytes { SkipSlashesBack(SkipSlashes(s)) }

  /** The string does not end in a slash. */
  predicate EndsInName(s: bytes) { s != [] && s[|s| - 1] != SLASH }

  lemma TrimTail(head: bytes, names: seq<bytes>)
    requires Name(head) && NamesOrSlash(names)
    ensures SkipSlashesBack(head + Tail(names)) ==
      head + Tail(if names != [] && names[|names| - 1] == [] then names[..|names| - 1] else names)
  {
    assert head[|head| - 1] in head;
    if names != [] && names[|names| - 1] == [] {
      var m := |names| - 1;
      TailSnoc(names[..m], []);
      assert names == names[..m] + [[]];
      AllButSlash(names);
      EndOfTail(head, names[..m]);
      var s := head + Tail(names[..m]);
      assert head + Tail(names) == s + [SLASH];
      assert (s + [SLASH])[..|s|] == s;
    } else {
      EndOfTail(head, names);
    }
  }

  lemma {:induction false} TailSnoc(names: seq<bytes>, n: bytes)
    ensures Tail(names + [n]) == Tail(names) + [SLASH] + n
  {
    if names == [] {
      assert names + [n] == [n] && [n][1..] == [];
    } else {
      TailSnoc(names[1..], n);
      assert (names + [n])[1..] == names[1..] + [n];
    }
  }

  lemma EndOfTail(head: bytes, names: seq<bytes>)
    requires Name(head) && Names(names)
    ensures EndsInName(head + Tail(names))
  {
    assert head[|head| - 1] in head;
    if names != [] {
      var n := names[|names| - 1];
      assert n in names && n[|n| - 1] in n;
      TailSnoc(names[..|names| - 1], n);
      assert names == names[..|names| - 1] + [n];
    }
  }

  // ----- one path inside another ---------------------------------------------

  /** `find_folder_in_path`: where `path` leaves `folder`, or the end. */
  function FolderEnd(path: Path, folder: Path): nat { if folder <= path then |folder| else |path| }

  method FindFolderInPath(path: Path, folder: Path) returns (i: nat)
    ensures i == FolderEnd(path, folder)
  {
    i := 0;
    while i < |path| && i < |folder|
      invariant i <= |path| && i <= |folder| && path[..i] == folder[..i]
    {
      if path[i] != folder[i] {
        return |path|;
      }
      i := i + 1;
    }
    assert path[..i] == folder[..i];
    if i == |folder| { assert folder[..i] == folder; }
  }

  /** `s` starts with `f`, and `f` ends there or a slash follows. */
  predicate StringInside(s: bytes, f: bytes) { f <= s && (|f| == |s| || s[|f|] == SLASH) }

  lemma {:induction false} TailInside(names: seq<bytes>, folder: seq<bytes>)
    requires Names(folder) && NamesOrSlash(names)
    ensures StringInside(Tail(names), Tail(folder)) <==> folder <= names
    decreases |folder|
  {
    if folder != [] && names != [] {
      var f, n := folder[0], names[0];
      assert f in folder;
      if n == f {
        NamesTail(names);
        var head := [SLASH] + n;
        assert Tail(names) == head + Tail(names[1..]) && Tail(folder) == head + Tail(folder[1..]);
        InsideAfter(head, Tail(names[1..]), Tail(folder[1..]));
        TailInside(names[1..], folder[1..]);
        assert folder <= names <==> folder[1..] <= names[1..];
      } else {
        assert SLASH !in n by { if n != [] { NamesTail(names); } }
        OtherName(n, f, Tail(names[1..]), Tail(folder[1..]));
      }
    }
  }

  lemma InsideAfter(head: bytes, s: bytes, f: bytes)
    ensures StringInside(head + s, head + f) <==> StringInside(s, f)
  {
    if head + f <= head + s {
      assert (head + s)[..|head + f|] == head + s[..|f|];
      assert head + f == head + s[..|f|];
      assert (head + f)[|head|..] == f && (head + s[..|f|])[|head|..] == s[..|f|];
    }
    if f <= s { assert s == f + s[|f|..]; assert head + s == (head + f) + s[|f|..]; }
  }

  /** Behind the same slash, strings that start with different names differ. */
  lemma OtherName(n: bytes, f: bytes, s: bytes, t: bytes)
    requires SLASH !in n && SLASH !in f && n != f
    requires (s == [] || s[0] == SLASH) && (t == [] || t[0] == SLASH)
    ensures !StringInside([SLASH] + n + s, [SLASH] + f + t)
  {
    var a, b := [SLASH] + n + s, [SLASH] + f + t;
    if |n| < |f| {
      assert f[|n|] in f && b[1 + |n|] == f[|n|];
    } else if |f| < |n| {
      assert n[|f|] in n && a[1 + |f|] == n[|f|];
    } else {
      var i :| 0 <= i < |n| && n[i] != f[i];
      assert a[1 + i] == n[i] && b[1 + i] == f[i];
    }
  }

  /** On normal paths the string test is the component test. */
  lemma InsideIffPrefix(p: Path, f: Path)
    requires NearlyNormal(p) && Normal(f) && f != [ROOT_DIR]
    ensures StringInside(Render(p), Render(f)) <==> f <= p
  {
    NearlyNormalParts(p);
    NearlyNormalParts(f);
    if p[0] == ROOT_DIR && f[0] == ROOT_DIR {
      TailInside(p[1..], f[1..]);
      if |p| == 1 { assert Render(f) != [SLASH]; assert |Render(f)| > 1; }
      assert f <= p <==> f[1..] <= p[1..];
    } else if p[0] == f[0] {
      InsideAfter(p[0], Tail(p[1..]), Tail(f[1..]));
      TailInside(p[1..], f[1..]);
      assert f <= p <==> f[1..] <= p[1..];
    } else if p[0] != ROOT_DIR && f[0] != ROOT_DIR {
      OtherName(p[0], f[0], Tail(p[1..]), Tail(f[1..]));
      var a, b := p[0] + Tail(p[1..]), f[0] + Tail(f[1..]);
      InsideAfter([SLASH], a, b);
      assert [SLASH] + a == [SLASH] + p[0] + Tail(p[1..]) && [SLASH] + b == [SLASH] + f[0] + Tail(f[1..]);
    } else {
      FirstByte(p);
      FirstByte(f);
    }
  }

  lemma FirstByte(p: Path)
    requires NearlyNormal(p)
    ensures Render(p) != [] && (Render(p)[0] == SLASH <==> p[0] == ROOT_DIR)
  {
    NearlyNormalParts(p);
    if p[0] != ROOT_DIR { assert p[0][0] in p[0]; }
  }
}
