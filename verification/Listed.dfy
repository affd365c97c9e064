/** What a listing says: one entry for each thing in the folder, of the right kind, and
    under a path that leads there. */
module Listed {
  import opened Bytes
  import opened Requests
  import opened Paths
  import opened FileMapping
  import opened Peer
  import L = FolderListing

  // ----- the entries ---------------------------------------------------------------

  /** The entry is of this name in the folder: its path is that of the folder, one slash at
      least, and the name. */
  ghost predicate EntryOf(e: FileInfo, folder: bytes, name: bytes, isFolder: bool) {
    && e.fileType == (if isFolder then DIRECTORY else FILE)
    && folder <= e.path
    && e.path[|folder|..] == if folder != [] && folder[|folder| - 1] == SLASH then name else [SLASH] + name
  }

  lemma InsideIs(folder: bytes, name: bytes, isFolder: bool)
    ensures EntryOf(FileInfo(Inside(folder, name), if isFolder then DIRECTORY else FILE), folder, name, isFolder)
  {
  }

  lemma {:induction false} FolderEntriesAre(folder: bytes, names: seq<(bytes, bool)>)
    ensures |FolderEntries(folder, names)| == |names|
    ensures forall i :: 0 <= i < |names| ==> EntryOf(FolderEntries(folder, names)[i], folder, names[i].0, names[i].1)
  {
    hide Inside, EntryOf;
    if names != [] {
      FolderEntriesAre(folder, names[1..]);
      InsideIs(folder, names[0].0, names[0].1);
    }
  }

  lemma {:induction false} ChildEntriesAre(folder: bytes, children: seq<Node>)
    ensures |ChildEntries(folder, children)| == |children|
    ensures forall i :: 0 <= i < |children| ==>
      EntryOf(ChildEntries(folder, children)[i], folder, children[i].name, children[i].kind != HostFile)
  {
    hide Inside, EntryOf;
    if children != [] {
      ChildEntriesAre(folder, children[1..]);
      InsideIs(folder, children[0].name, children[0].kind != HostFile);
    }
  }

  /** A listing of any path that is found, the root's for none. Of a host folder: one entry
      for each name in it, in its order, a folder exactly where that is one. Of a virtual
      folder: one for each child, hidden or not, a file exactly for a host file. Of a host
      file: itself, or nothing where there is a folder instead. */
  lemma EntriesAre(env: Env, folder: bytes)
    requires FindVirtual(env.root, if folder == [] then env.root.name else folder).Some?
    ensures var path := if folder == [] then env.root.name else folder;
      var n, entries := NodeAt(env.root, FindVirtual(env.root, path).value.0), Entries(env, folder);
      match n.kind
      case HostFolder =>
        var found := env.disk(Render(VirtualToHost(env.root, path)));
        found.Directory? ==>
          && |entries| == |found.names|
          && forall i :: 0 <= i < |entries| ==> EntryOf(entries[i], path, found.names[i].0, found.names[i].1)
      case Virtual =>
        && |entries| == |n.children|
        && forall i :: 0 <= i < |entries| ==> EntryOf(entries[i], path, n.children[i].name, n.children[i].kind != HostFile)
      case HostFile =>
        entries == if env.disk(Render(n.hostPath)).Directory? then [] else [FileInfo(path, FILE)]
  {
    hide FindVirtual, VirtualToHost, NodeAt;
    var path := if folder == [] then env.root.name else folder;
    var n := NodeAt(env.root, FindVirtual(env.root, path).value.0);
    var found := env.disk(Render(VirtualToHost(env.root, path)));
    if found.Directory? { FolderEntriesAre(path, found.names); }
    ChildEntriesAre(path, n.children);
  }

  // ----- the components of an entry's path -----------------------------------------------

  lemma NameParts(name: bytes)
    requires Name(name)
    ensures name[0] != SLASH && SkipSlashes(name) == name && FromName(name) == [name]
  {
    assert name[0] in name;
    NameThenSlash(name, []);
    assert name + [] == name && name[..|name|] == name && name[|name|..] == [];
  }

  lemma {:induction false} OnlySlashes(s: bytes, name: bytes)
    requires s != [] && SkipSlashes(s) == [] && Name(name)
    ensures s[0] == SLASH && s[|s| - 1] == SLASH && SkipSlashes(s + name) == name
  {
    assert (s + name)[1..] == s[1..] + name;
    NameParts(name);
    if |s| > 1 {
      OnlySlashes(s[1..], name);
    } else {
      assert s[1..] + name == name;
    }
  }

  lemma {:induction false} SkipThenMore(s: bytes, more: bytes)
    requires SkipSlashes(s) != []
    ensures SkipSlashes(s + more) == SkipSlashes(s) + more
    ensures s[|s| - 1] == SkipSlashes(s)[|SkipSlashes(s)| - 1]
  {
    if s[0] == SLASH {
      assert (s + more)[1..] == s[1..] + more;
      SkipThenMore(s[1..], more);
    }
  }

  /** What stands between a folder and a name in it. */
  function Between(s: bytes): bytes { if s != [] && s[|s| - 1] == SLASH then [] else [SLASH] }

  /** Slashes, and at least one with those at the end of `s`. */
  ghost predicate Gap(s: bytes, gap: bytes) {
    SkipSlashes(gap) == [] && (gap == [] ==> s != [] && s[|s| - 1] == SLASH)
  }

  lemma {:induction false} NameBefore(s: bytes, more: bytes)
    requires NameLength(s) < |s| || more == [] || more[0] == SLASH
    ensures NameLength(s + more) == NameLength(s)
    ensures NameLength(s) < |s| ==> s[NameLength(s)] == SLASH
  {
    if s == [] {
      assert s + more == more;
    } else if s[0] != SLASH {
      assert (s + more)[1..] == s[1..] + more;
      NameBefore(s[1..], more);
    }
  }

  lemma SkipGap(gap: bytes, name: bytes)
    requires SkipSlashes(gap) == [] && Name(name)
    ensures SkipSlashes(gap + name) == name
    ensures gap != [] ==> gap[0] == SLASH && SkipSlashes((gap + name)[1..]) == name
  {
    NameParts(name);
    if gap == [] {
      assert gap + name == name;
    } else {
      OnlySlashes(gap, name);
    }
  }

  lemma FromNameIs(head: bytes, behind: bytes)
    requires Name(head) && (behind == [] || behind[0] == SLASH)
    ensures FromName(head + behind) == [head] + AfterName(behind)
  {
    hide AfterName;
    assert head[0] in head;
    NameThenSlash(head, behind);
    assert (head + behind)[..|head|] == head && (head + behind)[|head|..] == behind;
  }

  lemma AfterNameIs(behind: bytes)
    requires behind != [] && behind[0] == SLASH
    ensures AfterName(behind) ==
      if SkipSlashes(behind[1..]) == [] then [[]] else FromName(SkipSlashes(behind[1..]))
  {
    hide FromName, SkipSlashes;
  }

  /** A path in two: its first name, and what is behind. */
  lemma Parted(s: bytes) returns (head: bytes, behind: bytes)
    requires s != [] && s[0] != SLASH
    ensures s == head + behind && Name(head) && (behind == [] || behind[0] == SLASH)
  {
    NameHasNoSlash(s);
    NameBefore(s, []);
    head, behind := s[..NameLength(s)], s[NameLength(s)..];
    assert s + [] == s;
  }

  /** One more name behind a path. */
  lemma {:induction false} FromNameMore(s: bytes, gap: bytes, name: bytes)
    requires s != [] && s[0] != SLASH && Name(name) && Gap(s, gap)
    ensures FromName(s + gap + name) == DropSlash(FromName(s)) + [name]
    decreases |s|, 2
  {
    var more := gap + name;
    SkipGap(gap, name);
    NameParts(name);
    hide SkipSlashes, NameLength, FromName, AfterName;
    var head, behind := Parted(s);
    assert s + gap + name == head + (behind + more);
    FromNameIs(head, behind);
    if behind == [] {
      assert s == head && head[|head| - 1] in head;
      assert behind + more == more;
      AfterNameIs(more);
      AfterNothing();
    } else {
      AfterNameMore(s, behind, gap, name);
      DropBehind(head, AfterName(behind), name);
    }
    FromNameIs(head, behind + more);
  }

  lemma AfterNothing()
    ensures AfterName([]) == []
  {
  }

  lemma {:induction false} AfterNameMore(s: bytes, behind: bytes, gap: bytes, name: bytes)
    requires 0 < |behind| < |s| && s[|s| - |behind|..] == behind && behind[0] == SLASH
    requires Name(name) && Gap(s, gap)
    ensures AfterName(behind) != []
    ensures AfterName(behind + (gap + name)) == DropSlash(AfterName(behind)) + [name]
    decreases |s|, 1
  {
    hide FromName, NameLength, AfterName, SkipSlashes, Name, Gap;
    var after, more := behind[1..], gap + name;
    assert behind[|behind| - 1] == s[|s| - 1];
    assert (behind + more)[1..] == after + more;
    AfterNameIs(behind);
    AfterNameIs(behind + more);
    GapIs(s, gap);
    if SkipSlashes(after) == [] {
      AfterSlashes(after, gap, name);
    } else {
      SkipThenMore(after, more);
      SkipIsShorter(after);
      SkippedMore(s, SkipSlashes(after), gap, name);
    }
  }

  lemma GapIs(s: bytes, gap: bytes)
    requires Gap(s, gap)
    ensures SkipSlashes(gap) == []
  {
  }

  lemma AfterSlashes(after: bytes, gap: bytes, name: bytes)
    requires SkipSlashes(after) == [] && SkipSlashes(gap) == [] && Name(name)
    ensures SkipSlashes(after + (gap + name)) == name != [] && FromName(name) == [name]
    ensures var slash: Path := [[]]; [name] == DropSlash(slash) + [name]
  {
    NameParts(name);
    hide SkipSlashes, FromName;
    BothSlashes(after, gap);
    SkipGap(after + gap, name);
    assert after + (gap + name) == after + gap + name;
    var slash: Path := [[]];
    assert slash[..0] == [] && slash[..0] + [name] == [name];
  }

  lemma SkipIsShorter(s: bytes)
    requires SkipSlashes(s) != []
    ensures |SkipSlashes(s)| <= |s| && SkipSlashes(s)[0] != SLASH
  {
  }

  lemma {:induction false} SkippedMore(s: bytes, t: bytes, gap: bytes, name: bytes)
    requires t != [] && |t| < |s| && t[0] != SLASH && t[|t| - 1] == s[|s| - 1]
    requires Name(name) && Gap(s, gap)
    ensures FromName(t) != [] && FromName(t + (gap + name)) == DropSlash(FromName(t)) + [name]
    decreases |s|, 0
  {
    hide FromName, SkipSlashes;
    SomeName(t);
    assert t + (gap + name) == t + gap + name;
    FromNameMore(t, gap, name);
  }

  lemma {:induction false} BothSlashes(a: bytes, b: bytes)
    requires SkipSlashes(a) == [] && SkipSlashes(b) == []
    ensures SkipSlashes(a + b) == []
  {
    if a == [] {
      assert a + b == b;
    } else {
      assert (a + b)[1..] == a[1..] + b;
      BothSlashes(a[1..], b);
    }
  }

  /** So for any path but the empty one and one of slashes only. */
  lemma ComponentsMore(s: bytes, name: bytes)
    requires SkipSlashes(s) != [] && Name(name)
    ensures Components(s + Between(s) + name) == DropSlash(Components(s)) + [name]
  {
    hide FromName, SkipSlashes;
    var t, gap := SkipSlashes(s), Between(s);
    var more := gap + name;
    SkipThenMore(s, more);
    SkipIsShorter(s);
    OneSlash(s);
    assert s + gap + name == s + more && t + gap + name == t + more;
    FromNameMore(t, gap, name);
    ComponentsAre(s);
    ComponentsAre(s + more);
    SomeName(t);
    DropBehind(ROOT_DIR, FromName(t), name);
  }

  lemma OneSlash(s: bytes)
    requires SkipSlashes(s) != []
    ensures Gap(s, Between(s)) && Gap(SkipSlashes(s), Between(s))
  {
    SkipThenMore(s, []);
    assert [SLASH][1..] == [];
  }

  lemma SomeName(s: bytes)
    requires s != [] && s[0] != SLASH
    ensures FromName(s) != []
  {
  }

  lemma ComponentsAre(s: bytes)
    requires SkipSlashes(s) != []
    ensures s != [] && Components(s) ==
      if s[0] == SLASH then [ROOT_DIR] + FromName(SkipSlashes(s)) else FromName(SkipSlashes(s))
  {
    hide FromName;
  }

  lemma DropBehind(root: bytes, names: Path, name: bytes)
    requires names != []
    ensures DropSlash([root] + names) == [root] + DropSlash(names)
    ensures [root] + (DropSlash(names) + [name]) == DropSlash([root] + names) + [name]
  {
    assert ([root] + names)[..|names|] == [root] + names[..|names| - 1];
  }

  /** Without its last slashes a path has the same components, less the empty last one. */
  lemma {:induction false} FromNameBack(s: bytes)
    requires s != [] && s[0] != SLASH
    ensures var z := SkipSlashesBack(s); z != [] && z[0] != SLASH && FromName(z) == DropSlash(FromName(s))
  {
    hide FromName;
    if s[|s| - 1] == SLASH {
      var z := s[..|s| - 1];
      FromNameBack(z);
      var a: bytes := [97];
      assert Name(a) && s == z + [SLASH] && [SLASH][1..] == [];
      FromNameMore(z, [SLASH], a);
      FromNameMore(s, [], a);
      assert s + [] + a == z + [SLASH] + a;
      SameFront(DropSlash(FromName(s)), DropSlash(FromName(z)), a);
    } else {
      LastName(s);
    }
  }

  lemma SameFront(a: Path, b: Path, name: bytes)
    requires a + [name] == b + [name]
    ensures a == b
  {
    assert a == (a + [name])[..|a|] && b == (b + [name])[..|b|];
    assert |a + [name]| == |b + [name]|;
  }

  lemma {:induction false} LastName(s: bytes)
    requires s != [] && s[0] != SLASH && s[|s| - 1] != SLASH
    ensures DropSlash(FromName(s)) == FromName(s)
    decreases |s|
  {
    var n := NameLength(s);
    NameHasNoSlash(s);
    NameBefore(s, []);
    assert s + [] == s;
    if n < |s| {
      var after := s[n..][1..];
      assert s[n..][|s| - n - 1] == s[|s| - 1];
      EndsAlike(after);
      LastName(SkipSlashes(after));
      assert AfterName(s[n..]) == FromName(SkipSlashes(after));
    } else {
      assert s[n..] == [];
    }
  }

  lemma {:induction false} EndsAlike(s: bytes)
    requires s != [] && s[|s| - 1] != SLASH
    ensures SkipSlashes(s) != [] && SkipSlashes(s)[|SkipSlashes(s)| - 1] == s[|s| - 1]
  {
    if s[0] == SLASH { EndsAlike(s[1..]); }
  }

  /** And of slashes only, or none. */
  lemma ComponentsOfOne(s: bytes, name: bytes)
    requires SkipSlashes(s) == [] && Name(name)
    ensures Components(s + Between(s) + name) == [ROOT_DIR, name]
  {
    hide FromName, NameLength, AfterName;
    NameParts(name);
    var all := s + Between(s) + name;
    if s == [] {
      assert all == [SLASH] + name && all[1..] == name;
    } else {
      OnlySlashes(s, name);
      assert all == s + name;
    }
    ComponentsAre(all);
  }

  // ----- where an entry's path leads -------------------------------------------------------

  ghost predicate Tidy(n: Node) {
    DistinctNames(n.children) && forall c :: c in n.children ==> WellFormed(c)
  }

  lemma NoEmptyChild(n: Node, i: nat)
    requires Tidy(n) && i < |n.children|
    ensures n.children[i].name != [] && n.children[i].name != ROOT_DIR && Tidy(n.children[i])
  {
    assert n.children[i] in n.children && WellFormed(n.children[i]);
    assert SLASH in ROOT_DIR;
  }

  lemma DropFirst(c: Path)
    requires c != [] && c[0] != []
    ensures DropSlash(c) == [c[0]] + DropSlash(c[1..])
  {
    assert c == [c[0]] + c[1..];
    if |c| > 1 && c[|c| - 1] == [] {
      assert c[..|c| - 1] == [c[0]] + c[1..][..|c| - 2];
    }
  }

  /** One more name behind the components of a folder on the host. */
  lemma {:induction false} WalkMore(n: Node, c: Path, name: bytes)
    requires Tidy(n) && Name(name) && Walk(n, c).Some?
    requires Walk(n, c).value.0 != [] && NodeAt(n, Walk(n, c).value.0).kind == HostFolder
    ensures Walk(n, DropSlash(c) + [name]) ==
      Some((Walk(n, c).value.0, DropSlash(Walk(n, c).value.1) + [name]))
    decreases |c|
  {
    hide WellFormed;
    var more := DropSlash(c) + [name];
    assert c[0] == ROOT_DIR ==> c[0] != [];
    if c[0] == ROOT_DIR {
      DropFirst(c);
      assert more == [c[0]] + (DropSlash(c[1..]) + [name]);
      WalkMore(n, c[1..], name);
    } else {
      var i := FindChild(n.children, c[0]).value;
      NoEmptyChild(n, i);
      DropFirst(c);
      assert more == [c[0]] + (DropSlash(c[1..]) + [name]);
      assert more[1..] == DropSlash(c[1..]) + [name];
      var child := n.children[i];
      if child.kind != HostFolder {
        var (a, rest) := Walk(child, c[1..]).value;
        assert ([i] + a)[1..] == a;
        assert a != [] by { assert [i] + [] == [i] && [i][1..] == []; }
        WalkMore(child, c[1..], name);
      }
    }
  }

  /** One more name behind the components of a virtual folder. */
  lemma {:induction false} WalkToChild(n: Node, c: Path, i: nat)
    requires Tidy(n) && n.kind == Virtual && Walk(n, c).Some?
    requires var a := Walk(n, c).value.0; NodeAt(n, a).kind == Virtual && i < |NodeAt(n, a).children|
    ensures var a := Walk(n, c).value.0;
      var child := NodeAt(n, a).children[i];
      && DropSlash(c) == c
      && Walk(n, c + [child.name]) == if child.visible then Some((a + [i], [])) else None
    decreases |c|
  {
    hide WellFormed;
    var (a, rest) := Walk(n, c).value;
    if c == [] {
      NoEmptyChild(n, i);
      FindsTheChild(n.children, i);
      var child := n.children[i];
      assert c + [child.name] == [child.name] && [child.name][1..] == [];
      assert Walk(child, []) == Some(([], [])) && [i] + [] == [i] && a + [i] == [i];
    } else if c[0] == ROOT_DIR {
      DropFirst(c);
      WalkToChild(n, c[1..], i);
      assert (c + [NodeAt(n, a).children[i].name])[1..] == c[1..] + [NodeAt(n, a).children[i].name];
    } else {
      var j := FindChild(n.children, c[0]).value;
      NoEmptyChild(n, j);
      DropFirst(c);
      var next := n.children[j];
      assert next.kind != HostFolder by { assert [j][1..] == []; }
      var b := Walk(next, c[1..]).value.0;
      assert ([j] + b)[1..] == b;
      FileEnds(n, j, c[1..]);
      assert next.kind == Virtual;
      WalkToChild(next, c[1..], i);
      var name := NodeAt(next, b).children[i].name;
      assert (c + [name])[1..] == c[1..] + [name];
      assert [j] + (b + [i]) == a + [i];
    }
  }

  lemma FileEnds(n: Node, i: nat, c: Path)
    requires Tidy(n) && i < |n.children| && Walk(n.children[i], c).Some?
    ensures n.children[i].kind == HostFile ==> Walk(n.children[i], c).value.0 == []
  {
    assert WellFormed(n.children[i]);
    if n.children[i].kind == HostFile { HostFileEnds(n.children[i], c); }
  }

  lemma {:induction false} HostFileEnds(n: Node, c: Path)
    requires n.children == [] && Walk(n, c).Some?
    ensures Walk(n, c).value.0 == []
    decreases |c|
  {
    if c != [] && c[0] == ROOT_DIR { HostFileEnds(n, c[1..]); }
  }

  // ----- behind the root's name -------------------------------------------------------------

  lemma {:induction false} BackSplits(s: bytes)
    ensures SkipSlashesBack(s) <= s && SkipSlashes(s[|SkipSlashesBack(s)|..]) == []
    ensures var z := SkipSlashesBack(s); z != [] ==> z[|z| - 1] != SLASH
  {
    if s != [] && s[|s| - 1] == SLASH {
      BackSplits(s[..|s| - 1]);
      var z := SkipSlashesBack(s);
      assert s[|z|..] == s[..|s| - 1][|z|..] + [SLASH];
      assert [SLASH][1..] == [];
      BothSlashes(s[..|s| - 1][|z|..], [SLASH]);
    } else {
      assert s[|s|..] == [];
    }
  }

  /** Behind a prefix without slashes, the same is left, less the slashes at the end. */
  lemma StemLeaves(stem: bytes, t: bytes, more: bytes)
    requires Name(stem) && t != [] && t[0] != SLASH
    requires more != [] && (more[0] == SLASH || t[|t| - 1] == SLASH)
    ensures stem <= SkipSlashesBack(t) <==> stem <= t + more
    ensures stem <= SkipSlashesBack(t) ==>
      stem <= t && SkipSlashesBack(t)[|stem|..] == SkipSlashesBack(t[|stem|..])
      && (t + more)[|stem|..] == t[|stem|..] + more
  {
    BackSplits(t);
    var u := SkipSlashesBack(t);
    SlashBehind(t, more);
    hide SkipSlashesBack, SkipSlashes;
    FrontOf(u, t, t + more);
    StemIff(stem, u, t + more);
    if stem <= u {
      assert u[..|stem|] == t[..|stem|];
      BackOfRest(t, |stem|);
      Behind(t, more, |stem|);
    }
  }

  lemma FrontOf(u: bytes, t: bytes, all: bytes)
    requires u <= t <= all
    ensures u <= all
  {
  }

  lemma Behind(t: bytes, more: bytes, n: nat)
    requires n <= |t|
    ensures (t + more)[n..] == t[n..] + more
  {
  }

  lemma StemIff(stem: bytes, u: bytes, all: bytes)
    requires Name(stem) && u <= all && |u| < |all| && all[|u|] == SLASH
    ensures stem <= u <==> stem <= all
  {
    forall i | 0 <= i < |stem| ensures stem[i] != SLASH { assert stem[i] in stem; }
    assert stem <= all ==> |stem| <= |u|;
    if stem <= all { assert stem == all[..|stem|] == u[..|stem|]; }
  }

  lemma SlashBehind(t: bytes, more: bytes)
    requires more != [] && (more[0] == SLASH || (t != [] && t[|t| - 1] == SLASH))
    ensures |SkipSlashesBack(t)| < |t + more| && (t + more)[|SkipSlashesBack(t)|] == SLASH
  {
    BackSplits(t);
    var u := SkipSlashesBack(t);
    if u == t {
      assert (t + more)[|t|] == more[0];
    } else {
      assert t[|u|..] != [] && t[|u|..][0] == SLASH;
    }
  }

  lemma {:induction false} BackOfRest(t: bytes, n: nat)
    requires n <= |SkipSlashesBack(t)|
    ensures n <= |t| && SkipSlashesBack(t[n..]) == SkipSlashesBack(t)[n..]
  {
    if t != [] && t[|t| - 1] == SLASH {
      BackOfRest(t[..|t| - 1], n);
      assert t[n..][..|t| - n - 1] == t[..|t| - 1][n..];
    }
  }

  lemma TrimEnd(t: bytes, name: bytes, gap: bytes)
    requires Name(name)
    ensures SkipSlashesBack(t + (gap + name)) == t + (gap + name)
  {
    var all := t + (gap + name);
    assert all[|all| - 1] == name[|name| - 1] && name[|name| - 1] in name;
  }

  /** One more name behind a virtual path. */
  lemma VirtualMore(root: Node, s: bytes, name: bytes)
    requires Name(SkipSlashes(root.name)) && SkipSlashes(s) != [] && Name(name)
    ensures var c, c' := VirtualComponents(root, s), VirtualComponents(root, s + Between(s) + name);
      c' == DropSlash(c) + [name] || (c == [] && c' == [ROOT_DIR, name])
  {
    hide FromName, SkipSlashes, SkipSlashesBack, Components, Between, DropSlash, VirtualComponents, Name;
    var t, more, stem := SkipSlashes(s), Between(s) + name, SkipSlashes(root.name);
    SkipThenMore(s, more);
    SkipIsShorter(s);
    assert s + Between(s) + name == s + more;
    MoreIs(s, name);
    TrimEnd(t, name, Between(s));
    VirtualIs(root, s);
    VirtualIs(root, s + more);
    StemLeaves(stem, t, more);
    if stem <= SkipSlashesBack(t) {
      StemIsSome(stem);
      NameEndsIt(stem, t);
      SameBetween(t, |stem|);
      assert t[|stem|..] + more == t[|stem|..] + Between(s) + name;
      RestMore(t[|stem|..], name);
    } else {
      ComponentsMore(s, name);
    }
  }

  lemma StemIsSome(stem: bytes)
    requires Name(stem)
    ensures |stem| > 0
  {
  }

  lemma VirtualIs(root: Node, s: bytes)
    requires Name(SkipSlashes(root.name))
    ensures var stem, str := SkipSlashes(root.name), SkipSlashesBack(SkipSlashes(s));
      VirtualComponents(root, s) == if stem <= str then Components(str[|stem|..]) else Components(s)
  {
    hide Components;
    RootIsName(root);
  }

  lemma NameEndsIt(stem: bytes, t: bytes)
    requires Name(stem) && stem <= t
    ensures |t| == |stem| ==> t[|t| - 1] != SLASH
  {
    assert stem[|stem| - 1] in stem;
  }

  lemma RootIsName(root: Node)
    requires Name(SkipSlashes(root.name))
    ensures Trim(root.name) == SkipSlashes(root.name)
  {
    TrimTail(SkipSlashes(root.name), []);
    assert SkipSlashes(root.name) + Tail([]) == SkipSlashes(root.name);
  }

  lemma MoreIs(s: bytes, name: bytes)
    requires SkipSlashes(s) != [] && Name(name)
    ensures var t, more := SkipSlashes(s), Between(s) + name;
      more != [] && Between(t) == Between(s) && (more[0] == SLASH || t[|t| - 1] == SLASH)
  {
    SkipThenMore(s, []);
  }

  /** What is left behind the root's name. */
  lemma RestMore(w: bytes, name: bytes)
    requires Name(name)
    ensures var c, c' := Components(SkipSlashesBack(w)), Components(w + Between(w) + name);
      c' == DropSlash(c) + [name] || (c == [] && c' == [ROOT_DIR, name])
  {
    hide FromName, Components, SkipSlashes, SkipSlashesBack, Between, DropSlash;
    if SkipSlashes(w) == [] { RestOfSlashes(w, name); } else { RestOfNames(w, name); }
  }

  lemma SameBetween(t: bytes, n: nat)
    requires 0 < n <= |t| && (n == |t| ==> t[|t| - 1] != SLASH)
    ensures Between(t) == Between(t[n..])
  {
    var w := t[n..];
    if w != [] { assert w[|w| - 1] == t[|t| - 1]; }
  }

  lemma RestOfSlashes(w: bytes, name: bytes)
    requires SkipSlashes(w) == [] && Name(name)
    ensures Components(SkipSlashesBack(w)) == [] && Components(w + Between(w) + name) == [ROOT_DIR, name]
  {
    hide Components, SkipSlashes, SkipSlashesBack, Between;
    ComponentsOfOne(w, name);
    AllGone(w);
  }

  lemma RestOfNames(w: bytes, name: bytes)
    requires SkipSlashes(w) != [] && Name(name)
    ensures Components(w + Between(w) + name) == DropSlash(Components(SkipSlashesBack(w))) + [name]
  {
    hide Components, SkipSlashes, SkipSlashesBack, Between, DropSlash;
    ComponentsMore(w, name);
    ComponentsBack(w);
  }

  lemma {:induction false} AllGone(w: bytes)
    requires SkipSlashes(w) == []
    ensures SkipSlashesBack(w) == [] && Components([]) == []
  {
    BackSplits(w);
    var z := SkipSlashesBack(w);
    if z != [] {
      AllSlashes(w, |z| - 1);
      assert false;
    }
  }

  lemma {:induction false} AllSlashes(w: bytes, i: nat)
    requires SkipSlashes(w) == [] && i < |w|
    ensures w[i] == SLASH
  {
    if i > 0 { AllSlashes(w[1..], i - 1); }
  }

  lemma ComponentsBack(w: bytes)
    requires SkipSlashes(w) != []
    ensures var c := Components(SkipSlashesBack(w)); c == DropSlash(Components(w)) == DropSlash(c)
  {
    hide FromName, SkipSlashes, SkipSlashesBack;
    var t := SkipSlashes(w);
    SkipIsShorter(w);
    FromNameBack(t);
    BackSkips(w);
    BackSplits(t);
    LastName(SkipSlashesBack(t));
    ComponentsAre(w);
    ComponentsAre(SkipSlashesBack(w));
    SomeName(t);
    SomeName(SkipSlashesBack(t));
    DropBehind(ROOT_DIR, FromName(t), []);
    DropBehind(ROOT_DIR, FromName(SkipSlashesBack(t)), []);
  }

  lemma {:induction false} BackCons(a: byte, v: bytes)
    ensures SkipSlashesBack([a] + v) ==
      if SkipSlashesBack(v) == [] && a == SLASH then [] else [a] + SkipSlashesBack(v)
  {
    var w := [a] + v;
    if v == [] {
      assert w == [a] && w[..0] == [];
    } else if v[|v| - 1] == SLASH {
      assert w[..|w| - 1] == [a] + v[..|v| - 1];
      BackCons(a, v[..|v| - 1]);
    }
  }

  lemma {:induction false} BackSkips(w: bytes)
    requires SkipSlashes(w) != []
    ensures SkipSlashes(SkipSlashesBack(w)) == SkipSlashesBack(SkipSlashes(w)) != []
    ensures SkipSlashesBack(w) != [] && SkipSlashesBack(w)[0] == w[0]
  {
    var a, v := w[0], w[1..];
    assert w == [a] + v;
    BackCons(a, v);
    if a == SLASH {
      BackSkips(v);
      assert ([a] + SkipSlashesBack(v))[1..] == SkipSlashesBack(v);
    }
  }

  // ----- asking for an entry ------------------------------------------------------------------

  /** The path of an entry, unless it is one of slashes only, leads just below the folder:
      of a folder on the host to the thing of that name in the one opened, */
  lemma HostEntryLeads(root: Node, path: bytes, e: FileInfo, name: bytes, isFolder: bool)
    requires WellFormedRoot(root) && Name(name) && EntryOf(e, path, name, isFolder)
    requires FindVirtual(root, path).Some? && NodeAt(root, FindVirtual(root, path).value.0).kind == HostFolder
    ensures FindVirtual(root, e.path).Some?
    ensures FindVirtual(root, e.path).value.0 == FindVirtual(root, path).value.0
    ensures VirtualToHost(root, e.path) == WithoutSlash(VirtualToHost(root, path)) + [name]
  {
    SomeNames(root, path);
    EntryPath(e, path, name, isFolder);
    hide WellFormed, SkipSlashes, VirtualComponents, Between, EntryOf, Walk;
    var c := VirtualComponents(root, path);
    var (a, rest) := FindVirtual(root, path).value;
    VirtualMore(root, path, name);
    assert c != [] by { WalkNothing(root); }
    assert a != [];
    WalkMore(root, c, name);
    HostNodeIsNormal(root, a);
    JoinMore(NodeAt(root, a), rest, name);
  }

  lemma WalkNothing(root: Node)
    ensures Walk(root, []) == Some(([], []))
  {
  }

  lemma EntryPath(e: FileInfo, folder: bytes, name: bytes, isFolder: bool)
    requires EntryOf(e, folder, name, isFolder)
    ensures e.path == folder + Between(folder) + name
  {
    assert e.path == folder + e.path[|folder|..];
  }

  /** Slashes only lead to the root. */
  lemma SomeNames(root: Node, path: bytes)
    requires WellFormedRoot(root) && FindVirtual(root, path).Some?
    requires NodeAt(root, FindVirtual(root, path).value.0).kind == HostFolder
    ensures SkipSlashes(path) != []
  {
    if SkipSlashes(path) == [] { SlashesLead(root, path); }
  }

  lemma SlashesLead(root: Node, path: bytes)
    requires Name(SkipSlashes(root.name)) && SkipSlashes(path) == []
    ensures FindVirtual(root, path) == Some(([], []))
  {
    AllGone(path);
    RootIsName(root);
    assert Trim(path) == [];
    assert Components(path) == [] || Components(path) == [ROOT_DIR];
    assert [ROOT_DIR][1..] == [];
  }

  lemma JoinMore(n: Node, rest: Path, name: bytes)
    requires WellFormed(n) && n.kind == HostFolder && Name(name)
    ensures Join(n.hostPath, DropSlash(rest) + [name]) == WithoutSlash(Join(n.hostPath, rest)) + [name]
  {
    var front := DropSlash(rest);
    assert (front + [name])[..|front|] == front;
    JoinBack(n, rest);
  }

  lemma JoinBack(n: Node, rest: Path)
    requires WellFormed(n) && n.kind == HostFolder
    ensures Join(n.hostPath, DropSlash(rest)) == WithoutSlash(Join(n.hostPath, rest))
  {
    NoSlashAtEnd(n.hostPath);
    if rest != [] && rest[|rest| - 1] == [] { JoinSome(n.hostPath, rest[..|rest| - 1]); }
  }

  lemma {:induction false} JoinSome(p: Path, rest: Path)
    requires p != []
    ensures Join(p, rest) != []
  {
    if rest != [] { JoinSome(p, rest[..|rest| - 1]); }
  }

  /** of a virtual folder to that child, if it is visible, and nowhere if it is not. */
  lemma ChildEntryLeads(root: Node, path: bytes, e: FileInfo, i: nat, isFolder: bool)
    requires WellFormedRoot(root) && SkipSlashes(path) != [] && FindVirtual(root, path).Some?
    requires var n := NodeAt(root, FindVirtual(root, path).value.0);
      n.kind == Virtual && i < |n.children| && EntryOf(e, path, n.children[i].name, isFolder)
    ensures var a := FindVirtual(root, path).value.0;
      FindVirtual(root, e.path) ==
        if NodeAt(root, a).children[i].visible then Some((a + [i], [])) else None
  {
    var (a, rest) := FindVirtual(root, path).value;
    var child := NodeAt(root, a).children[i];
    EntryPath(e, path, child.name, isFolder);
    hide WellFormed, SkipSlashes, VirtualComponents, Between, EntryOf, Walk;
    var c := VirtualComponents(root, path);
    ChildIsNamed(root, a, i);
    VirtualMore(root, path, child.name);
    WalkToChild(root, c, i);
    if VirtualComponents(root, e.path) == [ROOT_DIR, child.name] && c == [] {
      SkipRootDir(root, child.name);
      assert c + [child.name] == [child.name];
    }
  }

  lemma SkipRootDir(root: Node, name: bytes)
    ensures Walk(root, [ROOT_DIR, name]) == Walk(root, [name])
  {
    assert [ROOT_DIR, name][1..] == [name];
  }

  lemma {:induction false} ChildIsNamed(n: Node, a: Address, i: nat)
    requires Tidy(n) && ValidAddress(n, a) && i < |NodeAt(n, a).children|
    ensures Name(NodeAt(n, a).children[i].name)
  {
    if a == [] {
      assert n.children[i] in n.children && WellFormed(n.children[i]);
    } else {
      NoEmptyChild(n, a[0]);
      ChildIsNamed(n.children[a[0]], a[1..], i);
    }
  }

  // ----- what the asker of a listing has in the end -----------------------------------------

  /** When the asker's loop ends, its list has one entry for each name in the host folder
      opened, or for each child of the virtual one, of the right kind and under a path of it;
      or just the file. */
  lemma CollectedAre(a0: Peer, b0: Peer, folder: bytes, acts: seq<L.Action>)
    requires L.CanStart(a0, b0, folder) && L.Run(L.Start(a0, b0, folder), acts).Some?
    requires L.Run(L.Start(a0, b0, folder), acts).value.collected.Some?
    ensures FindVirtual(b0.env.root, if folder == [] then b0.env.root.name else folder).Some?
    ensures var path := if folder == [] then b0.env.root.name else folder;
      var n, list := NodeAt(b0.env.root, FindVirtual(b0.env.root, path).value.0),
                     L.Run(L.Start(a0, b0, folder), acts).value.collected.value;
      match n.kind
      case HostFolder =>
        var found := b0.env.disk(Render(VirtualToHost(b0.env.root, path)));
        found.Directory? ==>
          && |list| == |found.names|
          && forall i :: 0 <= i < |list| ==> EntryOf(list[i], path, found.names[i].0, found.names[i].1)
      case Virtual =>
        && |list| == |n.children|
        && forall i :: 0 <= i < |list| ==> EntryOf(list[i], path, n.children[i].name, n.children[i].kind != HostFile)
      case HostFile =>
        list == if b0.env.disk(Render(n.hostPath)).Directory? then [] else [FileInfo(path, FILE)]
  {
    assert MayList(b0.env, folder);
    hide L.CanStart, L.Run, L.Start, L.Enabled, Entries, FindVirtual, VirtualToHost, NodeAt, EntryOf, MayList;
    AcceptedIsFound(b0.env, folder);
    L.CollectedIsWhole(a0, b0, folder, acts);
    EntriesAre(b0.env, folder);
  }

  lemma AcceptedIsFound(env: Env, folder: bytes)
    requires MayList(env, folder)
    ensures FindVirtual(env.root, if folder == [] then env.root.name else folder).Some?
  {
    if folder == [] {
      var name := Trim(env.root.name);
      assert name[|name|..] == [];
      assert VirtualComponents(env.root, env.root.name) == [];
    }
  }
}
