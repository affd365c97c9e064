/** What the checks of a peer do not see: forbidden folders below the mapped one, and
    paths that climb out of it. */
module Containment {
  import opened Bytes
  import opened Requests
  import opened Paths
  import opened FileMapping
  import opened ForbiddenPaths
  import opened Peer
  import Listed

  // ----- listing a forbidden folder ------------------------------------------------

  /** The host folder that a listing of this path opens. */
  function Opened(env: Env, folder: bytes): Path { VirtualToHost(env.root, RequestedPath(env, folder)) }

  /** The path is mapped into the host folder of this node. */
  predicate MappedInto(env: Env, folder: bytes, n: Node) {
    && FindVirtual(env.root, folder).Some?
    && NodeAt(env.root, FindVirtual(env.root, folder).value.0) == n && n.kind == HostFolder
  }

  /** A listing is accepted or refused by the path of the node alone. So what an accepted
      one opens is forbidden, as its components stand, exactly when some forbidden folder
      lies below the node's own and is in front of them. Where the path leads once "." and
      ".." are followed is said by `ListedSafelyIff`. */
  lemma OpensForbiddenLexicallyIff(env: Env, folders: set<Path>, folder: bytes, n: Node)
    requires WellFormedRoot(env.root) && DenotesAll(env.forbidden, folders)
    requires MappedInto(env, folder, n) && MayList(env, folder)
    ensures n.hostPath <= Opened(env, folder)
    ensures IsForbidden(env.forbidden, Render(Opened(env, folder))) <==>
      exists f :: f in folders && n.hostPath < f && f <= Opened(env, folder)
  {
    hide IsForbidden, Render, NearlyNormal, Normal, DenotesAll, WellFormed, Walk, VirtualComponents, Join;
    NodeIsHost(env, folder, n);
    var host := Opened(env, folder);
    ForbiddenIff(env.forbidden, folders, n.hostPath);
    ForbiddenIff(env.forbidden, folders, host);
    forall f | f in folders && f <= host ensures n.hostPath < f {
      assert !Within(n.hostPath, f);
      Comparable(n.hostPath, f, host);
    }
    if f :| f in folders && n.hostPath < f && f <= host { assert Within(host, f); }
  }

  lemma Comparable(p: Path, f: Path, host: Path)
    requires p <= host && f <= host && !(f <= p)
    ensures p < f
  {
    assert p == host[..|p|] && f == host[..|f|];
  }

  lemma NodeIsHost(env: Env, folder: bytes, n: Node)
    requires WellFormedRoot(env.root) && MappedInto(env, folder, n)
    ensures Normal(n.hostPath) && NearlyNormal(n.hostPath) && RequestedPath(env, folder) == folder
    ensures n.hostPath <= Opened(env, folder) && NearlyNormal(Opened(env, folder))
  {
    var (a, rest) := FindVirtual(env.root, folder).value;
    HostNodeIsNormal(env.root, a);
    if folder == [] {
      TrimNothing(env.root);
      assert false;
    }
    JoinGrows(n.hostPath, rest);
    ReachesOnlyVisible(env.root, folder);
  }

  /** The empty path is walked nowhere. */
  lemma TrimNothing(root: Node)
    ensures FindVirtual(root, []) == Some(([], []))
  {
    assert Trim([]) == [];
    assert VirtualComponents(root, []) == [];
  }

  lemma {:induction false} JoinGrows(p: Path, rest: Path)
    ensures p <= Join(p, rest)
  {
    if rest != [] { JoinGrows(p, rest[..|rest| - 1]); }
  }

  /** A path below a mapped folder, spelled without the root's name. */
  lemma BelowChild(root: Node, i: nat, rest: Path)
    requires WellFormedRoot(root) && i < |root.children| && Names(rest)
    requires root.children[i].visible && root.children[i].kind == HostFolder
    requires !(SkipSlashes(root.name) <= Render([root.children[i].name] + rest))
    ensures var s := Render([root.children[i].name] + rest);
      && FindVirtual(root, s) == Some(([i], rest)) && VirtualToHost(root, s) == root.children[i].hostPath + rest
  {
    var child := root.children[i];
    assert child in root.children && WellFormed(child);
    var names := [child.name] + rest;
    FindsTheChild(root.children, i);
    assert child.name[0] in child.name && names[1..] == rest;
    RootNameIsStripped(root, names);
    assert Walk(root, names) == Some(([i], rest));
    assert NodeAt(root, [i]) == child by { assert [i][1..] == []; }
    if rest != [] { assert rest[0] in rest; }
    JoinNames(child.hostPath, rest);
  }

  /** The folder `k` below a mapped folder is forbidden, and is listed. */
  lemma ForbiddenFolderIsListed(env: Env, i: nat, k: bytes)
    requires WellFormedRoot(env.root) && i < |env.root.children| && Name(k)
    requires env.root.children[i].visible && env.root.children[i].kind == HostFolder
    requires !(SkipSlashes(env.root.name) <= Render([env.root.children[i].name, k]))
    requires env.forbidden == {Render(env.root.children[i].hostPath + [k])}
    requires env.disk(Render(env.root.children[i].hostPath + [k])).Directory?
    ensures var s, host := Render([env.root.children[i].name, k]), env.root.children[i].hostPath + [k];
      && MayList(env, s) && Opened(env, s) == host && IsForbidden(env.forbidden, Render(host))
      && !NoDirectory(env, s)
      && var names, entries := env.disk(Render(host)).names, Entries(env, s);
         && |entries| == |names|
         && forall i :: 0 <= i < |names| ==> Listed.EntryOf(entries[i], s, names[i].0, names[i].1)
  {
    hide WellFormed, Normal, Walk, VirtualComponents, Render, IsForbidden;
    var child := env.root.children[i];
    var s, host := Render([child.name, k]), child.hostPath + [k];
    assert [child.name] + [k] == [child.name, k];
    BelowChild(env.root, i, [k]);
    assert NodeAt(env.root, [i]) == child by { assert [i][1..] == []; }
    NodeIsHost(env, s, child);
    HostBelowIsNormal(env.root, child, k);
    OnlyThis(env.forbidden, host, child.hostPath);
    assert !(host <= child.hostPath);
    Listed.FolderEntriesAre(s, env.disk(Render(host)).names);
  }

  lemma HostBelowIsNormal(root: Node, child: Node, k: bytes)
    requires WellFormedRoot(root) && child in root.children && child.kind == HostFolder && Name(k)
    ensures Normal(child.hostPath + [k]) && NearlyNormal(child.hostPath + [k])
  {
    assert WellFormed(child);
    var p := child.hostPath + [k];
    assert p[1..] == child.hostPath[1..] + [k];
  }

  // ----- climbing out --------------------------------------------------------------

  const DOT: bytes := [46]
  const DOTDOT: bytes := [46, 46]

  /** The folder above. */
  function Up(p: Path): Path {
    if p == [ROOT_DIR] then p
    else if p == [] || p[|p| - 1] == DOTDOT then p + [DOTDOT]
    else p[..|p| - 1]
  }

  /** Where a path leads once "." and ".." are followed. */
  function Resolve(p: Path): Path {
    if p == [] then []
    else
      var q, c := Resolve(p[..|p| - 1]), p[|p| - 1];
      if c == [] || c == DOT then q else if c == DOTDOT then Up(q) else q + [c]
  }

  /** How much further down these components end than they began. */
  function Depth(rest: Path): int {
    if rest == [] then 0
    else
      var c := rest[|rest| - 1];
      Depth(rest[..|rest| - 1]) + if c == [] || c == DOT then 0 else if c == DOTDOT then -1 else 1
  }

  /** No prefix has more ".." than names. */
  predicate NeverClimbs(rest: Path) { forall k :: 0 <= k <= |rest| ==> Depth(rest[..k]) >= 0 }

  /** The folder itself or something in it, both resolved. */
  predicate InsideOf(q: Path, base: Path) { base <= q && (|q| > |base| ==> q[|base|] != DOTDOT) }

  ghost predicate StaysInside(folder: Path, rest: Path) {
    forall k :: 0 <= k <= |rest| ==> InsideOf(Resolve(folder + rest[..k]), Resolve(folder))
  }

  /** Neither ".." nor the root. */
  predicate Plain(s: Path) { forall i :: 0 <= i < |s| ==> s[i] != DOTDOT && s[i] != ROOT_DIR }

  predicate NoRoot(s: Path) { forall i :: 0 <= i < |s| ==> s[i] != ROOT_DIR }

  lemma OneMoreComponent(folder: Path, rest: Path, k: nat)
    requires k < |rest|
    ensures rest[..k + 1] == rest[..k] + [rest[k]]
    ensures var q, c := Resolve(folder + rest[..k]), rest[k];
      && Resolve(folder + rest[..k + 1])
         == (if c == [] || c == DOT then q else if c == DOTDOT then Up(q) else q + [c])
      && Depth(rest[..k + 1])
         == Depth(rest[..k]) + if c == [] || c == DOT then 0 else if c == DOTDOT then -1 else 1
  {
    var p := folder + rest[..k + 1];
    assert rest[..k + 1][..k] == rest[..k];
    assert p[..|p| - 1] == folder + rest[..k] && p[|p| - 1] == rest[k];
  }

  function StepTo(q: Path, c: bytes): Path {
    if c == [] || c == DOT then q else if c == DOTDOT then Up(q) else q + [c]
  }

  lemma StepFrom(base: Path, t: Path, c: bytes)
    requires Plain(t) && c != ROOT_DIR && (c == DOTDOT ==> t != [])
    ensures var s := if c == [] || c == DOT then t else if c == DOTDOT then t[..|t| - 1] else t + [c];
      StepTo(base + t, c) == base + s && Plain(s)
  {
    var p := base + t;
    if c == DOTDOT {
      assert t[|t| - 1] in t && p[|p| - 1] == t[|t| - 1];
      assert p[..|p| - 1] == base + t[..|t| - 1];
      PlainPart(t, |t| - 1);
    } else if c != [] && c != DOT {
      assert base + t + [c] == base + (t + [c]);
      PlainMore(t, c);
    }
  }

  lemma PlainPart(t: Path, n: nat)
    requires Plain(t) && n <= |t|
    ensures Plain(t[..n])
  {
  }

  lemma PlainMore(t: Path, c: bytes)
    requires Plain(t) && c != DOTDOT && c != ROOT_DIR
    ensures Plain(t + [c])
  {
  }

  /** As long as nothing climbs, the path resolves to the folder's and so many names. */
  lemma {:induction false} Nested(folder: Path, rest: Path, k: nat) returns (s: Path)
    requires k <= |rest| && NoRoot(rest)
    requires forall m :: 0 <= m <= k ==> Depth(rest[..m]) >= 0
    ensures Resolve(folder + rest[..k]) == Resolve(folder) + s && |s| == Depth(rest[..k]) && Plain(s)
    decreases k
  {
    hide Resolve, Depth, Up, Plain;
    if k == 0 {
      s := [];
      NothingMore(folder, rest);
    } else {
      var t := Nested(folder, rest, k - 1);
      OneMoreComponent(folder, rest, k - 1);
      var c := rest[k - 1];
      assert Depth(rest[..k]) >= 0;
      s := if c == [] || c == DOT then t else if c == DOTDOT then t[..|t| - 1] else t + [c];
      StepFrom(Resolve(folder), t, c);
    }
  }

  lemma NothingMore(folder: Path, rest: Path)
    ensures Resolve(folder + rest[..0]) == Resolve(folder) + [] && Depth(rest[..0]) == 0 && Plain([])
  {
    assert folder + rest[..0] == folder && Resolve(folder) + [] == Resolve(folder);
  }

  /** From the root there is no way out. */
  lemma {:induction false} RootHolds(folder: Path, rest: Path, k: nat) returns (s: Path)
    requires k <= |rest| && NoRoot(rest) && Resolve(folder) == [ROOT_DIR]
    ensures Resolve(folder + rest[..k]) == [ROOT_DIR] + s && Plain(s)
    decreases k
  {
    hide Resolve, Plain;
    if k == 0 {
      s := [];
      NothingMore(folder, rest);
    } else {
      var t := RootHolds(folder, rest, k - 1);
      OneMoreComponent(folder, rest, k - 1);
      var c := rest[k - 1];
      if c == DOTDOT && t == [] {
        s := [];
      } else {
        s := if c == [] || c == DOT then t else if c == DOTDOT then t[..|t| - 1] else t + [c];
        StepFrom([ROOT_DIR], t, c);
      }
    }
  }

  lemma {:induction false} FirstClimb(rest: Path, k: nat) returns (m: nat)
    requires k <= |rest| && Depth(rest[..k]) < 0
    ensures m < k && rest[m] == DOTDOT && Depth(rest[..m]) == 0
    ensures forall i :: 0 <= i <= m ==> Depth(rest[..i]) >= 0
    decreases k
  {
    hide Depth;
    NothingMore([], rest);
    if j: nat :| j < k && Depth(rest[..j]) < 0 {
      m := FirstClimb(rest, j);
    } else {
      m := k - 1;
      OneMoreComponent([], rest, m);
    }
  }

  lemma Outside(base: Path)
    requires base != [ROOT_DIR]
    ensures !InsideOf(Up(base), base)
  {
  }

  lemma PlainInside(base: Path, s: Path)
    requires Plain(s)
    ensures InsideOf(base + s, base)
  {
    if s != [] { assert (base + s)[|base|] == s[0] && s[0] in s; }
  }

  /** Going down from a folder, every step stays in the folder exactly when it is the root
      or no prefix of the way has more ".." than names. */
  lemma StaysInsideIff(folder: Path, rest: Path)
    requires NoRoot(rest)
    ensures StaysInside(folder, rest) <==> Resolve(folder) == [ROOT_DIR] || NeverClimbs(rest)
  {
    hide Resolve, Depth, Plain, InsideOf, Up;
    var base := Resolve(folder);
    if base == [ROOT_DIR] {
      forall k | 0 <= k <= |rest| ensures InsideOf(Resolve(folder + rest[..k]), base) {
        var s := RootHolds(folder, rest, k);
        PlainInside(base, s);
      }
    } else if NeverClimbs(rest) {
      forall k | 0 <= k <= |rest| ensures InsideOf(Resolve(folder + rest[..k]), base) {
        var s := Nested(folder, rest, k);
        PlainInside(base, s);
      }
    } else {
      var k: nat :| k <= |rest| && Depth(rest[..k]) < 0;
      var m := FirstClimb(rest, k);
      var s := Nested(folder, rest, m);
      OneMoreComponent(folder, rest, m);
      assert base + [] == base;
      Outside(base);
      assert !InsideOf(Resolve(folder + rest[..m + 1]), base);
    }
  }

  // ----- what RECEIVE_FILE reaches ---------------------------------------------------

  lemma RestIsNames(root: Node, s: bytes)
    requires WellFormedRoot(root) && FindVirtual(root, s).Some?
    requires NodeAt(root, FindVirtual(root, s).value.0).kind == HostFolder
    ensures NoRoot(FindVirtual(root, s).value.1)
  {
    hide VirtualComponents, Walk, NamesOrSlash, WellFormedRoot;
    var c := VirtualComponents(root, s);
    var (a, rest) := Walk(root, c).value;
    WalkIsVisible(root, c);
    var k :| 0 <= k <= |c| && rest == c[k..];
    VirtualAreNames(root, s);
    if rest != [] {
      NotAtRoot(root);
      assert c[0..] == c;
      SuffixNames(c[1..], k - 1);
      assert c[1..][k - 1..] == rest;
      NoRootAmong(rest);
    }
  }

  lemma VirtualAreNames(root: Node, s: bytes)
    ensures var c := VirtualComponents(root, s); c != [] ==> c[1..] == [] || NamesOrSlash(c[1..])
  {
    hide NamesOrSlash, Trim, Components;
    ComponentsAreNames(Trim(s)[if Trim(root.name) <= Trim(s) then |Trim(root.name)| else 0..]);
    ComponentsAreNames(s);
  }

  lemma NotAtRoot(root: Node)
    requires WellFormedRoot(root)
    ensures root.kind == Virtual
  {
  }

  lemma NoRootAmong(names: Path)
    requires NamesOrSlash(names)
    ensures NoRoot(names)
  {
    assert SLASH in ROOT_DIR;
    forall i | 0 <= i < |names| ensures names[i] != ROOT_DIR {
      if Names(names) {
        assert names[i] in names;
      } else if i < |names| - 1 {
        assert names[..|names| - 1][i] in names[..|names| - 1];
      }
    }
  }

  lemma {:induction false} ResolveJoin(p: Path, rest: Path)
    requires NoRoot(rest)
    ensures Resolve(Join(p, rest)) == Resolve(p + rest)
  {
    hide Up;
    if rest == [] {
      assert p + rest == p;
    } else {
      var m := |rest| - 1;
      ResolveJoin(p, rest[..m]);
      var q := Join(p, rest[..m]);
      assert (p + rest)[..|p + rest| - 1] == p + rest[..m] && (p + rest)[|p + rest| - 1] == rest[m];
      assert (q + [rest[m]])[..|q|] == q;
    }
  }

  /** Every path into a mapped folder: the host path opened leads where the folder's path
      and the remaining components lead, and on the way it stays in the folder exactly when
      that is the root or no prefix of those components has more ".." than names. */
  lemma ReachesInsideIff(root: Node, s: bytes)
    requires WellFormedRoot(root) && FindVirtual(root, s).Some?
    requires NodeAt(root, FindVirtual(root, s).value.0).kind == HostFolder
    ensures var (a, rest) := FindVirtual(root, s).value;
      var folder := NodeAt(root, a).hostPath;
      && Resolve(VirtualToHost(root, s)) == Resolve(folder + rest)
      && (StaysInside(folder, rest) <==> Resolve(folder) == [ROOT_DIR] || NeverClimbs(rest))
  {
    hide WellFormed, Walk, Resolve, Depth, StaysInside, NeverClimbs;
    var (a, rest) := FindVirtual(root, s).value;
    var folder := NodeAt(root, a).hostPath;
    RestIsNames(root, s);
    ResolveJoin(folder, rest);
    StaysInsideIff(folder, rest);
  }

  /** A name that is a name to `Resolve` as well. */
  predicate Proper(n: bytes) { Name(n) && n != DOT && n != DOTDOT }

  lemma ResolveSteps(h: bytes, k: bytes)
    requires Proper(h) && Proper(k)
    ensures Resolve([ROOT_DIR, h, DOTDOT, k]) == [ROOT_DIR, k]
  {
    var p := [ROOT_DIR, h, DOTDOT, k];
    assert ROOT_DIR[0] == SLASH;
    assert p[..3] == [ROOT_DIR, h, DOTDOT] && p[..3][..2] == [ROOT_DIR, h];
    assert [ROOT_DIR, h][..1] == [ROOT_DIR] && [ROOT_DIR][..0] == [];
    assert Resolve([ROOT_DIR]) == [ROOT_DIR] by { assert [] + [ROOT_DIR] == [ROOT_DIR]; }
    assert Resolve([ROOT_DIR, h]) == [ROOT_DIR, h];
    assert Resolve([ROOT_DIR, h, DOTDOT]) == [ROOT_DIR];
  }

  /** The file `/k` is forbidden and not in the mapped folder `/h`; asked for as `../k` in
      that folder, it is served. */
  lemma ForbiddenFileIsServed(env: Env, i: nat, h: bytes, k: bytes)
    requires WellFormedRoot(env.root) && i < |env.root.children| && Proper(h) && Proper(k) && h != k
    requires env.root.children[i].visible && env.root.children[i].kind == HostFolder
    requires env.root.children[i].hostPath == [ROOT_DIR, h]
    requires !(SkipSlashes(env.root.name) <= Render([env.root.children[i].name, DOTDOT, k]))
    requires env.forbidden == {Render([ROOT_DIR, k])} && env.disk(Render([ROOT_DIR, h, DOTDOT, k])).HostBytes?
    ensures var s := Render([env.root.children[i].name, DOTDOT, k]);
      var host := VirtualToHost(env.root, s);
      && host == [ROOT_DIR, h, DOTDOT, k] && Resolve(host) == [ROOT_DIR, k]
      && !IsForbidden(env.forbidden, Render(host)) && IsForbidden(env.forbidden, Render(Resolve(host)))
      && ServeStatus(env, ReceiveFile(s, 4096, 0)) == Success(STATUS_OK)
  {
    hide WellFormedRoot, FindVirtual, VirtualToHost, Render, IsForbidden, Resolve, SkipSlashes;
    var name := env.root.children[i].name;
    assert [name] + [DOTDOT, k] == [name, DOTDOT, k];
    assert [ROOT_DIR, h] + [DOTDOT, k] == [ROOT_DIR, h, DOTDOT, k];
    assert Names([DOTDOT, k]);
    BelowChild(env.root, i, [DOTDOT, k]);
    ResolveSteps(h, k);
    OnlyTheFile(env.forbidden, h, k);
  }

  lemma OnlyTheFile(forbidden: set<bytes>, h: bytes, k: bytes)
    requires Proper(h) && Proper(k) && h != k && forbidden == {Render([ROOT_DIR, k])}
    ensures !IsForbidden(forbidden, Render([ROOT_DIR, h, DOTDOT, k])) && IsForbidden(forbidden, Render([ROOT_DIR, k]))
  {
    var host, file := [ROOT_DIR, h, DOTDOT, k], [ROOT_DIR, k];
    TwoNormal(h, k);
    assert host[1] != file[1];
    OnlyThis(forbidden, file, host);
  }

  lemma TwoNormal(h: bytes, k: bytes)
    requires Proper(h) && Proper(k)
    ensures NearlyNormal([ROOT_DIR, h, DOTDOT, k]) && Normal([ROOT_DIR, k])
  {
    var host, file := [ROOT_DIR, h, DOTDOT, k], [ROOT_DIR, k];
    assert host[1..] == [h, DOTDOT, k] && file[1..] == [k];
    assert Normal(host) && Normal(file);
  }

  /** One forbidden folder: it is forbidden, and what is not within it is not. */
  lemma OnlyThis(forbidden: set<bytes>, f: Path, p: Path)
    requires Normal(f) && NearlyNormal(p) && forbidden == {Render(f)}
    ensures IsForbidden(forbidden, Render(f))
    ensures IsForbidden(forbidden, Render(p)) <==> f <= p
  {
    hide Render, IsForbidden, Normal, NearlyNormal;
    NormalIsNearly(f);
    assert Denotes(Render(f), f);
    assert DenotesAll(forbidden, {f});
    ForbiddenIff(forbidden, {f}, f);
    ForbiddenIff(forbidden, {f}, p);
    assert Within(f, f) && (Within(p, f) <==> f <= p);
  }

  // ----- forbidden once the path is followed ---------------------------------------------

  /** Following "." and ".." leaves it as it is. */
  predicate Followed(p: Path) { Resolve(p) == p }

  /** The path leads into one of these folders. */
  ghost predicate Leads(p: Path, folders: set<Path>) { exists f :: f in folders && Within(Resolve(p), f) }

  /** Exactly these folders are forbidden, each spelled without detours. */
  ghost predicate Forbids(forbidden: set<bytes>, folders: set<Path>) {
    DenotesAll(forbidden, folders) && forall f :: f in folders ==> Followed(f)
  }

  /** Names and empty components, perhaps behind the root directory. */
  predicate Steps(p: Path) {
    forall i :: 0 <= i < |p| ==> p[i] == [] || Name(p[i]) || (i == 0 && p[i] == ROOT_DIR)
  }

  lemma StepsOf(p: Path)
    requires NearlyNormal(p)
    ensures Steps(p)
  {
    forall i | 0 < i < |p| && Normal(p) ensures Name(p[i]) { assert p[i] in p[1..]; }
    if !Normal(p) {
      var q := p[..|p| - 1];
      forall i | 0 < i < |q| ensures Name(p[i]) { assert q[i] in q[1..]; }
    }
  }

  /** What following a path gives is the root directory or a name, and names; and to
      follow any part of it again changes nothing. */
  lemma {:induction false} Follow(p: Path)
    requires Steps(p)
    ensures var q := Resolve(p);
      && (q != [] ==> Normal(q))
      && forall k :: 0 <= k <= |q| ==> Resolve(q[..k]) == q[..k]
  {
    if p != [] {
      var front, c := p[..|p| - 1], p[|p| - 1];
      Follow(front);
      var q := Resolve(front);
      assert q[..|q|] == q;
      if c == DOTDOT {
        FollowUp(q);
      } else if c != [] && c != DOT {
        assert c == ROOT_DIR ==> |p| == 1;
        assert |p| == 1 ==> q == [];
        FollowName(q, c);
      }
    }
  }

  lemma FollowUp(q: Path)
    requires q != [] ==> Normal(q)
    requires forall k :: 0 <= k <= |q| ==> Resolve(q[..k]) == q[..k]
    ensures Normal(Up(q)) || Up(q) == []
    ensures forall k :: 0 <= k <= |Up(q)| ==> Resolve(Up(q)[..k]) == Up(q)[..k]
  {
    assert q[..|q|] == q;
    if q != [ROOT_DIR] {
      if q == [] || q[|q| - 1] == DOTDOT {
        FollowedMore(q, DOTDOT);
        if q != [] { assert (q + [DOTDOT])[1..] == q[1..] + [DOTDOT]; }
      } else {
        var u := q[..|q| - 1];
        if u != [] { assert u[1..] == q[1..][..|q| - 2]; }
        forall k | 0 <= k <= |u| ensures u[..k] == q[..k] {}
      }
    }
  }

  lemma FollowName(q: Path, c: bytes)
    requires q != [] ==> Normal(q)
    requires Name(c) || (c == ROOT_DIR && q == [])
    requires c != DOT && c != DOTDOT
    requires forall k :: 0 <= k <= |q| ==> Resolve(q[..k]) == q[..k]
    ensures Normal(q + [c])
    ensures forall k :: 0 <= k <= |q + [c]| ==> Resolve((q + [c])[..k]) == (q + [c])[..k]
  {
    assert q[..|q|] == q;
    FollowedMore(q, c);
    if q != [] { assert (q + [c])[1..] == q[1..] + [c]; }
  }

  lemma FollowedMore(q: Path, c: bytes)
    requires forall k :: 0 <= k <= |q| ==> Resolve(q[..k]) == q[..k]
    requires c != [] && c != DOT && (c == DOTDOT ==> q != [ROOT_DIR] && (q == [] || q[|q| - 1] == DOTDOT))
    ensures forall k :: 0 <= k <= |q + [c]| ==> Resolve((q + [c])[..k]) == (q + [c])[..k]
  {
    var p := q + [c];
    assert q[..|q|] == q && p[..|p| - 1] == q && p[|p| - 1] == c;
    forall k | 0 <= k <= |p| ensures Resolve(p[..k]) == p[..k] {
      if k <= |q| { assert p[..k] == q[..k]; } else { assert p[..k] == p; }
    }
  }

  /** The folder a path leads to. */
  lemma FollowIs(p: Path)
    requires NearlyNormal(p)
    ensures Followed(Resolve(p)) && (Resolve(p) != [] ==> Normal(Resolve(p)))
  {
    hide Resolve, Normal, NearlyNormal;
    StepsOf(p);
    Follow(p);
    assert Resolve(p)[..|Resolve(p)|] == Resolve(p);
  }

  /** To lead into a forbidden folder is to be forbidden once followed. */
  lemma LeadsIsForbidden(forbidden: set<bytes>, folders: set<Path>, p: Path)
    requires DenotesAll(forbidden, folders) && NearlyNormal(p) && Resolve(p) != []
    ensures Leads(p, folders) <==> IsForbidden(forbidden, Render(Resolve(p)))
  {
    hide Resolve, Normal, NearlyNormal, IsForbidden, DenotesAll;
    FollowIs(p);
    NormalIsNearly(Resolve(p));
    ForbiddenIff(forbidden, folders, Resolve(p));
  }

  lemma NormalIsNearly(p: Path)
    requires Normal(p)
    ensures NearlyNormal(p)
  {
  }

  /** Testing `tested` in place of where `p` leads finds everything that is forbidden there,
      whatever that is, exactly when `p` leads to a part of `tested`. */
  lemma TestSufficesIff(p: Path, tested: Path)
    requires NearlyNormal(p) && NearlyNormal(tested)
    ensures (forall forbidden, folders ::
               Forbids(forbidden, folders) && Leads(p, folders) ==> IsForbidden(forbidden, Render(tested)))
      <==> Resolve(p) <= tested
  {
    hide Resolve, Normal, NearlyNormal, IsForbidden, DenotesAll, Leads, Render;
    if Resolve(p) <= tested {
      forall forbidden, folders | Forbids(forbidden, folders) && Leads(p, folders)
        ensures IsForbidden(forbidden, Render(tested))
      {
        Caught(forbidden, folders, p, tested);
      }
    } else {
      Missed(p, tested);
    }
  }

  lemma Caught(forbidden: set<bytes>, folders: set<Path>, p: Path, tested: Path)
    requires DenotesAll(forbidden, folders) && NearlyNormal(tested) && Resolve(p) <= tested && Leads(p, folders)
    ensures IsForbidden(forbidden, Render(tested))
  {
    hide Resolve, Normal, NearlyNormal, IsForbidden, DenotesAll, Render;
    var f :| f in folders && Within(Resolve(p), f);
    assert Within(tested, f);
    ForbiddenIff(forbidden, folders, tested);
  }

  /** Only the folder it leads to is forbidden. */
  lemma Missed(p: Path, tested: Path)
    requires NearlyNormal(p) && NearlyNormal(tested) && !(Resolve(p) <= tested)
    ensures var f := Resolve(p);
      && Forbids({Render(f)}, {f}) && Leads(p, {f}) && !IsForbidden({Render(f)}, Render(tested))
  {
    hide Resolve, Normal, NearlyNormal, IsForbidden, Render;
    var f := Resolve(p);
    FollowIs(p);
    assert Denotes(Render(f), f);
    assert DenotesAll({Render(f)}, {f});
    assert Within(f, f);
    ForbiddenIff({Render(f)}, {f}, tested);
  }

  lemma HostIsNearly(root: Node, s: bytes)
    requires WellFormedRoot(root) && FindVirtual(root, s).Some?
    requires NodeAt(root, FindVirtual(root, s).value.0).kind != Virtual
    ensures NearlyNormal(VirtualToHost(root, s))
  {
    hide WellFormed, Walk, VirtualComponents, NearlyNormal, Join;
    var (a, rest) := FindVirtual(root, s).value;
    HostNodeIsNormal(root, a);
    SomeHostPath(NodeAt(root, a));
    JoinGrows(NodeAt(root, a).hostPath, rest);
    ReachesOnlyVisible(root, s);
  }

  /** A host with this tree, these forbidden folders and an empty file everywhere. */
  function Somewhere(root: Node, forbidden: set<bytes>): Env {
    Env(root, forbidden, _ => HostBytes([]), _ => 0, _ => Openable, (_, _) => [])
  }

  /** Every virtual path of a host file or into a host folder: whatever is forbidden, no file
      is served that lies in a forbidden folder once "." and ".." are followed, exactly when
      the host path leads to a part of itself. */
  lemma ServedSafelyIff(root: Node, s: bytes, size: nat, start: nat)
    requires WellFormedRoot(root) && FindVirtual(root, s).Some?
    requires NodeAt(root, FindVirtual(root, s).value.0).kind != Virtual
    ensures var host := VirtualToHost(root, s);
      (forall env: Env, folders ::
         (env.root == root && Forbids(env.forbidden, folders) && Leads(host, folders))
         ==> ServeStatus(env, ReceiveFile(s, size, start)) == Success(FILE_NOT_FOUND))
      <==> Resolve(host) <= host
  {
    hide WellFormedRoot, FindVirtual, VirtualToHost, NodeAt, Resolve, DenotesAll, Leads, IsForbidden, NearlyNormal, Render;
    var host := VirtualToHost(root, s);
    HostIsNearly(root, s);
    if Resolve(host) <= host {
      forall env: Env, folders | env.root == root && Forbids(env.forbidden, folders) && Leads(host, folders)
        ensures ServeStatus(env, ReceiveFile(s, size, start)) == Success(FILE_NOT_FOUND)
      {
        Caught(env.forbidden, folders, host, host);
      }
    } else {
      Missed(host, host);
      var env := Somewhere(root, {Render(Resolve(host))});
      NotNothing(host);
      assert ServeStatus(env, ReceiveFile(s, size, start)) != Success(FILE_NOT_FOUND);
    }
  }

  lemma SomeHostPath(n: Node)
    requires WellFormed(n) && n.kind != Virtual
    ensures n.hostPath != []
  {
  }

  lemma NotNothing(p: Path)
    requires NearlyNormal(p)
    ensures p != []
  {
  }

  /** Every virtual path into a host folder: whatever is forbidden, no listing is accepted of
      what lies in a forbidden folder once "." and ".." are followed, exactly when the host
      path leads to a part of the path of the node. */
  lemma ListedSafelyIff(root: Node, s: bytes)
    requires WellFormedRoot(root) && FindVirtual(root, s).Some?
    requires NodeAt(root, FindVirtual(root, s).value.0).kind == HostFolder
    ensures var host := VirtualToHost(root, s);
      (forall env: Env, folders ::
         env.root == root && Forbids(env.forbidden, folders) && Leads(host, folders) ==> !MayList(env, s))
      <==> Resolve(host) <= NodeAt(root, FindVirtual(root, s).value.0).hostPath
  {
    hide WellFormedRoot, FindVirtual, VirtualToHost, NodeAt, Resolve, DenotesAll, Leads, IsForbidden, NearlyNormal, Render;
    var host, n := VirtualToHost(root, s), NodeAt(root, FindVirtual(root, s).value.0);
    HostIsNearly(root, s);
    NodeIsNearly(root, s);
    if Resolve(host) <= n.hostPath {
      forall env: Env, folders | env.root == root && Forbids(env.forbidden, folders) && Leads(host, folders)
        ensures !MayList(env, s)
      {
        Caught(env.forbidden, folders, host, n.hostPath);
      }
    } else {
      Missed(host, n.hostPath);
      var env := Somewhere(root, {Render(Resolve(host))});
      assert MayList(env, s);
    }
  }

  lemma NodeIsNearly(root: Node, s: bytes)
    requires WellFormedRoot(root) && FindVirtual(root, s).Some?
    requires NodeAt(root, FindVirtual(root, s).value.0).kind == HostFolder
    ensures NearlyNormal(NodeAt(root, FindVirtual(root, s).value.0).hostPath)
  {
    hide WellFormed, Walk, VirtualComponents;
    HostNodeIsNormal(root, FindVirtual(root, s).value.0);
  }

  // ----- such a tree -----------------------------------------------------------------

  /** "//fsp", with the folder "s" mapped to "/h". */
  const TREE := Node([47, 47, 102, 115, 112], Virtual, true, [],
                     [Node([115], HostFolder, true, [ROOT_DIR, [104]], [])])

  lemma TreeIsWellFormed(rest: Path)
    ensures WellFormedRoot(TREE)
    ensures !(SkipSlashes(TREE.name) <= Render([[115]] + rest))
  {
    var share := TREE.children[0];
    assert share.hostPath[1..] == [[104]];
    assert WellFormed(share);
    var name: bytes := [47, 47, 102, 115, 112];
    assert name[1..] == [47, 102, 115, 112] && name[1..][1..] == [102, 115, 112];
    assert SkipSlashes(name) == [102, 115, 112];
    assert Render([[115]] + rest)[0] == 115;
  }

  /** Listing "s/k" while "/h/k", a folder, is forbidden. */
  lemma ListedAllTheSame(env: Env)
    requires env.root == TREE && env.forbidden == {Render([ROOT_DIR, [104], [107]])}
    requires env.disk(Render([ROOT_DIR, [104], [107]])).Directory?
    ensures MayList(env, Render([[115], [107]])) && !NoDirectory(env, Render([[115], [107]]))
    ensures IsForbidden(env.forbidden, Render(Opened(env, Render([[115], [107]]))))
  {
    TreeIsWellFormed([[107]]);
    hide WellFormedRoot, Render, MayList, IsForbidden, VirtualToHost, Entries, SkipSlashes, FindVirtual;
    assert [[115]] + [[107]] == [[115], [107]];
    assert [ROOT_DIR, [104]] + [[107]] == [ROOT_DIR, [104], [107]];
    ForbiddenFolderIsListed(env, 0, [107]);
  }

  /** Asking for "s/../k" while "/k" is forbidden. */
  lemma ServedAllTheSame(env: Env)
    requires env.root == TREE && env.forbidden == {Render([ROOT_DIR, [107]])}
    requires env.disk(Render([ROOT_DIR, [104], DOTDOT, [107]])).HostBytes?
    ensures ServeStatus(env, ReceiveFile(Render([[115], DOTDOT, [107]]), 4096, 0)) == Success(STATUS_OK)
    ensures IsForbidden(env.forbidden, Render(Resolve(VirtualToHost(TREE, Render([[115], DOTDOT, [107]])))))
  {
    TreeIsWellFormed([DOTDOT, [107]]);
    hide WellFormedRoot, Render, IsForbidden, ServeStatus, VirtualToHost, Resolve, SkipSlashes, FindVirtual;
    assert [[115]] + [DOTDOT, [107]] == [[115], DOTDOT, [107]];
    ForbiddenFileIsServed(env, 0, [104], [107]);
  }

  const DETOUR: Path := [[115], [97], DOTDOT, [107]]
  const DETOUR_HOST: Path := [ROOT_DIR, [104], [97], DOTDOT, [107]]

  lemma DetourLeads()
    ensures VirtualToHost(TREE, Render(DETOUR)) == DETOUR_HOST
    ensures FindVirtual(TREE, Render(DETOUR)) == Some(([0], [[97], DOTDOT, [107]]))
    ensures Resolve(DETOUR_HOST) == [ROOT_DIR, [104], [107]]
  {
    var rest: Path := [[97], DOTDOT, [107]];
    TreeIsWellFormed(rest);
    hide WellFormedRoot, Render, VirtualToHost, SkipSlashes, FindVirtual, Resolve;
    assert [[115]] + rest == DETOUR && [ROOT_DIR, [104]] + rest == DETOUR_HOST;
    assert Names(rest);
    BelowChild(TREE, 0, rest);
    DetourFollowed();
  }

  lemma DetourFollowed()
    ensures Resolve(DETOUR_HOST) == [ROOT_DIR, [104], [107]]
    ensures NearlyNormal(DETOUR_HOST) && Normal([ROOT_DIR, [104], [107]])
  {
    var p := DETOUR_HOST;
    assert ROOT_DIR[0] == SLASH;
    assert p[1..] == [[104], [97], DOTDOT, [107]] && [ROOT_DIR, [104], [107]][1..] == [[104], [107]];
    assert p[..4][..3] == p[..3] && p[..3][..2] == p[..2] && p[..2][..1] == [ROOT_DIR] && [ROOT_DIR][..0] == [];
    assert Resolve([ROOT_DIR]) == [ROOT_DIR] by { assert [] + [ROOT_DIR] == [ROOT_DIR]; }
    assert Resolve(p[..2]) == [ROOT_DIR, [104]];
    assert Resolve(p[..3]) == [ROOT_DIR, [104], [97]];
    assert Resolve(p[..4]) == [ROOT_DIR, [104]];
  }

  /** The detour never leaves the folder. */
  lemma DetourStaysInside()
    ensures NeverClimbs([[97], DOTDOT, [107]])
  {
    var r: Path := [[97], DOTDOT, [107]];
    assert r[..0] == [] && r[..1] == [[97]] && r[..2] == [[97], DOTDOT] && r[..3] == r;
    assert [[97]][..0] == [] && [[97], DOTDOT][..1] == [[97]];
    assert Depth(r[..1]) == 1 && Depth(r[..2]) == 0;
    assert r[..|r| - 1] == r[..2];
    assert Depth(r) == 1;
  }

  /** Asking for "s/a/../k" while "/h/k" is forbidden: the path stays in the folder, the file
      is served, and a listing accepted. */
  lemma DetourAllTheSame(env: Env)
    requires env.root == TREE && env.forbidden == {Render([ROOT_DIR, [104], [107]])}
    ensures var s := Render(DETOUR);
      var host := VirtualToHost(TREE, s);
      && IsForbidden(env.forbidden, Render(Resolve(host)))
      && (env.disk(Render(host)).HostBytes? ==> ServeStatus(env, ReceiveFile(s, 4096, 0)) == Success(STATUS_OK))
      && MayList(env, s)
      && FindVirtual(TREE, s).Some? && NeverClimbs(FindVirtual(TREE, s).value.1)
  {
    hide WellFormedRoot, Render, IsForbidden, VirtualToHost, Resolve, SkipSlashes, FindVirtual, NeverClimbs;
    DetourStaysInside();
    DetourLeads();
    DetourFollowed();
    var f: Path := [ROOT_DIR, [104], [107]];
    assert DETOUR_HOST[2] != f[2];
    OnlyThis(env.forbidden, f, DETOUR_HOST);
    FolderIsNormal();
    OnlyThis(env.forbidden, f, [ROOT_DIR, [104]]);
    assert NodeAt(TREE, [0]) == TREE.children[0] by { assert [0][1..] == []; }
  }

  lemma FolderIsNormal()
    ensures NearlyNormal([ROOT_DIR, [104]])
  {
    assert [ROOT_DIR, [104]][1..] == [[104]];
    assert Normal([ROOT_DIR, [104]]);
  }

  /** Listing "s/k" while nothing is forbidden and "/h/k" is no folder: accepted, and it
      cannot be opened. */
  lemma NoSuchFolder(env: Env)
    requires env.root == TREE && env.forbidden == {}
    requires !env.disk(Render([ROOT_DIR, [104], [107]])).Directory?
    ensures MayList(env, Render([[115], [107]])) && NoDirectory(env, Render([[115], [107]]))
  {
    TreeIsWellFormed([[107]]);
    hide WellFormedRoot, Render, VirtualToHost, SkipSlashes, FindVirtual;
    assert [[115]] + [[107]] == [[115], [107]];
    assert [ROOT_DIR, [104]] + [[107]] == [ROOT_DIR, [104], [107]];
    BelowChild(env.root, 0, [[107]]);
    var child := TREE.children[0];
    assert NodeAt(TREE, [0]) == child by { assert [0][1..] == []; }
    NodeIsHost(env, Render([[115], [107]]), child);
  }
}
