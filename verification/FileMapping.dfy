/** The virtual file tree: searching it for a host path, walking it along a
    virtual path, and the paths nobody may read. */
module FileMapping {
  import opened Bytes
  import opened Paths

  datatype Kind = HostFile | HostFolder | Virtual

  /** A node of the tree; the children are listed in the order the hash map
      iterates them, which may be any. */
  datatype Node = Node(name: bytes, kind: Kind, visible: bool, hostPath: Path, children: seq<Node>)

  /** Where a node is: the child index to take at each step from the root. */
  type Address = seq<nat>

  predicate ValidAddress(n: Node, a: Address) {
    a != [] ==> a[0] < |n.children| && ValidAddress(n.children[a[0]], a[1..])
  }

  function NodeAt(n: Node, a: Address): Node
    requires ValidAddress(n, a)
  {
    if a == [] then n else NodeAt(n.children[a[0]], a[1..])
  }

  /** The node serves this host path: it is the node's own, or inside its folder. */
  predicate Matches(n: Node, path: Path) {
    || (n.kind == HostFile && n.hostPath == path)
    || (n.kind == HostFolder && n.hostPath <= path)
  }

  // ----- the definition: first match in preorder ------------------------------

  function Search(n: Node, path: Path): Option<Address>
    decreases n, |n.children| + 2
  {
    if !n.visible then None
    else if n.kind == Virtual then SearchFrom(n, path, 0)
    else if Matches(n, path) then Some([])
    else None
  }

  function SearchFrom(n: Node, path: Path, i: nat): Option<Address>
    requires i <= |n.children|
    decreases n, 1 + |n.children| - i
  {
    if i == |n.children| then None
    else
      match Search(n.children[i], path)
      case Some(a) => Some([i] + a)
      case None => SearchFrom(n, path, i + 1)
  }

  /** A chain of visible nodes, virtual down to a host node that serves the path. */
  predicate Hit(n: Node, path: Path, a: Address) {
    n.visible &&
    if a == [] then n.kind != Virtual && Matches(n, path)
    else n.kind == Virtual && a[0] < |n.children| && Hit(n.children[a[0]], path, a[1..])
  }

  /** Preorder. */
  predicate Before(a: Address, b: Address) {
    a != [] && b != [] && (a[0] < b[0] || (a[0] == b[0] && Before(a[1..], b[1..])))
  }

  /** The search returns the first all-visible chain in preorder, and nothing
      exactly when there is none. */
  lemma {:induction false} SearchIsFirst(n: Node, path: Path)
    ensures match Search(n, path)
      case Some(a) => Hit(n, path, a) && forall b :: Hit(n, path, b) ==> a == b || Before(a, b)
      case None => forall b :: !Hit(n, path, b)
    decreases n, |n.children| + 2
  {
    if n.visible && n.kind == Virtual { SearchFromIsFirst(n, path, 0); }
  }

  lemma {:induction false} SearchFromIsFirst(n: Node, path: Path, i: nat)
    requires n.visible && n.kind == Virtual && i <= |n.children|
    ensures match SearchFrom(n, path, i)
      case Some(a) => Hit(n, path, a) && a != [] && a[0] >= i
        && forall b :: Hit(n, path, b) && b != [] && b[0] >= i ==> a == b || Before(a, b)
      case None => forall b :: b != [] && b[0] >= i ==> !Hit(n, path, b)
    decreases n, 1 + |n.children| - i
  {
    if i < |n.children| {
      SearchIsFirst(n.children[i], path);
      SearchFromIsFirst(n, path, i + 1);
      match Search(n.children[i], path)
      case Some(c) =>
        var a := [i] + c;
        assert a[1..] == c;
        forall b | Hit(n, path, b) && b != [] && b[0] >= i ensures a == b || Before(a, b) {
          assert b == [b[0]] + b[1..];
          if b[0] == i { assert Hit(n.children[i], path, b[1..]); }
        }
      case None =>
    }
  }

  // ----- the loop ------------------------------------------------------------

  lemma {:induction false} AddressAppend(n: Node, a: Address, i: nat)
    requires ValidAddress(n, a)
    ensures ValidAddress(n, a + [i]) <==> i < |NodeAt(n, a).children|
    ensures ValidAddress(n, a + [i]) ==> NodeAt(n, a + [i]) == NodeAt(n, a).children[i]
  {
    if a != [] {
      assert (a + [i])[0] == a[0] && (a + [i])[1..] == a[1..] + [i];
      AddressAppend(n.children[a[0]], a[1..], i);
    } else {
      assert a + [i] == [i] && [i][1..] == [];
    }
  }

  lemma {:induction false} AddressPrefix(n: Node, a: Address)
    requires ValidAddress(n, a) && a != []
    ensures ValidAddress(n, a[..|a| - 1])
    ensures a[|a| - 1] < |NodeAt(n, a[..|a| - 1]).children|
    ensures NodeAt(n, a) == NodeAt(n, a[..|a| - 1]).children[a[|a| - 1]]
  {
    var m := |a| - 1;
    if m > 0 {
      AddressPrefix(n.children[a[0]], a[1..]);
      assert a[..m][1..] == a[1..][..m - 1];
    } else {
      assert a[1..] == [];
    }
  }

  /** All addresses of a tree. */
  function Addresses(n: Node): set<Address>
    decreases n, |n.children| + 2
  {
    {[]} + AddressesFrom(n, 0)
  }

  function AddressesFrom(n: Node, i: nat): set<Address>
    requires i <= |n.children|
    decreases n, 1 + |n.children| - i
  {
    if i == |n.children| then {}
    else (set a | a in Addresses(n.children[i]) :: [i] + a) + AddressesFrom(n, i + 1)
  }

  lemma {:induction false} AddressesAreAll(n: Node, a: Address)
    requires ValidAddress(n, a)
    ensures a in Addresses(n)
    decreases n, |n.children| + 2
  {
    if a != [] { AddressesFromAll(n, a, 0); }
  }

  lemma {:induction false} AddressesFromAll(n: Node, a: Address, i: nat)
    requires ValidAddress(n, a) && a != [] && i <= a[0]
    ensures a in AddressesFrom(n, i)
    decreases n, 1 + |n.children| - i
  {
    if a[0] == i {
      AddressesAreAll(n.children[i], a[1..]);
      assert a == [i] + a[1..];
    } else {
      AddressesFromAll(n, a, i + 1);
    }
  }

  /** What is still to be found once the search is at `a` with the children
      before `k` done: among the others, then further up. */
  ghost function Resume(root: Node, path: Path, a: Address, k: nat): Option<Address>
    requires ValidAddress(root, a) && k <= |NodeAt(root, a).children|
    decreases |a|, 1
  {
    match SearchFrom(NodeAt(root, a), path, k)
    case Some(b) => Some(a + b)
    case None => Up(root, path, a)
  }

  ghost function Up(root: Node, path: Path, a: Address): Option<Address>
    requires ValidAddress(root, a)
    decreases |a|, 0
  {
    if a == [] then None
    else
      AddressPrefix(root, a);
      Resume(root, path, a[..|a| - 1], a[|a| - 1] + 1)
  }

  /** What is to be found from a node just reached, or returned to at child `k`. */
  ghost function Outcome(root: Node, path: Path, a: Address, k: nat): Option<Address>
    requires ValidAddress(root, a) && k <= |NodeAt(root, a).children|
  {
    if NodeAt(root, a).kind == Virtual then Resume(root, path, a, k)
    else if Matches(NodeAt(root, a), path) then Some(a)
    else Up(root, path, a)
  }

  lemma PassChild(root: Node, path: Path, a: Address, k: nat)
    requires ValidAddress(root, a) && k < |NodeAt(root, a).children|
    requires Search(NodeAt(root, a).children[k], path).None?
    ensures Resume(root, path, a, k) == Resume(root, path, a, k + 1)
  {
  }

  lemma UpFromChild(root: Node, path: Path, a: Address, k: nat)
    requires ValidAddress(root, a) && k < |NodeAt(root, a).children|
    ensures ValidAddress(root, a + [k]) && Up(root, path, a + [k]) == Resume(root, path, a, k + 1)
  {
    AddressAppend(root, a, k);
    assert (a + [k])[..|a|] == a;
  }

  /** Entering a visible child is taking up the search there. */
  lemma EnterChild(root: Node, path: Path, a: Address, k: nat)
    requires ValidAddress(root, a) && k < |NodeAt(root, a).children|
    requires NodeAt(root, a).children[k].visible
    ensures ValidAddress(root, a + [k])
    ensures Resume(root, path, a, k) == Outcome(root, path, a + [k], 0)
  {
    AddressAppend(root, a, k);
    UpFromChild(root, path, a, k);
    var child, b := NodeAt(root, a).children[k], a + [k];
    match Search(child, path) {
      case Some(c) => assert a + ([k] + c) == b + c; assert child.kind != Virtual ==> b + c == b;
      case None => PassChild(root, path, a, k);
    }
  }

  /** Hidden children are passed over. */
  lemma {:induction false} SkipHidden(root: Node, path: Path, a: Address, k: nat, j: nat)
    requires ValidAddress(root, a) && k <= j <= |NodeAt(root, a).children|
    requires forall i :: k <= i < j ==> !NodeAt(root, a).children[i].visible
    ensures Resume(root, path, a, k) == Resume(root, path, a, j)
    ensures j == |NodeAt(root, a).children| ==> Resume(root, path, a, k) == Up(root, path, a)
    decreases j - k
  {
    if k < j {
      PassChild(root, path, a, k);
      SkipHidden(root, path, a, k + 1, j);
    }
  }

  /** The visited children of `a` are the visible ones before `k`. */
  ghost predicate VisitedUpTo(root: Node, visited: set<Address>, a: Address, k: nat) {
    && ValidAddress(root, a) && k <= |NodeAt(root, a).children|
    && forall j :: 0 <= j < |NodeAt(root, a).children| ==>
         (a + [j] in visited <==> j < k && NodeAt(root, a).children[j].visible)
  }

  /** The chain from the root to `a`, all visible, with what was visited on it. */
  ghost predicate OnChain(root: Node, visited: set<Address>, a: Address, k: nat)
    decreases |a|
  {
    && VisitedUpTo(root, visited, a, k)
    && NodeAt(root, a).visible
    && (a != [] ==>
         OnChain(root, visited, a[..|a| - 1], a[|a| - 1] + 1) && NodeAt(root, a[..|a| - 1]).kind == Virtual)
  }

  ghost predicate StackOf(stack: seq<Address>, a: Address) {
    |stack| == |a| + 1 && forall i :: 0 <= i < |stack| ==> stack[i] == a[..i]
  }

  ghost predicate VisitedClosed(root: Node, visited: set<Address>) {
    && [] in visited
    && (forall v :: v in visited ==> ValidAddress(root, v))
    && forall v: Address :: v in visited && v != [] ==> v[..|v| - 1] in visited
  }

  /** Visiting the next child keeps everything above as it was. */
  lemma {:induction false} StillOnChain(root: Node, visited: set<Address>, a: Address, k: nat, v: Address)
    requires OnChain(root, visited, a, k) && |v| > |a| + 1
    ensures OnChain(root, visited + {v}, a, k)
    decreases |a|
  {
    if a != [] { StillOnChain(root, visited, a[..|a| - 1], a[|a| - 1] + 1, v); }
  }

  lemma PushChild(root: Node, visited: set<Address>, a: Address, k: nat, j: nat)
    requires OnChain(root, visited, a, k) && VisitedClosed(root, visited) && a in visited
    requires NodeAt(root, a).kind == Virtual
    requires k <= j < |NodeAt(root, a).children| && NodeAt(root, a).children[j].visible
    requires forall i :: k <= i < j ==> !NodeAt(root, a).children[i].visible
    ensures ValidAddress(root, a + [j]) && a + [j] !in visited
    ensures OnChain(root, visited + {a + [j]}, a + [j], 0)
    ensures VisitedClosed(root, visited + {a + [j]})
  {
    AddressAppend(root, a, j);
    var b := a + [j];
    var more := visited + {b};
    assert b[..|b| - 1] == a;
    forall i | 0 <= i < |NodeAt(root, b).children| ensures b + [i] !in more {
      assert (b + [i])[..|b + [i]| - 1] == b;
      assert |b + [i]| != |b|;
    }
    forall i | 0 <= i < |NodeAt(root, a).children|
      ensures a + [i] in more <==> i < j + 1 && NodeAt(root, a).children[i].visible
    {
      assert a + [i] == b <==> i == j by { assert (a + [i])[|a|] == i; }
    }
    assert VisitedUpTo(root, more, a, j + 1);
    if a != [] {
      StillOnChain(root, visited, a[..|a| - 1], a[|a| - 1] + 1, b);
    }
    assert OnChain(root, more, a, j + 1);
  }

  /** The names below a node on the way to an address. */
  function NamesBelow(n: Node, a: Address): seq<bytes>
    requires ValidAddress(n, a)
  {
    if a == [] then [] else [n.children[a[0]].name] + NamesBelow(n.children[a[0]], a[1..])
  }

  /** The virtual path of a node, followed by what is left of the host path. */
  function VirtualPath(root: Node, a: Address, rest: Path): bytes
    requires ValidAddress(root, a)
  {
    root.name + Tail(NamesBelow(root, a) + rest)
  }

  /** What `host_to_virtual` returns, as a function of the search result. */
  function HostToVirtual(root: Node, path: Path): bytes {
    match Search(root, path)
    case None => []
    case Some(a) =>
      SearchIsFirst(root, path);
      HitIsValid(root, path, a);
      var n := NodeAt(root, a);
      VirtualPath(root, a, path[|n.hostPath|..])
  }

  lemma {:induction false} HitIsValid(n: Node, path: Path, a: Address)
    requires Hit(n, path, a)
    ensures ValidAddress(n, a) && Matches(NodeAt(n, a), path)
  {
    if a != [] { HitIsValid(n.children[a[0]], path, a[1..]); }
  }

  /** The state of the search: standing at `a`, its children before `k` done. */
  ghost predicate Searching(
    root: Node, path: Path, stack: seq<Address>, visited: set<Address>, a: Address, k: nat)
  {
    && StackOf(stack, a) && a in visited
    && OnChain(root, visited, a, k) && VisitedClosed(root, visited)
    && Search(root, path) == Outcome(root, path, a, k)
  }

  lemma StackIsChain(
    root: Node, path: Path, stack: seq<Address>, visited: set<Address>, a: Address, k: nat)
    requires Searching(root, path, stack, visited, a, k)
    ensures ValidAddress(root, a) && VisitedUpTo(root, visited, a, k) && NodeAt(root, a).visible
    ensures stack != []
    ensures NodeAt(root, a).kind != Virtual ==>
      Search(root, path) == if Matches(NodeAt(root, a), path) then Some(a) else Up(root, path, a)
  {
  }

  lemma PushStep(
    root: Node, path: Path, stack: seq<Address>, visited: set<Address>, a: Address, k: nat, j: nat)
    requires Searching(root, path, stack, visited, a, k)
    requires ValidAddress(root, a) && NodeAt(root, a).kind == Virtual && k <= j < |NodeAt(root, a).children|
    requires NodeAt(root, a).children[j].visible
    requires forall i :: k <= i < j ==> !NodeAt(root, a).children[i].visible
    ensures var b := a + [j];
      && Searching(root, path, stack + [b], visited + {b}, b, 0)
      && Addresses(root) - (visited + {b}) < Addresses(root) - visited
  {
    hide OnChain, VisitedClosed, StackOf, Search, Resume, Up, Addresses;
    SkipHidden(root, path, a, k, j);
    EnterChild(root, path, a, j);
    PushChild(root, visited, a, k, j);
    AddressesAreAll(root, a + [j]);
    assert a + [j] in Addresses(root) && a + [j] !in visited;
    Pushed(stack, a, j);
  }

  lemma PopStep(
    root: Node, path: Path, stack: seq<Address>, visited: set<Address>, a: Address, k: nat)
    requires Searching(root, path, stack, visited, a, k)
    requires ValidAddress(root, a) && Search(root, path) == Up(root, path, a)
    ensures a == [] ==> stack[..|stack| - 1] == [] && Search(root, path).None?
    ensures a != [] ==>
      var popped := stack[..|stack| - 1];
      && Searching(root, path, popped, visited, a[..|a| - 1], a[|a| - 1] + 1)
      && popped != [] && popped[|popped| - 1] == a[..|a| - 1]
  {
    Popped(stack, a);
    if a != [] {
      hide VisitedClosed, StackOf, Search, Resume, Addresses;
      ChainFacts(root, visited, a, k);
      BackOnChain(root, path, visited, a);
    }
  }

  /** Whether a host node maps the path, or a folder around it. */
  method MapsHere(node: Node, path: Path) returns (r: bool)
    requires node.kind != Virtual
    ensures r == Matches(node, path)
  {
    if node.hostPath == path {
      return true;
    }
    if node.kind == HostFolder {
      var i := FindFolderInPath(path, node.hostPath);
      return i != |path|;
    }
    return false;
  }

  /** The search of `host_to_virtual`: an explicit stack and a visited set find
      what the recursive definition does. */
  method FindHostPath(root: Node, path: Path) returns (found: Option<Address>)
    ensures found == Search(root, path)
  {
    var stack: seq<Address> := [[]];
    var visited: set<Address> := {[]};
    var current: Address := [];
    ghost var k := 0;
    if !root.visible {
      return None; // the root is popped at once
    }
    StartOfSearch(root, path);
    while stack != []
      invariant stack != [] ==> Searching(root, path, stack, visited, current, k)
      invariant stack == [] ==> Search(root, path) == None
      decreases Addresses(root) - visited, |stack|
    {
      hide Searching, Search, Up, Resume, Addresses, VisitedUpTo, NodeAt, ValidAddress, VisitedClosed, StackOf, Matches;
      StackIsChain(root, path, stack, visited, current, k);
      var node := NodeAt(root, current);
      if node.kind == Virtual {
        var j := FirstUnvisited(node, current, visited);
        FirstIsAfter(root, visited, current, k, j);
        if j < |node.children| {
          PushStep(root, path, stack, visited, current, k, j);
          var next := current + [j];
          current, visited, stack, k := next, visited + {next}, stack + [next], 0;
          continue; // depth first
        }
        NothingHere(root, path, stack, visited, current, k);
      } else {
        var here := MapsHere(node, path);
        if here {
          return Some(current);
        }
      }
      PopStep(root, path, stack, visited, current, k);
      stack := stack[..|stack| - 1];
      if stack != [] {
        k := current[|current| - 1] + 1;
        current := stack[|stack| - 1];
      }
    }
    return None;
  }

  lemma NothingHere(
    root: Node, path: Path, stack: seq<Address>, visited: set<Address>, a: Address, k: nat)
    requires Searching(root, path, stack, visited, a, k)
    requires ValidAddress(root, a) && NodeAt(root, a).kind == Virtual
    requires forall i :: k <= i < |NodeAt(root, a).children| ==> !NodeAt(root, a).children[i].visible
    ensures Search(root, path) == Up(root, path, a)
  {
    SkipHidden(root, path, a, k, |NodeAt(root, a).children|);
  }

  lemma ChainFacts(root: Node, visited: set<Address>, a: Address, k: nat)
    requires OnChain(root, visited, a, k)
    ensures VisitedUpTo(root, visited, a, k) && ValidAddress(root, a) && k <= |NodeAt(root, a).children|
    ensures a != [] ==>
      && OnChain(root, visited, a[..|a| - 1], a[|a| - 1] + 1)
      && ValidAddress(root, a[..|a| - 1]) && NodeAt(root, a[..|a| - 1]).kind == Virtual
  {
  }

  lemma StartOfSearch(root: Node, path: Path)
    requires root.visible
    ensures Searching(root, path, [[]], {[]}, [], 0)
  {
    var none: Address := [];
    assert none[..0] == none;
    assert forall j: nat :: |none + [j]| == 1;
    match SearchFrom(root, path, 0) { case Some(b) => assert none + b == b; case None => }
  }

  lemma Pushed(stack: seq<Address>, a: Address, j: nat)
    requires StackOf(stack, a)
    ensures StackOf(stack + [a + [j]], a + [j])
  {
    var b := a + [j];
    forall i | 0 <= i < |stack| + 1 ensures (stack + [b])[i] == b[..i] {
      if i <= |a| { assert b[..i] == a[..i]; } else { assert b[..i] == b; }
    }
  }

  lemma Popped(stack: seq<Address>, a: Address)
    requires StackOf(stack, a)
    ensures a == [] ==> stack[..|stack| - 1] == []
    ensures a != [] ==> StackOf(stack[..|stack| - 1], a[..|a| - 1])
  {
    if a != [] {
      forall i | 0 <= i < |a| ensures stack[i] == a[..|a| - 1][..i] { assert a[..|a| - 1][..i] == a[..i]; }
    }
  }

  lemma BackOnChain(root: Node, path: Path, visited: set<Address>, a: Address)
    requires ValidAddress(root, a) && a != [] && VisitedClosed(root, visited) && a in visited
    requires OnChain(root, visited, a[..|a| - 1], a[|a| - 1] + 1)
    requires ValidAddress(root, a[..|a| - 1]) && NodeAt(root, a[..|a| - 1]).kind == Virtual
    ensures ValidAddress(root, a[..|a| - 1]) && a[..|a| - 1] in visited
    ensures a[|a| - 1] + 1 <= |NodeAt(root, a[..|a| - 1]).children|
    ensures Up(root, path, a) == Outcome(root, path, a[..|a| - 1], a[|a| - 1] + 1)
  {
    AddressPrefix(root, a);
  }

  /** The inner loop: the first child that is visible and not visited. */
  method FirstUnvisited(node: Node, a: Address, visited: set<Address>) returns (j: nat)
    ensures j <= |node.children|
    ensures forall i :: 0 <= i < j ==> !node.children[i].visible || a + [i] in visited
    ensures j < |node.children| ==> node.children[j].visible && a + [j] !in visited
  {
    j := 0;
    while j < |node.children|
      invariant j <= |node.children|
      invariant forall i :: 0 <= i < j ==> !node.children[i].visible || a + [i] in visited
    {
      if node.children[j].visible && a + [j] !in visited {
        return;
      }
      j := j + 1;
    }
  }

  lemma FirstIsAfter(root: Node, visited: set<Address>, a: Address, k: nat, j: nat)
    requires VisitedUpTo(root, visited, a, k) && j <= |NodeAt(root, a).children|
    requires var node := NodeAt(root, a);
      && (forall i :: 0 <= i < j ==> !node.children[i].visible || a + [i] in visited)
      && (j < |node.children| ==> node.children[j].visible && a + [j] !in visited)
    ensures k <= j && forall i :: k <= i < j ==> !NodeAt(root, a).children[i].visible
  {
  }

  /** `stack_to_path` on the chain to an address. */
  method StackToPath(root: Node, a: Address) returns (s: bytes)
    requires ValidAddress(root, a)
    ensures s == root.name + Tail(NamesBelow(root, a))
  {
    s := root.name;
    var node, i := root, 0;
    assert a[0..] == a;
    while i < |a|
      invariant 0 <= i <= |a| && ValidAddress(node, a[i..])
      invariant s + Tail(NamesBelow(node, a[i..])) == root.name + Tail(NamesBelow(root, a))
    {
      var next := node.children[a[i]];
      assert a[i..][1..] == a[i + 1..];
      JoinOne(s, next.name, NamesBelow(next, a[i + 1..]));
      s := s + [SLASH] + next.name;
      node := next;
      i := i + 1;
    }
    assert s + [] == s;
  }

  lemma JoinOne(s: bytes, n: bytes, names: seq<bytes>)
    ensures s + Tail([n] + names) == s + [SLASH] + n + Tail(names)
  {
    assert ([n] + names)[1..] == names;
    assert s + ([SLASH] + n + Tail(names)) == s + [SLASH] + n + Tail(names);
  }

  /** The whole of `host_to_virtual`. */
  method HostToVirtualPath(root: Node, path: Path) returns (s: bytes)
    ensures s == HostToVirtual(root, path)
  {
    var found := FindHostPath(root, path);
    if found.None? {
      return [];
    }
    SearchIsFirst(root, path);
    HitIsValid(root, path, found.value);
    var folder := NodeAt(root, found.value).hostPath;
    s := StackToPath(root, found.value);
    var names := NamesBelow(root, found.value);
    TailAppend(names, path[|folder|..]);
    var i := |folder|;
    while i < |path|
      invariant |folder| <= i <= |path|
      invariant s + Tail(path[i..]) == root.name + Tail(names + path[|folder|..])
    {
      assert path[i..] == [path[i]] + path[i + 1..];
      JoinOne(s, path[i], path[i + 1..]);
      s := s + [SLASH] + path[i];
      i := i + 1;
    }
    assert s + [] == s;
  }

  lemma {:induction false} TailAppend(a: seq<bytes>, b: seq<bytes>)
    ensures Tail(a + b) == Tail(a) + Tail(b)
  {
    if a == [] {
      assert a + b == b;
    } else {
      TailAppend(a[1..], b);
      assert (a + b)[1..] == a[1..] + b;
      Regroup([SLASH] + a[0], Tail(a[1..]), Tail(b));
    }
  }

  lemma Regroup(a: bytes, b: bytes, c: bytes)
    ensures a + (b + c) == a + b + c
  {
  }

  // ----- walking a virtual path ----------------------------------------------

  function FindChild(children: seq<Node>, name: bytes): (r: Option<nat>)
    ensures r.Some? ==> r.value < |children| && children[r.value].name == name
  {
    if children == [] then None
    else if children[0].name == name then Some(0)
    else match FindChild(children[1..], name) case Some(i) => Some(i + 1) case None => None
  }

  /** The node a list of components leads to, and the components it leaves: all
      that follow the first host folder on the way. */
  function Walk(n: Node, components: Path): (r: Option<(Address, Path)>)
    ensures r.Some? ==> ValidAddress(n, r.value.0)
    decreases |components|
  {
    if components == [] then Some(([], []))
    else if components[0] == ROOT_DIR then Walk(n, components[1..])
    else
      match FindChild(n.children, components[0])
      case None => None
      case Some(i) =>
        var child := n.children[i];
        if !child.visible then None
        else if child.kind == HostFolder then Some(([i], components[1..]))
        else
          match Walk(child, components[1..])
          case None => None
          case Some((a, rest)) => Some(([i] + a, rest))
  }

  /** The components walked: the root's name is optional in front. */
  function VirtualComponents(root: Node, s: bytes): Path {
    var str, rootName := Trim(s), Trim(root.name);
    if rootName <= str then Components(str[|rootName|..]) else Components(s)
  }

  function FindVirtual(root: Node, s: bytes): (r: Option<(Address, Path)>)
    ensures r.Some? ==> ValidAddress(root, r.value.0)
  {
    Walk(root, VirtualComponents(root, s))
  }

  /** `path /= component`: nothing is added to the root directory by an empty one. */
  function Append(p: Path, c: bytes): Path { if c == [] && p == [ROOT_DIR] then p else p + [c] }

  function Join(p: Path, rest: Path): Path {
    if rest == [] then p else Append(Join(p, rest[..|rest| - 1]), rest[|rest| - 1])
  }

  lemma {:induction false} JoinNames(p: Path, rest: Path)
    requires p != [] && (rest == [] || rest[0] != [] || p != [ROOT_DIR])
    ensures Join(p, rest) == p + rest
  {
    if rest != [] {
      var m := |rest| - 1;
      if m > 0 { assert rest[..m][0] == rest[0]; }
      JoinNames(p, rest[..m]);
      assert p + rest == p + rest[..m] + [rest[m]];
    } else {
      assert p + rest == p;
    }
  }

  function VirtualToHost(root: Node, s: bytes): Path {
    match FindVirtual(root, s)
    case None => []
    case Some((a, rest)) =>
      var n := NodeAt(root, a);
      if n.kind == HostFolder then Join(n.hostPath, rest) else n.hostPath
  }

  /** The loop of `find_virtual_node` over the components. */
  method FindVirtualNode(root: Node, s: bytes) returns (r: Option<(Address, Path)>)
    ensures r == FindVirtual(root, s)
  {
    var components := VirtualComponents(root, s);
    var a: Address := [];
    var node, out := root, 0;
    PrependAddress([], Walk(node, components));
    assert components[0..] == components;
    while out < |components|
      invariant 0 <= out <= |components|
      invariant Walk(root, components) == Prefixed(a, Walk(node, components[out..]))
    {
      assert components[out..][1..] == components[out + 1..];
      if components[out] != ROOT_DIR {
        var found := FindChild(node.children, components[out]);
        if found.None? || !node.children[found.value].visible {
          return None;
        }
        if node.children[found.value].kind == HostFolder {
          return Some((a + [found.value], components[out + 1..]));
        }
        PrefixTwice(a, found.value, Walk(node.children[found.value], components[out + 1..]));
        node := node.children[found.value];
        a := a + [found.value];
      }
      out := out + 1;
    }
    assert a + [] == a;
    return Some((a, []));
  }

  method VirtualToHostPath(root: Node, s: bytes) returns (p: Path)
    ensures p == VirtualToHost(root, s)
  {
    var found := FindVirtualNode(root, s);
    if found.None? {
      return [];
    }
    var (a, rest) := found.value;
    var node := NodeAt(root, a);
    p := node.hostPath;
    if node.kind == HostFolder {
      var i := 0;
      while i < |rest|
        invariant 0 <= i <= |rest| && p == Join(node.hostPath, rest[..i])
      {
        assert rest[..i + 1][..i] == rest[..i];
        p := Append(p, rest[i]);
        i := i + 1;
      }
      assert rest[..|rest|] == rest;
    }
  }

  ghost function Prefixed(a: Address, r: Option<(Address, Path)>): Option<(Address, Path)> {
    match r case Some((b, rest)) => Some((a + b, rest)) case None => None
  }

  lemma PrependAddress(a: Address, r: Option<(Address, Path)>)
    requires a == []
    ensures Prefixed(a, r) == r
  {
    if r.Some? { assert a + r.value.0 == r.value.0; }
  }

  lemma PrefixTwice(a: Address, i: nat, r: Option<(Address, Path)>)
    ensures Prefixed(a, Prefixed([i], r)) == Prefixed(a + [i], r)
  {
    if r.Some? { assert a + ([i] + r.value.0) == a + [i] + r.value.0; }
  }

  // ----- there and back ------------------------------------------------------

  predicate DistinctNames(children: seq<Node>) {
    forall i, j :: 0 <= i < j < |children| ==> children[i].name != children[j].name
  }

  /** What the node setters enforce: names without slashes, host paths on host
      nodes only, children on virtual nodes only, one child per name. */
  predicate WellFormed(n: Node) {
    && Name(n.name)
    && (n.kind == Virtual ==> n.hostPath == [])
    && (n.kind != Virtual ==> Normal(n.hostPath) && n.children == [])
    && DistinctNames(n.children)
    && forall c :: c in n.children ==> WellFormed(c)
  }

  /** The root: virtual, visible, up to two slashes in front of its name. */
  predicate WellFormedRoot(root: Node) {
    && root.kind == Virtual && root.visible && root.hostPath == []
    && Name(SkipSlashes(root.name)) && |root.name| - |SkipSlashes(root.name)| <= 2
    && DistinctNames(root.children)
    && forall c :: c in root.children ==> WellFormed(c)
  }

  lemma {:induction false} FindsTheChild(children: seq<Node>, i: nat)
    requires i < |children| && DistinctNames(children)
    ensures FindChild(children, children[i].name) == Some(i)
  {
    if i > 0 {
      FindsTheChild(children[1..], i - 1);
    }
  }

  /** Walking the names of a visible chain leads to its end. */
  lemma {:induction false} WalkTheChain(n: Node, path: Path, a: Address, rest: Path)
    requires Hit(n, path, a) && a != [] && DistinctNames(n.children)
    requires forall c :: c in n.children ==> WellFormed(c)
    requires ValidAddress(n, a) && (NodeAt(n, a).kind == HostFile ==> rest == [])
    ensures Walk(n, NamesBelow(n, a) + rest) == Some((a, rest))
    decreases |a|
  {
    var i, child, b := a[0], n.children[a[0]], a[1..];
    var names := NamesBelow(child, b) + rest;
    assert WellFormed(child);
    var components := NamesBelow(n, a) + rest;
    assert components == [child.name] + names;
    assert child.name[0] in child.name;
    FindsTheChild(n.children, i);
    assert a == [i] + b;
    assert components[1..] == names;
    assert NodeAt(n, a) == NodeAt(child, b);
    if b == [] {
      assert names == rest && a == [i] && a == [i] + [];
      if child.kind == HostFile { assert Walk(child, []) == Some(([], [])); }
    } else {
      WalkTheChain(child, path, b, rest);
    }
  }

  lemma {:induction false} NamesBelowAreNames(n: Node, a: Address)
    requires ValidAddress(n, a) && forall c :: c in n.children ==> WellFormed(c)
    ensures Names(NamesBelow(n, a)) && |NamesBelow(n, a)| == |a|
  {
    if a != [] {
      assert n.children[a[0]] in n.children;
      NamesBelowAreNames(n.children[a[0]], a[1..]);
    }
  }

  lemma NamesBeforeRest(names: seq<bytes>, rest: seq<bytes>)
    requires Names(names) && names != [] && (rest == [] || NamesOrSlash(rest))
    ensures NamesOrSlash(names + rest) && (names + rest)[0] != []
    ensures DropSlash(names + rest) == names + DropSlash(rest)
    ensures Names(names + DropSlash(rest))
  {
    assert names[0] in names;
    var all := names + rest;
    if rest != [] && !Names(rest) {
      assert all[..|all| - 1] == names + rest[..|rest| - 1];
    }
    if rest != [] {
      if rest[|rest| - 1] == [] {
        AllButSlash(rest);
        assert all[..|all| - 1] == names + rest[..|rest| - 1];
      }
    } else {
      assert all == names;
      assert names[|names| - 1] in names;
    }
  }

  function DropSlash(names: seq<bytes>): seq<bytes> {
    if names != [] && names[|names| - 1] == [] then names[..|names| - 1] else names
  }

  lemma {:induction false} SkipRootSlashes(s: bytes, more: bytes)
    requires Name(SkipSlashes(s))
    ensures SkipSlashes(s + more) == SkipSlashes(s) + more
  {
    if s != [] && s[0] == SLASH {
      assert (s + more)[1..] == s[1..] + more;
      SkipRootSlashes(s[1..], more);
    }
  }

  /** Stripping the root's name from a virtual path leaves its other components,
      but for a trailing slash. */
  lemma StripRootName(root: Node, names: seq<bytes>)
    requires Name(SkipSlashes(root.name))
    requires NamesOrSlash(names) && names != [] && names[0] != []
    ensures VirtualComponents(root, root.name + Tail(names)) ==
      var kept := DropSlash(names); if kept == [] then [] else [ROOT_DIR] + kept
  {
    var stem := SkipSlashes(root.name);
    SkipRootSlashes(root.name, Tail(names));
    SkipRootSlashes(root.name, []);
    assert root.name + [] == root.name;
    TrimTail(stem, names);
    TrimTail(stem, []);
    assert stem + Tail([]) == stem;
    var kept := DropSlash(names);
    assert Trim(root.name + Tail(names)) == stem + Tail(kept);
    assert (stem + Tail(kept))[|stem|..] == Tail(kept);
    assert NamesOrSlash(kept) by { if names[|names| - 1] == [] { AllButSlash(names); } }
    ComponentsOfTail(kept);
  }

  lemma {:induction false} RestOfPath(p: Path, n: nat)
    requires NearlyNormal(p) && 0 < n <= |p|
    ensures p[n..] == [] || NamesOrSlash(p[n..])
  {
    NearlyNormalParts(p);
    SuffixNames(p[1..], n - 1);
    assert p[1..][n - 1..] == p[n..];
  }

  lemma SuffixNames(names: seq<bytes>, n: nat)
    requires NamesOrSlash(names) && n <= |names|
    ensures names[n..] == [] || NamesOrSlash(names[n..])
  {
    if n < |names| && !Names(names) {
      assert names[n..][..|names| - n - 1] == names[..|names| - 1][n..];
    }
  }

  /** Host to virtual and back: the walk reaches the very node the search found
      and leaves the right components, and the host path comes back, without the
      trailing slash if it had one. */
  lemma RoundTrip(root: Node, p: Path)
    requires WellFormedRoot(root) && NearlyNormal(p) && Search(root, p).Some?
    ensures var a, s := Search(root, p).value, HostToVirtual(root, p);
      && Hit(root, p, a) && ValidAddress(root, a)
      && |NodeAt(root, a).hostPath| <= |p|
      && FindVirtual(root, s) == Some((a, DropSlash(p[|NodeAt(root, a).hostPath|..])))
      && VirtualToHost(root, s) == WithoutSlash(p)
  {
    var a := Search(root, p).value;
    SearchIsFirst(root, p);
    HitIsValid(root, p, a);
    hide Hit, Search, Walk, Join, Tail, NearlyNormal, Normal, WellFormedRoot, VirtualComponents;
    var n := NodeAt(root, a);
    HostNodeIsNormal(root, a);
    var folder, names := n.hostPath, NamesBelow(root, a);
    var rest := p[|folder|..];
    WalkedBack(root, p, a);
    assert p == folder + rest;
    BackTogether(p, folder);
    JoinNames(folder, DropSlash(rest));
  }

  lemma WalkedBack(root: Node, p: Path, a: Address)
    requires WellFormedRoot(root) && NearlyNormal(p) && Hit(root, p, a) && ValidAddress(root, a)
    requires Matches(NodeAt(root, a), p)
    ensures var rest := DropSlash(p[|NodeAt(root, a).hostPath|..]);
      && FindVirtual(root, VirtualPath(root, a, p[|NodeAt(root, a).hostPath|..])) == Some((a, rest))
      && (rest != [] ==> rest[0] != [])
  {
    hide Hit, Walk, NearlyNormal, WellFormed, VirtualComponents, NamesOrSlash, Tail, Normal, Names;
    FoundFacts(root, p, a);
    var names := NamesBelow(root, a);
    var rest := p[|NodeAt(root, a).hostPath|..];
    NamesBelowAreNames(root, a);
    NamesBeforeRest(names, rest);
    StripRootName(root, names + rest);
    var kept := names + DropSlash(rest);
    WalkFromRoot(root, kept);
    WalkTheChain(root, p, a, DropSlash(rest));
    if DropSlash(rest) != [] {
      assert DropSlash(rest)[0] == kept[|names|];
      NoneEmpty(kept, |names|);
    }
  }

  lemma WalkFromRoot(root: Node, names: Path)
    requires WellFormedRoot(root)
    ensures Walk(root, [ROOT_DIR] + names) == Walk(root, names)
  {
    assert ([ROOT_DIR] + names)[1..] == names;
  }

  lemma NoneEmpty(names: Path, i: nat)
    requires Names(names) && i < |names|
    ensures names[i] != []
  {
    assert names[i] in names;
  }

  lemma FoundFacts(root: Node, p: Path, a: Address)
    requires WellFormedRoot(root) && NearlyNormal(p) && Hit(root, p, a) && ValidAddress(root, a)
    requires Matches(NodeAt(root, a), p)
    ensures a != [] && var rest := p[|NodeAt(root, a).hostPath|..]; rest == [] || NamesOrSlash(rest)
  {
    hide WellFormed, NamesOrSlash;
    RootMatchesNothing(root, p);
    HostNodeIsNormal(root, a);
    NormalNotEmpty(NodeAt(root, a));
    RestOfPath(p, |NodeAt(root, a).hostPath|);
  }

  lemma NormalNotEmpty(n: Node)
    requires WellFormed(n) && n.kind != Virtual
    ensures n.hostPath != []
  {
  }

  lemma RootMatchesNothing(root: Node, p: Path)
    requires root.kind == Virtual
    ensures !Hit(root, p, [])
  {
  }

  lemma BackTogether(p: Path, folder: Path)
    requires NearlyNormal(p) && Normal(folder) && folder <= p
    ensures folder + DropSlash(p[|folder|..]) == WithoutSlash(p)
    ensures folder == p ==> WithoutSlash(p) == p
  {
    var rest := p[|folder|..];
    assert p == folder + rest;
    if rest == [] {
      assert p == folder;
      NoSlashAtEnd(folder);
    } else if rest[|rest| - 1] == [] {
      assert p[..|p| - 1] == folder + rest[..|rest| - 1];
    }
  }

  lemma NoSlashAtEnd(p: Path)
    requires Normal(p)
    ensures WithoutSlash(p) == p
  {
    if |p| > 1 { assert p[|p| - 1] in p[1..]; }
  }

  lemma {:induction false} HostNodeIsNormal(n: Node, a: Address)
    requires ValidAddress(n, a) && NodeAt(n, a).kind != Virtual
    requires (forall c :: c in n.children ==> WellFormed(c)) && n.kind == Virtual
    ensures WellFormed(NodeAt(n, a))
  {
    if a != [] {
      var child := n.children[a[0]];
      assert WellFormed(child);
      if a[1..] != [] && child.kind == Virtual { HostNodeIsNormal(child, a[1..]); }
    }
  }

  /** The path comes back unchanged exactly when it has no trailing slash. */
  lemma RoundTripIff(root: Node, p: Path)
    requires WellFormedRoot(root) && NearlyNormal(p) && Search(root, p).Some?
    ensures VirtualToHost(root, HostToVirtual(root, p)) == p <==> p[|p| - 1] != [] || |p| == 1
  {
    RoundTrip(root, p);
  }

  // ----- what a virtual path can reach ---------------------------------------

  /** Every node below the root on the way to an address is visible. */
  predicate VisibleBelow(n: Node, a: Address)
    requires ValidAddress(n, a)
  {
    a != [] ==> n.children[a[0]].visible && VisibleBelow(n.children[a[0]], a[1..])
  }

  lemma {:induction false} WalkIsVisible(n: Node, components: Path)
    requires Walk(n, components).Some?
    ensures VisibleBelow(n, Walk(n, components).value.0)
    ensures exists k :: 0 <= k <= |components| && Walk(n, components).value.1 == components[k..]
    ensures Walk(n, components).value.0 == [] || Walk(n, components).value.1 != components
    decreases |components|
  {
    if components == [] {
      assert components[0..] == [];
    } else if components[0] == ROOT_DIR {
      WalkIsVisible(n, components[1..]);
      var k :| 0 <= k <= |components[1..]| && Walk(n, components).value.1 == components[1..][k..];
      assert components[1..][k..] == components[k + 1..];
    } else {
      var i := FindChild(n.children, components[0]).value;
      var (a, rest) := Walk(n, components).value;
      if n.children[i].kind == HostFolder {
        assert a[1..] == [];
        assert rest == components[1..];
      } else {
        WalkIsVisible(n.children[i], components[1..]);
        var k :| 0 <= k <= |components[1..]|
          && Walk(n.children[i], components[1..]).value.1 == components[1..][k..];
        assert components[1..][k..] == components[k + 1..];
        assert a[1..] == Walk(n.children[i], components[1..]).value.0;
      }
    }
  }

  /** Iterating any string gives a root directory at most in front, then names. */
  lemma ComponentsAreNames(s: bytes)
    ensures var c := Components(s);
      c != [] ==> (c[0] == ROOT_DIR || Name(c[0])) && (c[1..] == [] || NamesOrSlash(c[1..]))
  {
    if s != [] {
      if s[0] != SLASH {
        FromNameIsNames(s);
      } else if SkipSlashes(s) != [] {
        FromNameIsNames(SkipSlashes(s));
        assert Components(s)[1..] == FromName(SkipSlashes(s));
      }
    }
  }

  /** Whatever string is asked for: a host path is only ever that of a host node
      on an all-visible chain, extended by names for a folder. */
  lemma ReachesOnlyVisible(root: Node, s: bytes)
    requires WellFormedRoot(root) && VirtualToHost(root, s) != []
    ensures FindVirtual(root, s).Some?
    ensures var a, p := FindVirtual(root, s).value.0, VirtualToHost(root, s);
      && VisibleBelow(root, a) && NodeAt(root, a).kind != Virtual
      && NodeAt(root, a).hostPath <= p && NearlyNormal(p)
      && (NodeAt(root, a).kind == HostFile ==> NodeAt(root, a).hostPath == p)
  {
    var c := VirtualComponents(root, s);
    var (a, rest) := Walk(root, c).value;
    WalkIsVisible(root, c);
    VirtualHasNoHostPath(root, a);
    HostNodeIsNormal(root, a);
    if NodeAt(root, a).kind == HostFolder {
      var k :| 0 <= k <= |c| && rest == c[k..];
      ComponentsAreNames(Trim(s)[if Trim(root.name) <= Trim(s) then |Trim(root.name)| else 0..]);
      ComponentsAreNames(s);
      var n := NodeAt(root, a);
      if rest != [] {
        assert k > 0 by { assert k == 0 ==> rest == c; }
        SuffixNames(c[1..], k - 1);
        assert c[1..][k - 1..] == rest;
        if n.hostPath == [ROOT_DIR] && rest[0] == [] {
          OnlyLastEmpty(rest);
          assert Join(n.hostPath, []) == n.hostPath;
          assert rest[..0] == [];
        } else {
          ExtendNormal(n.hostPath, rest);
          JoinNames(n.hostPath, rest);
        }
      }
    }
  }

  lemma {:induction false} VirtualHasNoHostPath(n: Node, a: Address)
    requires ValidAddress(n, a)
    requires (forall c :: c in n.children ==> WellFormed(c)) && (n.kind == Virtual ==> n.hostPath == [])
    ensures NodeAt(n, a).kind == Virtual ==> NodeAt(n, a).hostPath == []
  {
    if a != [] {
      assert WellFormed(n.children[a[0]]);
      VirtualHasNoHostPath(n.children[a[0]], a[1..]);
    }
  }

  lemma ExtendNormal(folder: Path, rest: Path)
    requires Normal(folder) && rest != [] && NamesOrSlash(rest)
    requires folder == [ROOT_DIR] ==> rest != [[]]
    ensures NearlyNormal(folder + rest)
  {
    var p := folder + rest;
    if Names(rest) {
      assert p[1..] == folder[1..] + rest;
    } else {
      var q := folder + rest[..|rest| - 1];
      assert p[..|p| - 1] == q;
      assert q[1..] == folder[1..] + rest[..|rest| - 1];
    }
  }

  // ----- the root's name in front --------------------------------------------

  /** A path without the root's name is walked as it is, unless its string starts
      with that name: then the rest of the string is walked instead, even when
      the name ends in the middle of a component. */
  lemma RootNameIsStripped(root: Node, names: seq<bytes>)
    requires Name(SkipSlashes(root.name)) && names != [] && Names(names)
    ensures var stem, s := SkipSlashes(root.name), Render(names);
      if stem <= s then FindVirtual(root, s) == Walk(root, Components(s[|stem|..]))
      else FindVirtual(root, s) == Walk(root, names)
  {
    var s := Render(names);
    assert names[0] in names && names[0][0] in names[0];
    assert names[0] != ROOT_DIR;
    TrimTail(SkipSlashes(root.name), []);
    assert SkipSlashes(root.name) + Tail([]) == SkipSlashes(root.name);
    EndOfTail(names[0], names[1..]);
    assert SkipSlashes(s) == s && SkipSlashesBack(s) == s;
    assert Normal(names);
    ComponentsOfRender(names);
  }

  /** A visible child is found by its own name exactly when that does not begin with the
      root's name; and the root's name need not end at a component. */
  lemma ChildByNameIff(root: Node, i: nat)
    requires WellFormedRoot(root) && i < |root.children| && root.children[i].visible
    ensures Walk(root, [root.children[i].name]) == Some(([i], []))
    ensures FindVirtual(root, root.children[i].name) == Some(([i], []))
      <==> !(SkipSlashes(root.name) <= root.children[i].name)
  {
    var child, stem := root.children[i], SkipSlashes(root.name);
    var name := child.name;
    assert child in root.children && WellFormed(child);
    FindsTheChild(root.children, i);
    var single: Path := [name];
    assert name[0] in name && single[1..] == [];
    assert Walk(child, []) == Some(([], [])) && [i] + [] == [i];
    RootNameIsStripped(root, [name]);
    assert Tail([]) == [] && name + [] == name && Render([name]) == name;
    if stem <= name {
      var remainder := name[|stem|..];
      if remainder == [] {
        assert Walk(root, Components(remainder)) == Some(([], []));
      } else {
        RemainderIsAnother(root, i, remainder);
      }
    }
  }

  lemma RemainderIsAnother(root: Node, i: nat, remainder: bytes)
    requires WellFormedRoot(root) && i < |root.children|
    requires remainder != [] && SkipSlashes(root.name) + remainder == root.children[i].name
    ensures Walk(root, Components(remainder)) != Some(([i], []))
  {
    var name, stem := root.children[i].name, SkipSlashes(root.name);
    assert root.children[i] in root.children && WellFormed(root.children[i]);
    forall b | b in remainder ensures b != SLASH {
      var k :| 0 <= k < |remainder| && remainder[k] == b;
      assert name[|stem| + k] == b && name[|stem| + k] in name;
    }
    assert remainder[0] in remainder;
    SplitJoined(remainder, []);
    assert remainder + [] == remainder;
    assert Components(remainder) == [remainder];
    assert |remainder| < |name|;
  }

  // ----- what is found -----------------------------------------------------------

  /** A visible node, all above it visible, that maps this host path or a folder around it. */
  ghost predicate Maps(root: Node, a: Address, p: Path) {
    && ValidAddress(root, a) && root.visible && VisibleBelow(root, a)
    && var n := NodeAt(root, a);
       (n.kind == HostFile && n.hostPath == p) || (n.kind == HostFolder && |n.hostPath| <= |p| && p[..|n.hostPath|] == n.hostPath)
  }

  lemma {:induction false} MapsIsHit(n: Node, a: Address, p: Path)
    requires n.kind != Virtual ==> n.children == []
    requires forall c :: c in n.children ==> WellFormed(c)
    ensures Maps(n, a, p) <==> Hit(n, p, a)
  {
    if a != [] && a[0] < |n.children| {
      var child := n.children[a[0]];
      assert WellFormed(child);
      MapsIsHit(child, a[1..], p);
    }
  }

  lemma {:induction false} BeforeMeans(a: Address, b: Address) returns (k: nat)
    requires Before(a, b)
    ensures k < |a| && k < |b| && a[..k] == b[..k] && a[k] < b[k]
  {
    if a[0] < b[0] {
      k := 0;
    } else {
      var m := BeforeMeans(a[1..], b[1..]);
      k := m + 1;
      assert a[..k] == [a[0]] + a[1..][..m] && b[..k] == [b[0]] + b[1..][..m];
    }
  }

  /** The first address in the order of the children. */
  ghost predicate Earlier(a: Address, b: Address) {
    exists k :: 0 <= k < |a| && k < |b| && a[..k] == b[..k] && a[k] < b[k]
  }

  /** A host path is found exactly when some visible node maps it or a folder around it, and
      what is found is the first such node. */
  lemma FoundIff(root: Node, p: Path)
    requires WellFormedRoot(root)
    ensures Search(root, p).Some? <==> exists a :: Maps(root, a, p)
    ensures Search(root, p).Some? ==>
      Maps(root, Search(root, p).value, p)
      && forall b :: Maps(root, b, p) ==> b == Search(root, p).value || Earlier(Search(root, p).value, b)
  {
    hide Maps, Hit, WellFormed;
    SearchIsFirst(root, p);
    forall b ensures Maps(root, b, p) <==> Hit(root, p, b) { MapsIsHit(root, b, p); }
    if Search(root, p).Some? {
      var a := Search(root, p).value;
      forall b | Maps(root, b, p) && b != a ensures Earlier(a, b) { var k := BeforeMeans(a, b); }
    }
  }
}
