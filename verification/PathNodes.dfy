/** A node of the virtual tree as it is built: what its setters let through, and that
    it is then a tree the searches can rely on. */
module PathNodes {
  import opened Bytes
  import opened Paths
  import opened FileMapping

  datatype NodeError = NotVirtual | IsVirtual | BadName | Duplicate

  type NodeMap = map<bytes, Node>

  datatype Shape = Shape(name: bytes, kind: Kind, visible: bool, hostPath: Path, children: NodeMap)

  /** What the checks of the setters add up to. */
  predicate Kept(s: Shape) {
    && Name(s.name)
    && (s.children != map[] ==> s.kind == Virtual)
    && (s.hostPath != [] ==> s.kind != Virtual)
  }

  /** Every child is filed under its own name. */
  predicate Named(children: NodeMap) { forall k :: k in children ==> children[k].name == k }

  function FirstNamed(nodes: seq<Node>, name: bytes): Option<Node> {
    if nodes == [] then None
    else if nodes[0].name == name then Some(nodes[0])
    else FirstNamed(nodes[1..], name)
  }

  lemma {:induction false} FirstNamedAppend(nodes: seq<Node>, n: Node, name: bytes)
    ensures FirstNamed(nodes + [n], name) ==
      if FirstNamed(nodes, name).Some? then FirstNamed(nodes, name)
      else if n.name == name then Some(n) else None
  {
    if nodes == [] {
      assert ([] + [n])[1..] == [];
    } else {
      assert (nodes + [n])[1..] == nodes[1..] + [n];
      FirstNamedAppend(nodes[1..], n, name);
    }
  }

  /** `vector_to_map`: of nodes with the same name only the first is kept. */
  method VectorToMap(nodes: seq<Node>) returns (result: NodeMap)
    ensures Named(result)
    ensures forall name :: name in result <==> FirstNamed(nodes, name).Some?
    ensures forall name :: name in result ==> FirstNamed(nodes, name) == Some(result[name])
  {
    result := map[];
    var k := 0;
    assert nodes[..0] == [];
    while k < |nodes|
      invariant 0 <= k <= |nodes| && Named(result)
      invariant forall name :: name in result <==> FirstNamed(nodes[..k], name).Some?
      invariant forall name :: name in result ==> FirstNamed(nodes[..k], name) == Some(result[name])
    {
      assert nodes[..k + 1] == nodes[..k] + [nodes[k]];
      forall name ensures FirstNamed(nodes[..k + 1], name) ==
        if FirstNamed(nodes[..k], name).Some? then FirstNamed(nodes[..k], name)
        else if nodes[k].name == name then Some(nodes[k]) else None
      {
        FirstNamedAppend(nodes[..k], nodes[k], name);
      }
      if nodes[k].name !in result {
        result := result[nodes[k].name := nodes[k]];
      }
      k := k + 1;
    }
    assert nodes[..|nodes|] == nodes;
  }

  class PathNode {
    var name: bytes
    var kind: Kind
    var visible: bool
    var hostPath: Path
    var children: NodeMap

    function State(): Shape
      reads this
    {
      Shape(name, kind, visible, hostPath, children)
    }

    /** A node as `make_virtual_node` and `make_host_node` leave it, their checks passed. */
    constructor (s: Shape)
      requires Kept(s)
      ensures State() == s
    {
      name, kind, visible, hostPath, children := s.name, s.kind, s.visible, s.hostPath, s.children;
    }

    method InsertChildNode(node: Node) returns (error: Option<NodeError>)
      modifies this
      ensures error == if old(kind) != Virtual then Some(NotVirtual)
                       else if node.name in old(children) then Some(Duplicate) else None
      ensures State() == if error.Some? then old(State())
                         else old(State()).(children := old(children)[node.name := node])
      ensures old(Kept(State())) ==> Kept(State())
      ensures old(Named(children)) ==> Named(children)
    {
      if kind != Virtual {
        return Some(NotVirtual);
      }
      if node.name in children {
        return Some(Duplicate);
      }
      children := children[node.name := node];
      return None;
    }

    method RemoveChildNode(childName: bytes)
      modifies this
      ensures State() == old(State()).(children := old(children) - {childName})
      ensures old(Kept(State())) ==> Kept(State())
      ensures old(Named(children)) ==> Named(children)
    {
      children := children - {childName};
    }

    method ClearChildNodes()
      modifies this
      ensures State() == old(State()).(children := map[])
      ensures old(Kept(State())) ==> Kept(State())
    {
      children := map[];
    }

    /** A map is taken as it is, whatever its keys. */
    method SetChildNodes(nodes: NodeMap) returns (error: Option<NodeError>)
      modifies this
      ensures error == if nodes != map[] && old(kind) != Virtual then Some(NotVirtual) else None
      ensures State() == if error.Some? then old(State()) else old(State()).(children := nodes)
      ensures old(Kept(State())) ==> Kept(State())
    {
      if nodes != map[] {
        if kind != Virtual {
          return Some(NotVirtual);
        }
      }
      children := nodes;
      return None;
    }

    method SetName(newName: bytes) returns (error: Option<NodeError>)
      modifies this
      ensures error == if Name(newName) then None else Some(BadName)
      ensures State() == if error.Some? then old(State()) else old(State()).(name := newName)
      ensures old(Kept(State())) ==> Kept(State())
    {
      if SLASH in newName {
        return Some(BadName);
      }
      if newName == [] {
        return Some(BadName);
      }
      name := newName;
      return None;
    }

    method SetType(newKind: Kind) returns (error: Option<NodeError>)
      modifies this
      ensures error == if old(children) != map[] then if newKind != Virtual then Some(NotVirtual) else None
                       else if old(hostPath) != [] && newKind == Virtual then Some(IsVirtual) else None
      ensures State() == if error.Some? then old(State()) else old(State()).(kind := newKind)
      ensures old(Kept(State())) ==> Kept(State())
    {
      if children != map[] {
        if newKind != Virtual {
          return Some(NotVirtual);
        }
      } else if hostPath != [] {
        if newKind == Virtual {
          return Some(IsVirtual);
        }
      }
      kind := newKind;
      return None;
    }

    method SetHostPath(path: Path) returns (error: Option<NodeError>)
      modifies this
      ensures error == if path != [] && old(kind) == Virtual then Some(IsVirtual) else None
      ensures State() == if error.Some? then old(State()) else old(State()).(hostPath := path)
      ensures old(Kept(State())) ==> Kept(State())
    {
      if path != [] {
        if kind == Virtual {
          return Some(IsVirtual);
        }
      }
      hostPath := path;
      return None;
    }

    method SetVisibility(newVisible: bool)
      modifies this
      ensures State() == old(State()).(visible := newVisible)
      ensures old(Kept(State())) ==> Kept(State())
    {
      visible := newVisible;
    }
  }

  // ----- a tree to rely on -----------------------------------------------------

  /** All keys, in whatever order the hash map iterates them. */
  ghost predicate Enumerates(order: seq<bytes>, children: NodeMap) {
    && (forall k :: k in order <==> k in children)
    && forall i, j :: 0 <= i < j < |order| ==> order[i] != order[j]
  }

  function Listed(s: Shape, order: seq<bytes>): Node
    requires forall k :: k in order ==> k in s.children
  {
    Node(s.name, s.kind, s.visible, s.hostPath,
         seq(|order|, i requires 0 <= i < |order| => s.children[order[i]]))
  }

  /** What the setters keep is what the searches need, given that the children are filed
      under their names and a host node has a normalised path. */
  lemma SettersSuffice(s: Shape, order: seq<bytes>)
    requires Kept(s) && Named(s.children) && Enumerates(order, s.children)
    requires s.kind != Virtual ==> Normal(s.hostPath)
    requires forall k :: k in s.children ==> WellFormed(s.children[k])
    ensures WellFormed(Listed(s, order))
  {
    var n := Listed(s, order);
    forall i, j | 0 <= i < j < |n.children| ensures n.children[i].name != n.children[j].name {
      assert order[i] in s.children && order[j] in s.children;
    }
    forall c | c in n.children ensures WellFormed(c) {
      var i :| 0 <= i < |n.children| && n.children[i] == c;
      assert order[i] in s.children;
    }
    assert s.kind != Virtual ==> n.children == [] by {
      if n.children != [] { assert order[0] in s.children; }
    }
  }

  // ----- the root's name -------------------------------------------------------

  /** `find_first_not_of('/')`; none stands for the largest number. */
  function FirstNotSlash(s: bytes): Option<nat> {
    if s == [] then None
    else if s[0] != SLASH then Some(0)
    else match FirstNotSlash(s[1..]) case None => None case Some(i) => Some(i + 1)
  }

  /** `find_last_of('/')`. */
  function LastSlash(s: bytes): Option<nat> {
    if s == [] then None else if s[|s| - 1] == SLASH then Some(|s| - 1) else LastSlash(s[..|s| - 1])
  }

  /** The checks of `RootPathNode::assert_valid_name`, in order. */
  predicate RootNamePasses(name: bytes) {
    && name != []
    && FirstNotSlash(name).Some?
    && LastSlash(name).Some? // with no slash the comparison below takes the largest number
    && !(FirstNotSlash(name).value < LastSlash(name).value)
    && FirstNotSlash(name).value <= 2
  }

  predicate OnlySlashes(s: bytes, n: nat) { n <= |s| && forall i :: 0 <= i < n ==> s[i] == SLASH }

  lemma {:induction false} FirstNotSlashIs(s: bytes)
    ensures FirstNotSlash(s).None? <==> SkipSlashes(s) == []
    ensures FirstNotSlash(s).Some? ==>
      var f := FirstNotSlash(s).value;
      f == |s| - |SkipSlashes(s)| && OnlySlashes(s, f) && s[f..] == SkipSlashes(s)
  {
    if s != [] && s[0] == SLASH {
      FirstNotSlashIs(s[1..]);
      if FirstNotSlash(s[1..]).Some? {
        var f := FirstNotSlash(s[1..]).value;
        assert s[f + 1..] == s[1..][f..];
        OneMoreSlash(s, f);
      }
    }
  }

  lemma OneMoreSlash(s: bytes, f: nat)
    requires s != [] && s[0] == SLASH && OnlySlashes(s[1..], f)
    ensures OnlySlashes(s, f + 1)
  {
    forall i | 0 <= i < f + 1 ensures s[i] == SLASH {
      if i > 0 { assert s[i] == s[1..][i - 1]; }
    }
  }

  lemma {:induction false} LastSlashIs(s: bytes)
    ensures LastSlash(s).None? <==> SLASH !in s
    ensures LastSlash(s).Some? ==>
      && LastSlash(s).value < |s| && s[LastSlash(s).value] == SLASH
      && forall i :: LastSlash(s).value < i < |s| ==> s[i] != SLASH
  {
    if s != [] {
      LastSlashIs(s[..|s| - 1]);
      assert s == s[..|s| - 1] + [s[|s| - 1]];
    }
  }

  /** A root name passes exactly when it is a name behind one or two slashes: a name with
      none in front is refused as well. */
  lemma RootNameIff(name: bytes)
    ensures RootNamePasses(name) <==>
      Name(SkipSlashes(name)) && 1 <= |name| - |SkipSlashes(name)| <= 2
  {
    FirstNotSlashIs(name);
    LastSlashIs(name);
    if FirstNotSlash(name).Some? {
      var f := FirstNotSlash(name).value;
      assert SkipSlashes(name) == name[f..];
      if SLASH in name[f..] {
        var i :| 0 <= i < |name[f..]| && name[f..][i] == SLASH;
        assert name[f + i] == SLASH;
      } else if f >= 1 {
        assert name[f - 1] == SLASH;
        assert forall i :: f <= i < |name| ==> name[i] == name[f..][i - f];
      }
    }
  }
}
