/** The in-memory directed graph: nodes by id, edges without duplicates or dangling ends. */
module Graph {
  import opened Ordering

  datatype Node = Node(id: string, kind: string, attributes: map<string, string>)

  datatype Edge = Edge(src: string, dst: string, kind: string)

  function NodeKey(n: Node): Key {
    [Text(n.id)]
  }

  function EdgeKey(e: Edge): Key {
    [Text(e.src), Text(e.dst), Text(e.kind)]
  }

  // ---------- what the operations mean ----------

  /** The first node with an id stays; nodes without id are ignored. */
  function WithNode(nodes: map<string, Node>, n: Node): map<string, Node> {
    if n.id == "" || n.id in nodes then nodes else nodes[n.id := n]
  }

  predicate Admissible(nodes: map<string, Node>, e: Edge) {
    e.src != "" && e.dst != "" && e.kind != "" && e.src in nodes && e.dst in nodes
  }

  function WithEdge(nodes: map<string, Node>, edges: seq<Edge>, e: Edge): seq<Edge> {
    if Admissible(nodes, e) && e !in edges then edges + [e] else edges
  }

  ghost predicate WellKeyed(nodes: map<string, Node>) {
    forall id :: id in nodes ==> id != "" && nodes[id].id == id
  }

  ghost predicate WellFormed(nodes: map<string, Node>, edges: seq<Edge>) {
    && WellKeyed(nodes)
    && NoDuplicates(edges)
    && forall e :: e in edges ==> Admissible(nodes, e)
  }

  /** The node at the other end of an edge that touches `id`. */
  function OtherEnd(e: Edge, id: string): string {
    if e.src == id then e.dst else e.src
  }

  predicate Touches(e: Edge, id: string) {
    e.src == id || e.dst == id
  }

  function EdgesAt(edges: seq<Edge>, id: string): (r: seq<Edge>)
    ensures forall e :: e in r <==> e in edges && Touches(e, id)
  {
    if edges == [] then []
    else
      var k := |edges| - 1;
      assert edges == edges[..k] + [edges[k]];
      EdgesAt(edges[..k], id) + (if Touches(edges[k], id) then [edges[k]] else [])
  }

  class Graph {
    var nodes: map<string, Node>
    var edges: seq<Edge>

    ghost predicate Valid()
      reads this
    {
      WellFormed(nodes, edges)
    }

    constructor ()
      ensures Valid() && nodes == map[] && edges == []
    {
      nodes, edges := map[], [];
    }

    method AddNode(node: Node)
      requires Valid()
      modifies this
      ensures Valid() && edges == old(edges)
      ensures nodes == WithNode(old(nodes), node)
    {
      if node.id == "" {
        return;
      }
      if node.id in nodes {
        return;
      }
      nodes := nodes[node.id := node];
    }

    method AddEdge(edge: Edge)
      requires Valid()
      modifies this
      ensures Valid() && nodes == old(nodes)
      ensures edges == WithEdge(nodes, old(edges), edge)
    {
      if edge.src == "" || edge.dst == "" || edge.kind == "" {
        return;
      }
      if edge.src !in nodes {
        return;
      }
      if edge.dst !in nodes {
        return;
      }
      for i := 0 to |edges|
        invariant edge !in edges[..i]
      {
        if edges[i] == edge {
          return;
        }
      }
      assert edges[..|edges|] == edges;
      edges := edges + [edge];
    }

    /** Whatever order the map is ranged over, the list comes out sorted by id. */
    method Nodes() returns (list: seq<Node>)
      requires Valid()
      ensures StrictlySorted(list, NodeKey)
      ensures forall n :: n in list <==> n.id in nodes && nodes[n.id] == n
    {
      list := [];
      var unvisited := nodes.Keys;
      while unvisited != {}
        invariant unvisited <= nodes.Keys
        invariant NoDuplicates(list)
        invariant forall n :: n in list <==> n.id in nodes && n.id !in unvisited && nodes[n.id] == n
        decreases unvisited
      {
        var id :| id in unvisited;
        unvisited := unvisited - {id};
        list := list + [nodes[id]];
      }
      list := SortByID(list);
    }

    method EdgesForNode(nodeID: string) returns (list: seq<Edge>)
      ensures list == EdgesAt(edges, nodeID)
    {
      list := [];
      for i := 0 to |edges|
        invariant list == EdgesAt(edges[..i], nodeID)
      {
        assert edges[..i + 1][..i] == edges[..i];
        var edge := edges[i];
        if edge.src == nodeID || edge.dst == nodeID {
          list := list + [edge];
        }
      }
      assert edges[..|edges|] == edges;
    }

    /** The nodes one edge away, each once, sorted by id. */
    method Neighbors(nodeID: string) returns (list: seq<Node>)
      requires Valid()
      ensures StrictlySorted(list, NodeKey)
      ensures forall n :: n in list <==>
        exists e :: e in edges && Touches(e, nodeID) && OtherEnd(e, nodeID) in nodes && n == nodes[OtherEnd(e, nodeID)]
    {
      list := [];
      var seen: set<string> := {};
      for i := 0 to |edges|
        invariant NoDuplicates(list)
        invariant forall n :: n in list ==> n.id in seen && n.id in nodes && nodes[n.id] == n
        invariant forall id :: id in seen <==> exists k :: 0 <= k < i && Touches(edges[k], nodeID) && OtherEnd(edges[k], nodeID) == id
        invariant forall id :: id in seen ==> id in nodes && nodes[id] in list
      {
        var edge := edges[i];
        assert edge in edges;
        var neighborID := "";
        if edge.src == nodeID {
          neighborID := edge.dst;
        } else if edge.dst == nodeID {
          neighborID := edge.src;
        }
        if neighborID == "" { continue; }
        if neighborID in seen { continue; }
        if neighborID !in nodes { continue; }
        seen := seen + {neighborID};
        list := list + [nodes[neighborID]];
      }
      list := SortByID(list);
    }

    /** The targets of the edges of one kind that leave a node, each once, sorted by id. */
    method RelatedByEdgeKind(nodeID: string, kind: string) returns (list: seq<Node>)
      requires Valid()
      ensures StrictlySorted(list, NodeKey)
      ensures forall n :: n in list <==>
        exists e :: e in edges && e.src == nodeID && e.kind == kind && e.dst in nodes && n == nodes[e.dst]
    {
      list := [];
      var seen: set<string> := {};
      for i := 0 to |edges|
        invariant NoDuplicates(list)
        invariant forall n :: n in list ==> n.id in seen && n.id in nodes && nodes[n.id] == n
        invariant forall id :: id in seen <==> exists k :: 0 <= k < i && edges[k].src == nodeID && edges[k].kind == kind && edges[k].dst == id
        invariant forall id :: id in seen ==> id in nodes && nodes[id] in list
      {
        var edge := edges[i];
        assert edge in edges;
        if edge.src != nodeID || edge.kind != kind { continue; }
        if edge.dst !in nodes { continue; }
        var node := nodes[edge.dst];
        if node.id in seen { continue; }
        seen := seen + {node.id};
        list := list + [node];
      }
      list := SortByID(list);
    }

    method HasEdge(src: string, dst: string, kind: string) returns (found: bool)
      ensures found <==> Edge(src, dst, kind) in edges
    {
      for i := 0 to |edges|
        invariant Edge(src, dst, kind) !in edges[..i]
      {
        if edges[i].src == src && edges[i].dst == dst && edges[i].kind == kind {
          return true;
        }
      }
      assert edges[..|edges|] == edges;
      return false;
    }
  }

  ghost predicate IdsDistinguish(list: seq<Node>) {
    forall m, n :: m in list && n in list && m.id == n.id ==> m == n
  }

  method SortByID(list: seq<Node>) returns (r: seq<Node>)
    requires NoDuplicates(list) && IdsDistinguish(list)
    ensures StrictlySorted(r, NodeKey)
    ensures forall n :: n in r <==> n in list
  {
    r := SortFunc(list, NodeKey);
    SamePermutationElements(list, r);
    PermutationNoDuplicates(list, r);
    SortedIsStrict(r, NodeKey);
  }
}
