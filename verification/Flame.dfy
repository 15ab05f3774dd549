/**
 * The flame-graph builder: a recursive walk that unfolds a possibly cyclic call graph into a tree,
 * cutting cycles, depth and size through state shared by every level of the recursion.
 */
module Flame {
  import opened Sorting
  import opened Strings

  const MAX_DEPTH: nat := 24
  const MAX_NODES: nat := 4000

  /** A row of the edge query. */
  datatype EdgeRow = EdgeRow(parent: string, edge: FlameEdge)

  datatype FlameEdge = FlameEdge(
    function_: string, callCount: nat, totalWallMs: real, selfWallMs: real, totalCPUMs: real)

  /** A tree node: `callId` is the number in "f0", "f1", ...; the printed fields come from `edge`. */
  datatype Node = Node(callId: nat, edge: FlameEdge, children: seq<Node>)

  type Graph = map<string, seq<FlameEdge>>

  /** The class and the function of a name such as `Class::method`. */
  function SplitName(name: string): (string, string) {
    var i := Index(name, "::");
    if i >= 0 then (name[..i], name[i + 2..]) else ("", name)
  }

  /** Class and function join to the name around its first separator; a name without one is all function. */
  lemma SplitJoins(name: string)
    ensures var (class_, fn) := SplitName(name);
            if exists j :: OccursAt(name, "::", j) then
              name == class_ + "::" + fn && forall j :: OccursAt(name, "::", j) ==> |class_| <= j
            else class_ == "" && fn == name
  {
    var i := Index(name, "::");
    if i >= 0 { assert name == name[..i] + "::" + name[i + 2..]; }
  }

  /** A name that starts with the separator shows like the same name without it. */
  predicate ShowsLike(a: string, b: string) { a == "::" + b && !Contains(b, "::") }

  /** Two functions show the same class and name exactly when they are equal, or one is the other behind a bare "::". */
  lemma SameDisplay(a: string, b: string)
    ensures SplitName(a) == SplitName(b) <==> a == b || ShowsLike(a, b) || ShowsLike(b, a)
  {
    var i, j := Index(a, "::"), Index(b, "::");
    if i >= 0 { assert a == a[..i] + "::" + a[i + 2..]; }
    if j >= 0 { assert b == b[..j] + "::" + b[j + 2..]; }
    if ShowsLike(a, b) { LeadingSeparator(a, b); }
    if ShowsLike(b, a) { LeadingSeparator(b, a); }
  }

  lemma LeadingSeparator(a: string, b: string)
    requires a == "::" + b
    ensures Index(a, "::") == 0 && SplitName(a) == ("", b)
  {
    assert a[0..2] == "::" && a[2..] == b;
    assert OccursAt(a, "::", 0);
  }

  /** A Go map lookup: a missing key gives the empty list. */
  function Children(g: Graph, f: string): seq<FlameEdge> {
    if f in g then g[f] else []
  }

  // ----- What the builder should return -----

  function Size(forest: seq<Node>): nat {
    if forest == [] then 0 else 1 + Size(forest[0].children) + Size(forest[1..])
  }

  /**
   * The unfolding without a size cap: below a node hang its function's edges unless the function is
   * already open on the path from the root or the depth cap is reached. Nodes are numbered from `next`.
   */
  ghost function Unfold(g: Graph, edges: seq<FlameEdge>, i: nat, path: set<string>, depth: nat, next: nat): seq<Node>
    decreases if depth < MAX_DEPTH then MAX_DEPTH - depth else 0, if i < |edges| then |edges| - i else 0
  {
    if depth >= MAX_DEPTH || i >= |edges| then []
    else
      var kids := Below(g, edges[i].function_, path, depth, next + 1);
      [Node(next, edges[i], kids)] + Unfold(g, edges, i + 1, path, depth, next + 1 + Size(kids))
  }

  /** What hangs below a node for function `f`. */
  ghost function Below(g: Graph, f: string, path: set<string>, depth: nat, next: nat): seq<Node>
    requires depth < MAX_DEPTH
    decreases MAX_DEPTH - depth, 0
  {
    if f in path then [] else Unfold(g, Children(g, f), 0, path + {f}, depth + 1, next)
  }

  /** The nodes numbered below `cap`. */
  ghost function Keep(forest: seq<Node>, cap: nat): seq<Node> {
    if forest == [] || forest[0].callId >= cap then []
    else [Node(forest[0].callId, forest[0].edge, Keep(forest[0].children, cap))] + Keep(forest[1..], cap)
  }

  // ----- The builder -----

  class Builder {
    const childEdges: Graph
    var nodeCount: nat
    var path: set<string>

    constructor (g: Graph)
      ensures childEdges == g && nodeCount == 0 && path == {}
    {
      childEdges := g;
      nodeCount := 0;
      path := {};
    }

    /** Appends the nodes for `edges`; `path` is lent out to the recursion and handed back unchanged. */
    method Build(edges: seq<FlameEdge>, depth: nat) returns (out: seq<Node>)
      requires nodeCount <= MAX_NODES && depth <= MAX_DEPTH
      modifies this
      ensures path == old(path)
      ensures out == Keep(Unfold(childEdges, edges, 0, old(path), depth, old(nodeCount)), MAX_NODES)
      ensures nodeCount == Capped(old(nodeCount) + Size(Unfold(childEdges, edges, 0, old(path), depth, old(nodeCount))))
      ensures nodeCount == old(nodeCount) + Size(out)
      decreases MAX_DEPTH - depth, 1
    {
      hide Unfold, Below, Keep, Size;
      out := [];
      if depth >= MAX_DEPTH {
        UnfoldEnd(childEdges, edges, 0, path, depth, nodeCount, MAX_NODES);
        return;
      }
      ghost var g, open := childEdges, path;
      // The number the next node would get without the cap, and what is still to be unfolded.
      ghost var next: nat := nodeCount;
      ghost var whole := Unfold(g, edges, 0, open, depth, next);
      ghost var rest, kept := whole, Keep(whole, MAX_NODES);
      var i := 0;
      while i < |edges|
        invariant 0 <= i <= |edges|
        invariant path == open && nodeCount == Capped(next)
        invariant rest == Unfold(g, edges, i, open, depth, next)
        invariant next + Size(rest) == old(nodeCount) + Size(whole)
        invariant kept == Keep(rest, MAX_NODES) && out + kept == Keep(whole, MAX_NODES)
      {
        if nodeCount >= MAX_NODES {
          break;
        }
        ghost var kids, keptKids;
        kids, rest, keptKids, kept := UnfoldStep(g, edges, i, open, depth, next, rest, MAX_NODES);
        next := next + 1 + Size(kids);
        var node := Visit(edges[i], depth);
        assert node == Node(next - 1 - Size(kids), edges[i], keptKids);
        assert out + ([node] + kept) == (out + [node]) + kept;
        out := out + [node];
        i := i + 1;
      }
      UnfoldEnd(g, edges, i, open, depth, next, MAX_NODES);
      UnfoldNumbered(g, edges, 0, open, depth, old(nodeCount));
      KeptSize(whole, old(nodeCount), MAX_NODES);
    }

    /** One turn of the loop: numbers the node and opens its function unless that is already open. */
    method Visit(e: FlameEdge, depth: nat) returns (node: Node)
      requires nodeCount < MAX_NODES && depth < MAX_DEPTH
      modifies this
      ensures path == old(path)
      ensures var kids := Below(childEdges, e.function_, old(path), depth, old(nodeCount) + 1);
              && node == Node(old(nodeCount), e, Keep(kids, MAX_NODES))
              && nodeCount == Capped(old(nodeCount) + 1 + Size(kids))
      decreases MAX_DEPTH - depth, 0
    {
      nodeCount := nodeCount + 1;
      var callId := nodeCount - 1;
      var kids := [];
      if e.function_ !in path {
        path := path + {e.function_};
        kids := Build(Children(childEdges, e.function_), depth + 1);
        path := path - {e.function_};
        assert path == old(path);
      }
      node := Node(callId, e, kids);
    }
  }

  /** The unfolding `from` of the edges from `i` on, split after its first node. */
  lemma UnfoldStep(
      g: Graph, edges: seq<FlameEdge>, i: nat, path: set<string>, depth: nat, next: nat, from: seq<Node>, cap: nat)
      returns (kids: seq<Node>, rest: seq<Node>, keptKids: seq<Node>, keptRest: seq<Node>)
    requires i < |edges| && depth < MAX_DEPTH && next < cap
    requires from == Unfold(g, edges, i, path, depth, next)
    ensures kids == Below(g, edges[i].function_, path, depth, next + 1) && keptKids == Keep(kids, cap)
    ensures rest == Unfold(g, edges, i + 1, path, depth, next + 1 + Size(kids)) && keptRest == Keep(rest, cap)
    ensures Size(from) == 1 + Size(kids) + Size(rest)
    ensures Keep(from, cap) == [Node(next, edges[i], keptKids)] + keptRest
  {
    kids := Below(g, edges[i].function_, path, depth, next + 1);
    rest := Unfold(g, edges, i + 1, path, depth, next + 1 + Size(kids));
    keptKids, keptRest := Keep(kids, cap), Keep(rest, cap);
    KeepCons(Node(next, edges[i], kids), rest, cap);
  }

  /** Nothing is left to keep after the last edge, or once the numbers have reached the cap. */
  lemma UnfoldEnd(g: Graph, edges: seq<FlameEdge>, i: nat, path: set<string>, depth: nat, next: nat, cap: nat)
    requires i >= |edges| || depth >= MAX_DEPTH || next >= cap
    ensures Keep(Unfold(g, edges, i, path, depth, next), cap) == []
    ensures i >= |edges| || depth >= MAX_DEPTH ==> Size(Unfold(g, edges, i, path, depth, next)) == 0
    ensures Size([]) == 0
  {
    UnfoldNumbered(g, edges, i, path, depth, next);
  }

  function Capped(n: nat): nat { if n < MAX_NODES then n else MAX_NODES }

  lemma KeepCons(n: Node, rest: seq<Node>, cap: nat)
    requires n.callId < cap
    ensures Keep([n] + rest, cap) == [Node(n.callId, n.edge, Keep(n.children, cap))] + Keep(rest, cap)
    ensures Size([n] + rest) == 1 + Size(n.children) + Size(rest)
  {
    assert ([n] + rest)[1..] == rest;
  }

  // ----- Preorder numbering -----

  /** The forest is numbered in preorder, without gaps, from `n`. */
  ghost predicate Numbered(forest: seq<Node>, n: nat) {
    forest != [] ==>
    && forest[0].callId == n
    && Numbered(forest[0].children, n + 1)
    && Numbered(forest[1..], n + 1 + Size(forest[0].children))
  }

  /** The first node of an unfolding and what follows it. */
  lemma UnfoldHead(g: Graph, edges: seq<FlameEdge>, i: nat, path: set<string>, depth: nat, next: nat)
      returns (kids: seq<Node>, rest: seq<Node>)
    requires i < |edges| && depth < MAX_DEPTH
    ensures kids == Below(g, edges[i].function_, path, depth, next + 1)
    ensures rest == Unfold(g, edges, i + 1, path, depth, next + 1 + Size(kids))
    ensures Unfold(g, edges, i, path, depth, next) == [Node(next, edges[i], kids)] + rest
  {
    kids := Below(g, edges[i].function_, path, depth, next + 1);
    rest := Unfold(g, edges, i + 1, path, depth, next + 1 + Size(kids));
  }

  lemma UnfoldNone(g: Graph, edges: seq<FlameEdge>, i: nat, path: set<string>, depth: nat, next: nat)
    requires i >= |edges| || depth >= MAX_DEPTH
    ensures Unfold(g, edges, i, path, depth, next) == []
  {
  }

  lemma BelowIs(g: Graph, f: string, path: set<string>, depth: nat, next: nat)
    requires depth < MAX_DEPTH
    ensures f in path ==> Below(g, f, path, depth, next) == []
    ensures f !in path ==> Below(g, f, path, depth, next) == Unfold(g, Children(g, f), 0, path + {f}, depth + 1, next)
    ensures Children(g, f)[0..] == Children(g, f)
    ensures forall cap :: Keep([], cap) == []
  {
    hide Unfold, Children;
  }

  lemma {:induction false} UnfoldNumbered(g: Graph, edges: seq<FlameEdge>, i: nat, path: set<string>, depth: nat,
      next: nat)
    ensures Numbered(Unfold(g, edges, i, path, depth, next), next)
    decreases if depth < MAX_DEPTH then MAX_DEPTH - depth else 0, if i < |edges| then |edges| - i else 0
  {
    hide Unfold, Below, Children, Size, Numbered;
    if depth < MAX_DEPTH && i < |edges| {
      var f := edges[i].function_;
      var kids, rest := UnfoldHead(g, edges, i, path, depth, next);
      BelowIs(g, f, path, depth, next + 1);
      if f in path {
        NumberedNone(next + 1);
      } else {
        UnfoldNumbered(g, Children(g, f), 0, path + {f}, depth + 1, next + 1);
      }
      UnfoldNumbered(g, edges, i + 1, path, depth, next + 1 + Size(kids));
      NumberedCons(Node(next, edges[i], kids), rest);
    } else {
      UnfoldNone(g, edges, i, path, depth, next);
      NumberedNone(next);
    }
  }

  lemma NumberedNone(n: nat)
    ensures Numbered([], n)
  {
  }

  lemma NumberedCons(head: Node, rest: seq<Node>)
    requires Numbered(head.children, head.callId + 1)
    requires Numbered(rest, head.callId + 1 + Size(head.children))
    ensures Numbered([head] + rest, head.callId)
  {
    assert ([head] + rest)[1..] == rest;
  }

  /** Visits in preorder: the depth, the number and the edge of every node. With the depths this fixes the forest. */
  datatype Visit = Visit(depth: nat, callId: nat, edge: FlameEdge)

  ghost function Preorder(forest: seq<Node>, depth: nat): (visits: seq<Visit>)
    ensures |visits| == Size(forest)
  {
    if forest == [] then []
    else
      var root := Visit(depth, forest[0].callId, forest[0].edge);
      [root] + Preorder(forest[0].children, depth + 1) + Preorder(forest[1..], depth)
  }

  /** Preorder visit number `i` is node number `n + i`: every number is used exactly once. */
  lemma {:induction false} PreorderIds(forest: seq<Node>, depth: nat, n: nat)
    requires Numbered(forest, n)
    ensures forall i :: 0 <= i < |Preorder(forest, depth)| ==> Preorder(forest, depth)[i].callId == n + i
  {
    if forest != [] {
      PreorderIds(forest[0].children, depth + 1, n + 1);
      PreorderIds(forest[1..], depth, n + 1 + Size(forest[0].children));
    }
  }

  /** The first `n` elements, or all of them. */
  function Take<T>(s: seq<T>, n: int): (r: seq<T>)
    ensures |r| == if n <= 0 then 0 else if n < |s| then n else |s|
    ensures r <= s
  {
    if n <= 0 then [] else if n < |s| then s[..n] else s
  }

  lemma TakeConcat<T>(v: T, k: seq<T>, r: seq<T>, n: int)
    requires n >= 1
    ensures Take([v] + k + r, n) == [v] + Take(k, n - 1) + Take(r, n - 1 - |k|)
  {
  }

  lemma PreorderOfKept(forest: seq<Node>, depth: nat, cap: nat)
    requires forest != [] && forest[0].callId < cap
    ensures Preorder(Keep(forest, cap), depth)
         == [Visit(depth, forest[0].callId, forest[0].edge)]
          + Preorder(Keep(forest[0].children, cap), depth + 1) + Preorder(Keep(forest[1..], cap), depth)
  {
    assert Keep(forest, cap)[1..] == Keep(forest[1..], cap);
  }

  lemma PreorderOfForest(forest: seq<Node>, depth: nat)
    requires forest != []
    ensures Preorder(forest, depth)
         == [Visit(depth, forest[0].callId, forest[0].edge)]
          + Preorder(forest[0].children, depth + 1) + Preorder(forest[1..], depth)
  {
  }

  lemma NothingKept(forest: seq<Node>, depth: nat, n: nat, cap: nat)
    requires Numbered(forest, n) && (forest == [] || n >= cap)
    ensures Preorder(Keep(forest, cap), depth) == Take(Preorder(forest, depth), cap - n)
  {
  }

  /** The nodes kept below `cap` are the first `cap - n` visits, at their original depths. */
  lemma {:induction false} KeepIsPreorderPrefix(forest: seq<Node>, depth: nat, n: nat, cap: nat)
    requires Numbered(forest, n)
    ensures Preorder(Keep(forest, cap), depth) == Take(Preorder(forest, depth), cap - n)
  {
    hide Keep, Take, Preorder, Size;
    if forest == [] || n >= cap {
      NothingKept(forest, depth, n, cap);
    } else {
      var kids, rest := forest[0].children, forest[1..];
      KeepIsPreorderPrefix(kids, depth + 1, n + 1, cap);
      KeepIsPreorderPrefix(rest, depth, n + 1 + Size(kids), cap);
      PreorderOfKept(forest, depth, cap);
      PreorderOfForest(forest, depth);
      TakeConcat(Visit(depth, n, forest[0].edge), Preorder(kids, depth + 1), Preorder(rest, depth), cap - n);
    }
  }

  lemma {:induction false} KeptSize(forest: seq<Node>, n: nat, cap: nat)
    requires Numbered(forest, n) && n <= cap
    ensures Size(Keep(forest, cap)) == if n + Size(forest) <= cap then Size(forest) else cap - n
    ensures n == cap ==> Keep(forest, cap) == []
  {
    KeepIsPreorderPrefix(forest, 0, n, cap);
  }

  lemma {:induction false} KeepAll(forest: seq<Node>, n: nat, cap: nat)
    requires Numbered(forest, n) && n + Size(forest) <= cap
    ensures Keep(forest, cap) == forest
  {
    if forest != [] {
      KeepAll(forest[0].children, n + 1, cap);
      KeepAll(forest[1..], n + 1 + Size(forest[0].children), cap);
    }
  }

  lemma {:induction false} KeepNumbered(forest: seq<Node>, n: nat, cap: nat)
    requires Numbered(forest, n)
    ensures Numbered(Keep(forest, cap), n)
  {
    if forest != [] && n < cap {
      hide Preorder;
      var kids, rest := forest[0].children, forest[1..];
      KeepNumbered(kids, n + 1, cap);
      KeptSize(kids, n + 1, cap);
      assert Keep(forest, cap)[1..] == Keep(rest, cap);
      if n + 1 + Size(kids) <= cap {
        KeepNumbered(rest, n + 1 + Size(kids), cap);
      } else {
        KeepIsPreorderPrefix(rest, 0, n + 1 + Size(kids), cap);
        assert |Preorder(Keep(rest, cap), 0)| == 0;
      }
    }
  }

  // ----- Shape of the result -----

  ghost function EdgesOf(forest: seq<Node>): seq<FlameEdge> {
    seq(|forest|, i requires 0 <= i < |forest| => forest[i].edge)
  }

  /** Every children list is a prefix of its function's edges, all the way down. */
  ghost predicate FollowsEdges(g: Graph, forest: seq<Node>, edges: seq<FlameEdge>) {
    && EdgesOf(forest) <= edges
    && forall n :: n in forest ==> FollowsEdges(g, n.children, Children(g, n.edge.function_))
  }

  /**
   * Below each node with children its function is not opened again, and the depth stays under the cap.
   */
  ghost predicate CyclesCut(forest: seq<Node>, path: set<string>, depth: nat) {
    forall n :: n in forest ==>
      && depth < MAX_DEPTH
      && (n.children != [] ==> n.edge.function_ !in path)
      && CyclesCut(n.children, path + {n.edge.function_}, depth + 1)
  }

  // ----- Nothing is left out below the cap -----

  /** The edges that the children of a node for `f` should carry. */
  ghost function Wanted(g: Graph, f: string, path: set<string>, depth: nat): seq<FlameEdge> {
    if depth + 1 < MAX_DEPTH && f !in path then Children(g, f) else []
  }

  /** `kids`, numbered from `n`, carry all of `edges`, or the first of them up to the cap. */
  ghost predicate FullOrCut(kids: seq<Node>, edges: seq<FlameEdge>, n: nat, cap: nat) {
    EdgesOf(kids) <= edges && (EdgesOf(kids) == edges || n + Size(kids) == cap)
  }

  /** Every node has all the children it should have, up to the cap. */
  ghost predicate Complete(g: Graph, forest: seq<Node>, path: set<string>, depth: nat, cap: nat) {
    forall n :: n in forest ==>
      && FullOrCut(n.children, Wanted(g, n.edge.function_, path, depth), n.callId + 1, cap)
      && Complete(g, n.children, path + {n.edge.function_}, depth + 1, cap)
  }

  lemma {:induction false} UnfoldEdges(g: Graph, edges: seq<FlameEdge>, i: nat, path: set<string>, depth: nat,
      next: nat)
    requires i <= |edges|
    ensures EdgesOf(Unfold(g, edges, i, path, depth, next)) == if depth < MAX_DEPTH then edges[i..] else []
    decreases |edges| - i
  {
    hide Unfold, Below, Size;
    if depth < MAX_DEPTH && i < |edges| {
      var kids, rest := UnfoldHead(g, edges, i, path, depth, next);
      UnfoldEdges(g, edges, i + 1, path, depth, next + 1 + Size(kids));
      assert EdgesOf([Node(next, edges[i], kids)] + rest) == [edges[i]] + EdgesOf(rest) == edges[i..];
    } else {
      UnfoldNone(g, edges, i, path, depth, next);
      assert EdgesOf([]) == [];
    }
  }

  lemma BelowEdges(g: Graph, f: string, path: set<string>, depth: nat, next: nat, cap: nat)
    requires depth < MAX_DEPTH && next <= cap
    ensures FullOrCut(Keep(Below(g, f, path, depth, next), cap), Wanted(g, f, path, depth), next, cap)
  {
    if f in path {
      CutAtOnce([], next, cap);
    } else {
      hide Unfold, Keep, FullOrCut, Children;
      UnfoldEdges(g, Children(g, f), 0, path + {f}, depth + 1, next);
      UnfoldNumbered(g, Children(g, f), 0, path + {f}, depth + 1, next);
      assert Children(g, f)[0..] == Children(g, f);
      KeptEdges(Below(g, f, path, depth, next), next, cap);
    }
  }

  lemma {:induction false} KeptEdges(forest: seq<Node>, n: nat, cap: nat)
    requires Numbered(forest, n) && n <= cap
    ensures FullOrCut(Keep(forest, cap), EdgesOf(forest), n, cap)
  {
    if forest != [] && n < cap {
      var kids, rest := forest[0].children, forest[1..];
      KeptSize(kids, n + 1, cap);
      hide Preorder, FullOrCut;
      assert EdgesOf(forest)[1..] == EdgesOf(rest);
      if n + 1 + Size(kids) <= cap {
        KeepAll(kids, n + 1, cap);
        KeptEdges(rest, n + 1 + Size(kids), cap);
        FullCons(Node(n, forest[0].edge, Keep(kids, cap)), Keep(rest, cap), EdgesOf(forest), n, cap);
      } else {
        KeepIsPreorderPrefix(rest, 0, n + 1 + Size(kids), cap);
        CutHere(Node(n, forest[0].edge, Keep(kids, cap)), EdgesOf(forest), n, cap);
      }
    } else {
      CutAtOnce(EdgesOf(forest), n, cap);
    }
  }

  lemma FullCons(head: Node, rest: seq<Node>, edges: seq<FlameEdge>, n: nat, cap: nat)
    requires edges != [] && head.edge == edges[0]
    requires FullOrCut(rest, edges[1..], n + 1 + Size(head.children), cap)
    ensures FullOrCut([head] + rest, edges, n, cap)
  {
    assert ([head] + rest)[1..] == rest;
    assert EdgesOf([head] + rest) == [edges[0]] + EdgesOf(rest);
    assert edges == [edges[0]] + edges[1..];
  }

  lemma CutHere(head: Node, edges: seq<FlameEdge>, n: nat, cap: nat)
    requires edges != [] && head.edge == edges[0] && n + 1 + Size(head.children) == cap
    ensures FullOrCut([head], edges, n, cap)
  {
    assert [head][1..] == [] && EdgesOf([head]) == [edges[0]];
  }

  lemma CutAtOnce(edges: seq<FlameEdge>, n: nat, cap: nat)
    requires edges == [] || n == cap
    ensures FullOrCut([], edges, n, cap)
  {
    assert EdgesOf([]) == [];
  }

  /** The capped unfolding `f` has the promised shape. */
  lemma {:induction false} UnfoldShape(
      g: Graph, edges: seq<FlameEdge>, i: nat, path: set<string>, depth: nat, next: nat, cap: nat)
      returns (f: seq<Node>)
    ensures f == Keep(Unfold(g, edges, i, path, depth, next), cap)
    ensures i <= |edges| ==> FollowsEdges(g, f, edges[i..])
    ensures CyclesCut(f, path, depth) && Complete(g, f, path, depth, cap)
    decreases if depth < MAX_DEPTH then MAX_DEPTH - depth else 0, if i < |edges| then |edges| - i else 0, 1
  {
    hide Unfold, Below, Size, Keep, FollowsEdges, CyclesCut, Children, FullOrCut, Complete, Wanted;
    if depth < MAX_DEPTH && i < |edges| && next < cap {
      var from := Unfold(g, edges, i, path, depth, next);
      var kids, rest, keptKids, keptRest := UnfoldStep(g, edges, i, path, depth, next, from, cap);
      var k := BelowShape(g, edges[i].function_, path, depth, next + 1, cap);
      var r := UnfoldShape(g, edges, i + 1, path, depth, next + 1 + Size(kids), cap);
      f := [Node(next, edges[i], k)] + r;
      assert edges[i..][0] == edges[i] && edges[i..][1..] == edges[i + 1..];
      ShapeCons(g, next, k, r, edges[i..], path, depth, cap);
    } else {
      f := [];
      UnfoldEnd(g, edges, i, path, depth, next, cap);
      EmptyShape(g, if i <= |edges| then edges[i..] else [], path, depth, cap);
    }
  }

  lemma {:induction false} BelowShape(g: Graph, f: string, path: set<string>, depth: nat, next: nat, cap: nat)
      returns (kids: seq<Node>)
    requires depth < MAX_DEPTH && next <= cap
    ensures kids == Keep(Below(g, f, path, depth, next), cap)
    ensures FollowsEdges(g, kids, Children(g, f))
    ensures CyclesCut(kids, path + {f}, depth + 1)
    ensures kids != [] ==> f !in path
    ensures FullOrCut(kids, Wanted(g, f, path, depth), next, cap) && Complete(g, kids, path + {f}, depth + 1, cap)
    decreases MAX_DEPTH - depth, 0, 0
  {
    hide Unfold, Below, Keep, FollowsEdges, CyclesCut, Children, FullOrCut, Complete, Wanted;
    BelowIs(g, f, path, depth, next);
    BelowEdges(g, f, path, depth, next, cap);
    if f in path {
      kids := [];
      EmptyShape(g, Children(g, f), path + {f}, depth + 1, cap);
    } else {
      kids := UnfoldShape(g, Children(g, f), 0, path + {f}, depth + 1, next, cap);
    }
  }

  lemma ShapeCons(g: Graph, id: nat, kids: seq<Node>, rest: seq<Node>, edges: seq<FlameEdge>, path: set<string>,
      depth: nat, cap: nat)
    requires edges != [] && depth < MAX_DEPTH
    requires FollowsEdges(g, kids, Children(g, edges[0].function_))
    requires CyclesCut(kids, path + {edges[0].function_}, depth + 1)
    requires kids != [] ==> edges[0].function_ !in path
    requires FollowsEdges(g, rest, edges[1..]) && CyclesCut(rest, path, depth) && Complete(g, rest, path, depth, cap)
    requires FullOrCut(kids, Wanted(g, edges[0].function_, path, depth), id + 1, cap)
    requires Complete(g, kids, path + {edges[0].function_}, depth + 1, cap)
    ensures FollowsEdges(g, [Node(id, edges[0], kids)] + rest, edges)
    ensures CyclesCut([Node(id, edges[0], kids)] + rest, path, depth)
    ensures Complete(g, [Node(id, edges[0], kids)] + rest, path, depth, cap)
  {
    hide FullOrCut, Wanted;
    var head := Node(id, edges[0], kids);
    var f := [head] + rest;
    assert edges == [edges[0]] + edges[1..];
    assert EdgesOf(f) == [edges[0]] + EdgesOf(rest);
    assert forall n :: n in f ==> n == head || n in rest;
  }

  lemma EmptyShape(g: Graph, edges: seq<FlameEdge>, path: set<string>, depth: nat, cap: nat)
    ensures FollowsEdges(g, [], edges) && CyclesCut([], path, depth) && Complete(g, [], path, depth, cap)
  {
    assert EdgesOf([]) == [];
  }

  /** A chain of nodes, each a child of the one before, starting at a root. */
  ghost predicate IsChain(forest: seq<Node>, chain: seq<Node>) {
    chain == [] || (chain[0] in forest && IsChain(chain[0].children, chain[1..]))
  }

  /** The nodes of the chain that have children carry pairwise distinct functions. */
  ghost predicate OpenedOnce(chain: seq<Node>) {
    forall i, j :: 0 <= i < j < |chain| && chain[i].children != [] && chain[j].children != [] ==>
      chain[i].edge.function_ != chain[j].edge.function_
  }

  /** Along a chain, nodes with children have distinct functions and the cap bounds the length. */
  lemma {:induction false} ChainProperties(forest: seq<Node>, path: set<string>, depth: nat, chain: seq<Node>)
    requires CyclesCut(forest, path, depth) && IsChain(forest, chain) && depth <= MAX_DEPTH
    ensures |chain| <= MAX_DEPTH - depth
    ensures forall i :: 0 <= i < |chain| && chain[i].children != [] ==> chain[i].edge.function_ !in path
    ensures OpenedOnce(chain)
    decreases |chain|
  {
    if chain != [] {
      ChainProperties(chain[0].children, path + {chain[0].edge.function_}, depth + 1, chain[1..]);
    }
  }

  /** What `Complete` says about the end of a chain. */
  lemma {:induction false} ChainEnd(g: Graph, forest: seq<Node>, path: set<string>, depth: nat, cap: nat,
      chain: seq<Node>)
    requires Complete(g, forest, path, depth, cap) && IsChain(forest, chain) && chain != []
    ensures var n := chain[|chain| - 1];
            var f := n.edge.function_;
            var opens := depth + |chain| < MAX_DEPTH && f !in path
                         && forall i :: 0 <= i < |chain| - 1 ==> chain[i].edge.function_ != f;
            FullOrCut(n.children, if opens then Children(g, f) else [], n.callId + 1, cap)
    decreases |chain|
  {
    hide FullOrCut, Children;
    if |chain| > 1 {
      ChainEnd(g, chain[0].children, path + {chain[0].edge.function_}, depth + 1, cap, chain[1..]);
    }
  }

  /** The numbers below a node of the tree stay within those of the tree. */
  lemma {:induction false} NodeWithin(forest: seq<Node>, n: nat, x: Node)
    requires Numbered(forest, n) && x in forest
    ensures n <= x.callId && x.callId + 1 + Size(x.children) <= n + Size(forest) && Numbered(x.children, x.callId + 1)
  {
    if x != forest[0] { NodeWithin(forest[1..], n + 1 + Size(forest[0].children), x); }
  }

  lemma {:induction false} ChainWithin(forest: seq<Node>, n: nat, chain: seq<Node>)
    requires Numbered(forest, n) && IsChain(forest, chain) && chain != []
    ensures var x := chain[|chain| - 1]; x.callId + 1 + Size(x.children) <= n + Size(forest)
    decreases |chain|
  {
    NodeWithin(forest, n, chain[0]);
    if |chain| > 1 { ChainWithin(chain[0].children, chain[0].callId + 1, chain[1..]); }
  }

  // ----- The whole request -----

  /** The edges of `parent`, in row order. */
  ghost function RowsOf(rows: seq<EdgeRow>, parent: string): seq<FlameEdge> {
    if rows == [] then []
    else (if rows[0].parent == parent then [rows[0].edge] else []) + RowsOf(rows[1..], parent)
  }

  lemma {:induction false} RowsOfSnoc(rows: seq<EdgeRow>, r: EdgeRow, parent: string)
    ensures RowsOf(rows + [r], parent) == RowsOf(rows, parent) + if r.parent == parent then [r.edge] else []
  {
    if rows == [] {
      assert rows + [r] == [r] && [r][1..] == [];
    } else {
      RowsOfSnoc(rows[1..], r, parent);
      assert (rows + [r])[1..] == rows[1..] + [r];
    }
  }

  /** Each edge occurs among its parent's as often as among the rows. */
  lemma {:induction false} RowsOfCounts(rows: seq<EdgeRow>, parent: string, e: FlameEdge)
    ensures multiset(RowsOf(rows, parent))[e] == multiset(rows)[EdgeRow(parent, e)]
  {
    if rows != [] {
      RowsOfCounts(rows[1..], parent, e);
      assert rows == [rows[0]] + rows[1..];
    }
  }

  /** `g` lists under every name the edges of the rows with that parent, in some order of falling wall time. */
  ghost predicate IsSortedAdjacency(rows: seq<EdgeRow>, g: Graph) {
    && (forall p, e :: multiset(Children(g, p))[e] == multiset(rows)[EdgeRow(p, e)])
    && (forall p, i, j :: 0 <= i < j < |Children(g, p)| ==>
          Children(g, p)[i].totalWallMs >= Children(g, p)[j].totalWallMs)
  }

  method CollectEdges(rows: seq<EdgeRow>) returns (childEdges: Graph)
    ensures forall p :: Children(childEdges, p) == RowsOf(rows, p)
  {
    hide RowsOf;
    childEdges := map[];
    RowsOfNone();
    assert rows[..0] == [];
    for i := 0 to |rows|
      invariant forall p :: Children(childEdges, p) == RowsOf(rows[..i], p)
    {
      var r := rows[i];
      assert rows[..i + 1] == rows[..i] + [r];
      forall p ensures RowsOf(rows[..i + 1], p) == RowsOf(rows[..i], p) + if r.parent == p then [r.edge] else [] {
        RowsOfSnoc(rows[..i], r, p);
      }
      ghost var before := childEdges;
      childEdges := childEdges[r.parent := Children(childEdges, r.parent) + [r.edge]];
      forall p ensures Children(childEdges, p) == RowsOf(rows[..i + 1], p) {
        assert Children(before, p) == RowsOf(rows[..i], p);
        if p != r.parent { assert Children(childEdges, p) == Children(before, p); }
      }
    }
    assert rows[..|rows|] == rows;
  }

  lemma RowsOfNone()
    ensures forall p :: RowsOf([], p) == []
  {
  }

  method SortEdges(g: Graph) returns (sorted: Graph)
    ensures sorted.Keys == g.Keys
    ensures forall p :: multiset(Children(sorted, p)) == multiset(Children(g, p))
    ensures forall p, i, j :: 0 <= i < j < |Children(sorted, p)| ==>
      Children(sorted, p)[i].totalWallMs >= Children(sorted, p)[j].totalWallMs
  {
    sorted := g;
    var todo := g.Keys;
    while todo != {}
      invariant todo <= g.Keys == sorted.Keys
      invariant forall p :: p in todo ==> sorted[p] == g[p]
      invariant forall p :: multiset(Children(sorted, p)) == multiset(Children(g, p))
      invariant forall p, i, j :: p !in todo && 0 <= i < j < |Children(sorted, p)| ==>
        Children(sorted, p)[i].totalWallMs >= Children(sorted, p)[j].totalWallMs
    {
      var parent :| parent in todo;
      var slowestFirst := (a: FlameEdge, b: FlameEdge) => a.totalWallMs >= b.totalWallMs;
      var edges := SortSlice(slowestFirst, sorted[parent]);
      assert forall i, j :: 0 <= i < j < |edges| ==> slowestFirst(edges[i], edges[j]);
      sorted := sorted[parent := edges];
      todo := todo - {parent};
    }
  }

  /** The tree built from a sorted adjacency. */
  ghost predicate IsTree(g: Graph, tree: seq<Node>) {
    tree == Keep(Unfold(g, Children(g, ""), 0, {}, 0, 0), MAX_NODES)
  }

  /** The tree for a list of edge rows. */
  method FlameTree(rows: seq<EdgeRow>) returns (tree: seq<Node>)
    ensures exists g :: IsSortedAdjacency(rows, g) && IsTree(g, tree)
  {
    var childEdges := CollectEdges(rows);
    forall p, e ensures multiset(Children(childEdges, p))[e] == multiset(rows)[EdgeRow(p, e)] {
      RowsOfCounts(rows, p, e);
    }
    childEdges := SortEdges(childEdges);
    assert IsSortedAdjacency(rows, childEdges);
    var b := new Builder(childEdges);
    tree := b.Build(Children(childEdges, ""), 0);
    assert IsTree(childEdges, tree);
  }

  /**
   * What a reader of the tree can rely on, for every graph, cyclic or not: it is the first 4000
   * nodes in preorder of the depth-24 cycle-cut unfolding, or all of it when it is no larger; nodes
   * are numbered 0, 1, 2, ... in preorder; every children list is a prefix of its function's edges;
   * and on every chain from a root the nodes with children have distinct functions.
   */
  lemma TreeProperties(g: Graph, tree: seq<Node>)
    requires IsTree(g, tree)
    ensures var whole := Unfold(g, Children(g, ""), 0, {}, 0, 0);
            && Preorder(tree, 0) == Take(Preorder(whole, 0), MAX_NODES)
            && (Size(whole) <= MAX_NODES ==> tree == whole)
            && Size(tree) == Capped(Size(whole))
    ensures forall i :: 0 <= i < Size(tree) ==> Preorder(tree, 0)[i].callId == i
    ensures FollowsEdges(g, tree, Children(g, ""))
    ensures forall chain: seq<Node> :: IsChain(tree, chain) ==> |chain| <= MAX_DEPTH && OpenedOnce(chain)
  {
    hide Unfold, Keep, Preorder, Take, Children, FollowsEdges, CyclesCut, IsChain, OpenedOnce, Numbered;
    var whole := Unfold(g, Children(g, ""), 0, {}, 0, 0);
    UnfoldNumbered(g, Children(g, ""), 0, {}, 0, 0);
    KeepIsPreorderPrefix(whole, 0, 0, MAX_NODES);
    KeptSize(whole, 0, MAX_NODES);
    if Size(whole) <= MAX_NODES { KeepAll(whole, 0, MAX_NODES); }
    KeepNumbered(whole, 0, MAX_NODES);
    PreorderIds(tree, 0, 0);
    assert Children(g, "")[0..] == Children(g, "");
    var _ := UnfoldShape(g, Children(g, ""), 0, {}, 0, 0, MAX_NODES);
    forall chain: seq<Node> | IsChain(tree, chain) ensures |chain| <= MAX_DEPTH && OpenedOnce(chain) {
      ChainProperties(tree, {}, 0, chain);
    }
  }

  /**
   * Nothing is left out, said on the nodes of the tree: the roots carry the edges of the empty name; the
   * node at the end of a chain carries all edges of its function when the chain is shorter than the depth
   * cap and no earlier node of it has that function, and none otherwise; and only nodes that would be
   * numbered past the node cap are missing, so none in a tree of fewer nodes.
   */
  lemma TreeIsWhole(g: Graph, tree: seq<Node>)
    requires IsTree(g, tree)
    ensures EdgesOf(tree) <= Children(g, "")
    ensures EdgesOf(tree) == Children(g, "") || Size(tree) == MAX_NODES
    ensures forall chain: seq<Node> :: IsChain(tree, chain) && chain != [] ==>
      var n := chain[|chain| - 1];
      var f := n.edge.function_;
      var opens := |chain| < MAX_DEPTH && forall i :: 0 <= i < |chain| - 1 ==> chain[i].edge.function_ != f;
      var wanted := if opens then Children(g, f) else [];
      && EdgesOf(n.children) <= wanted
      && (EdgesOf(n.children) == wanted || n.callId + 1 + Size(n.children) == MAX_NODES == Size(tree))
  {
    hide Unfold, Keep, Preorder, Children, FollowsEdges, CyclesCut, Complete, IsChain, Numbered;
    assert Children(g, "")[0..] == Children(g, "");
    UnfoldEdges(g, Children(g, ""), 0, {}, 0, 0);
    UnfoldNumbered(g, Children(g, ""), 0, {}, 0, 0);
    var whole := Unfold(g, Children(g, ""), 0, {}, 0, 0);
    KeptEdges(whole, 0, MAX_NODES);
    KeptSize(whole, 0, MAX_NODES);
    KeepNumbered(whole, 0, MAX_NODES);
    var _ := UnfoldShape(g, Children(g, ""), 0, {}, 0, 0, MAX_NODES);
    forall chain: seq<Node> | IsChain(tree, chain) && chain != []
      ensures var n := chain[|chain| - 1];
              var f := n.edge.function_;
              var opens := |chain| < MAX_DEPTH && forall i :: 0 <= i < |chain| - 1 ==> chain[i].edge.function_ != f;
              var wanted := if opens then Children(g, f) else [];
              && EdgesOf(n.children) <= wanted
              && (EdgesOf(n.children) == wanted || n.callId + 1 + Size(n.children) == MAX_NODES == Size(tree))
    {
      ChainEnd(g, tree, {}, 0, MAX_NODES, chain);
      ChainWithin(tree, 0, chain);
    }
  }
}
