/** The hierarchy of filters over the per-table filters (bloom_hierarchy/bloomTree.cpp, bloom_hierarchy/node.cpp). */
module BloomTrees {
  import opened BloomValues

  /** The file name of every node that is not a leaf. */
  const MEMORY := "Memory"

  datatype Node = Node(children: seq<Node>, filter: Bits, filename: string)

  function Leaf(filter: Bits, filename: string): Node { Node([], filter, filename) }

  // ----- the files below a node, and its ends -----

  function Files(n: Node): seq<Node> {
    if n.filename != MEMORY then [n] else ForestFiles(n.children)
  }

  function ForestFiles(ns: seq<Node>): seq<Node> {
    if ns == [] then [] else Files(ns[0]) + ForestFiles(ns[1..])
  }

  /** Where the descent ends: leaves, and inner nodes that got no children. */
  function Ends(n: Node): seq<Node> {
    if n.filename != MEMORY || n.children == [] then [n] else ForestEnds(n.children)
  }

  function ForestEnds(ns: seq<Node>): seq<Node> {
    if ns == [] then [] else Ends(ns[0]) + ForestEnds(ns[1..])
  }

  ghost predicate SetIn(ns: seq<Node>, p: nat)
    requires p < BITS
  {
    exists n | n in ns :: n.filter[p]
  }

  ghost predicate IsUnion(b: Bits, ns: seq<Node>) {
    forall p: nat | p < BITS :: b[p] <==> SetIn(ns, p)
  }

  /** Every filter in the tree is the OR of the filters at the ends below it. */
  ghost predicate OrTree(n: Node) {
    IsUnion(n.filter, Ends(n)) && (n.filename == MEMORY ==> OrForest(n.children))
  }

  ghost predicate OrForest(ns: seq<Node>) {
    ns != [] ==> OrTree(ns[0]) && OrForest(ns[1..])
  }

  lemma SetInConcat(a: seq<Node>, b: seq<Node>, p: nat)
    requires p < BITS
    ensures SetIn(a + b, p) <==> SetIn(a, p) || SetIn(b, p)
  {
  }

  lemma {:induction false} UnionOfEnds(ns: seq<Node>, p: nat)
    requires p < BITS && OrForest(ns)
    ensures SetIn(ns, p) <==> SetIn(ForestEnds(ns), p)
  {
    if ns != [] {
      UnionOfEnds(ns[1..], p);
      assert ns == [ns[0]] + ns[1..];
      SetInConcat([ns[0]], ns[1..], p);
      SetInConcat(Ends(ns[0]), ForestEnds(ns[1..]), p);
      assert SetIn([ns[0]], p) <==> ns[0].filter[p];
    }
  }

  lemma Associative<T>(a: seq<T>, b: seq<T>, c: seq<T>)
    ensures a + b + c == a + (b + c)
  {
  }

  lemma {:induction false} ForestConcat(a: seq<Node>, b: seq<Node>)
    ensures ForestFiles(a + b) == ForestFiles(a) + ForestFiles(b)
    ensures OrForest(a + b) <==> OrForest(a) && OrForest(b)
  {
    if a == [] {
      assert a + b == b;
    } else {
      ForestConcat(a[1..], b);
      assert (a + b)[1..] == a[1..] + b;
      Associative(Files(a[0]), ForestFiles(a[1..]), ForestFiles(b));
    }
  }

  // ----- how many levels createLevel makes -----

  function Groups(n: nat, ratio: nat): nat
    requires ratio >= 1
  {
    n / ratio + 1
  }

  function LevelSize(n: nat, ratio: nat, k: nat): nat
    requires ratio >= 1
  {
    if k == 0 then n else Groups(LevelSize(n, ratio, k - 1), ratio)
  }

  lemma {:induction false} LevelSizeShift(n: nat, ratio: nat, k: nat)
    requires ratio >= 1
    ensures LevelSize(Groups(n, ratio), ratio, k) == LevelSize(n, ratio, k + 1)
  {
    if k > 0 {
      LevelSizeShift(n, ratio, k - 1);
    }
  }

  lemma GroupsShrink(n: nat, ratio: nat)
    requires ratio >= 3 && n >= 2
    ensures Groups(n, ratio) < n
  {
  }

  lemma {:induction false} LevelsEnd(n: nat, ratio: nat) returns (k: nat)
    requires ratio >= 1 && (ratio >= 3 || n < ratio)
    ensures k >= 1 && LevelSize(n, ratio, k) == 1
    decreases n
  {
    if n < ratio {
      k := 1;
      assert n / ratio == 0;
      assert LevelSize(n, ratio, 1) == Groups(LevelSize(n, ratio, 0), ratio);
    } else {
      GroupsShrink(n, ratio);
      var j := LevelsEnd(Groups(n, ratio), ratio);
      LevelSizeShift(n, ratio, j);
      k := j + 1;
    }
  }

  lemma {:induction false} LevelsStay(n: nat, ratio: nat, k: nat)
    requires 1 <= ratio < 3 && ratio <= n && k >= 1
    ensures LevelSize(n, ratio, k) >= 2
  {
    if k > 1 {
      LevelsStay(n, ratio, k - 1);
    } else {
      assert LevelSize(n, ratio, 0) == n;
    }
  }

  /** createLevel reaches a level of one node, and so ends, exactly on these inputs. */
  lemma EndsExactly(n: nat, ratio: nat)
    requires ratio >= 1
    ensures (exists k: nat :: k >= 1 && LevelSize(n, ratio, k) == 1) <==> ratio >= 3 || n < ratio
  {
    if ratio >= 3 || n < ratio {
      var k := LevelsEnd(n, ratio);
    } else {
      forall k: nat | k >= 1 ensures LevelSize(n, ratio, k) != 1 {
        LevelsStay(n, ratio, k);
      }
    }
  }

  // ----- building -----

  /** Node::addchildren: up to `ratio` nodes from position i on. */
  method AddChildren(i: nat, ratio: nat, nodes: seq<Node>) returns (children: seq<Node>)
    ensures children == nodes[Clip(i, nodes)..Clip(i + ratio, nodes)]
  {
    var j := i;
    children := [];
    while j < i + ratio && j < |nodes|
      invariant i <= j <= i + ratio && (j <= |nodes| || j == i)
      invariant children == nodes[Clip(i, nodes)..Clip(j, nodes)]
    {
      children := children + [nodes[j]];
      j := j + 1;
    }
  }

  function Clip(i: nat, nodes: seq<Node>): (k: nat)
    ensures k <= |nodes|
  {
    if i < |nodes| then i else |nodes|
  }

  method OrChildren(children: seq<Node>) returns (b: Bits)
    ensures IsUnion(b, children)
  {
    b := EMPTY;
    for i := 0 to |children|
      invariant IsUnion(b, children[..i])
    {
      ghost var was := b;
      b := Or(b, children[i].filter);
      forall p: nat | p < BITS ensures b[p] <==> SetIn(children[..i + 1], p) {
        assert children[..i + 1] == children[..i] + [children[i]];
        SetInConcat(children[..i], [children[i]], p);
        assert SetIn([children[i]], p) <==> children[i].filter[p];
        assert was[p] <==> SetIn(children[..i], p);
      }
    }
    assert children[..|children|] == children;
  }

  /** Group i of a level over these nodes. */
  ghost predicate IsGroup(n: Node, nodes: seq<Node>, ratio: nat, i: nat) {
    && n.filename == MEMORY && n.children == nodes[Clip(i * ratio, nodes)..Clip(i * ratio + ratio, nodes)]
    && IsUnion(n.filter, n.children)
  }

  ghost predicate IsLevel(level: seq<Node>, nodes: seq<Node>, ratio: nat)
    requires ratio >= 1
  {
    |level| == Groups(|nodes|, ratio) && forall i: nat | i < |level| :: IsGroup(level[i], nodes, ratio, i)
  }

  /** The root is reached by making levels until one has a single node. */
  ghost predicate BuiltFrom(root: Node, nodes: seq<Node>, ratio: nat)
    requires ratio >= 1
    decreases |nodes|
  {
    if |nodes| < ratio then IsLevel([root], nodes, ratio)
    else exists level :: |level| < |nodes| && IsLevel(level, nodes, ratio) && BuiltFrom(root, level, ratio)
  }

  /** One inner node of a new level. */
  method NewInner(i: nat, ratio: nat, nodes: seq<Node>) returns (n: Node)
    requires OrForest(nodes[Clip(i, nodes)..Clip(i + ratio, nodes)])
    ensures n.filename == MEMORY && n.children == nodes[Clip(i, nodes)..Clip(i + ratio, nodes)]
            && IsUnion(n.filter, n.children)
    ensures OrTree(n)
  {
    var children := AddChildren(i, ratio, nodes);
    var b := OrChildren(children);
    n := Node(children, b, MEMORY);
    forall p: nat | p < BITS ensures b[p] <==> SetIn(Ends(n), p) {
      UnionOfEnds(children, p);
      assert b[p] <==> SetIn(children, p);
      assert children == [] ==> Ends(n) == [n] && (SetIn([n], p) <==> b[p]);
    }
  }

  /** bloomTree::createLevel. The precondition is exactly when it ends; see EndsExactly. */
  method CreateLevel(nodes: seq<Node>, ratio: nat) returns (root: Node)
    requires ratio >= 1 && (ratio >= 3 || |nodes| < ratio)
    requires OrForest(nodes)
    ensures BuiltFrom(root, nodes, ratio)
    ensures OrTree(root) && Files(root) == ForestFiles(nodes)
    decreases |nodes|
  {
    hide *;
    var levelNodes := GroupNodes(nodes, ratio);
    GroupsCover(nodes, ratio);
    if |levelNodes| > 1 {
      GroupsShrink(|nodes|, ratio);
      root := CreateLevel(levelNodes, ratio);
    } else {
      root := levelNodes[0];
      assert levelNodes == [root];
      SmallForests(root);
    }
    NextLevel(root, levelNodes, nodes, ratio);
  }

  /** Below n, every node that is not one of the leaves has for filter the OR of its children's filters; without
      children no bit is set. */
  ghost predicate OrOfChildren(n: Node, leaves: seq<Node>) {
    || n in leaves
    || (IsUnion(n.filter, n.children) && forall i | 0 <= i < |n.children| :: OrOfChildren(n.children[i], leaves))
  }

  lemma ChildlessHasNoBit(n: Node, leaves: seq<Node>, p: nat)
    requires OrOfChildren(n, leaves) && n !in leaves && n.children == [] && p < BITS
    ensures !n.filter[p]
  {
  }

  lemma {:induction false} BuiltIsOrOfChildren(root: Node, nodes: seq<Node>, leaves: seq<Node>, ratio: nat)
    requires ratio >= 1 && BuiltFrom(root, nodes, ratio)
    requires forall i | 0 <= i < |nodes| :: OrOfChildren(nodes[i], leaves)
    ensures OrOfChildren(root, leaves)
    decreases |nodes|
  {
    hide IsUnion;
    if |nodes| < ratio {
      assert IsGroup([root][0], nodes, ratio, 0);
      assert root.children == nodes[Clip(0, nodes)..Clip(ratio, nodes)];
    } else {
      var level :| |level| < |nodes| && IsLevel(level, nodes, ratio) && BuiltFrom(root, level, ratio);
      forall i | 0 <= i < |level| ensures OrOfChildren(level[i], leaves) {
        assert IsGroup(level[i], nodes, ratio, i);
      }
      BuiltIsOrOfChildren(root, level, leaves, ratio);
    }
  }

  lemma NextLevel(root: Node, level: seq<Node>, nodes: seq<Node>, ratio: nat)
    requires ratio >= 1 && IsLevel(level, nodes, ratio)
    requires if |nodes| < ratio then level == [root] else |level| < |nodes| && BuiltFrom(root, level, ratio)
    ensures BuiltFrom(root, nodes, ratio)
  {
    hide IsLevel;
  }

  /** The loop of createLevel: one more group than the quotient, the last one possibly empty. */
  method GroupNodes(nodes: seq<Node>, ratio: nat) returns (levelNodes: seq<Node>)
    requires ratio >= 1 && OrForest(nodes)
    ensures IsLevel(levelNodes, nodes, ratio) && |levelNodes| == Groups(|nodes|, ratio)
    ensures OrForest(levelNodes) && ForestFiles(levelNodes) == ForestFiles(nodes)
  {
    hide *;
    GroupsCover(nodes, ratio);
    SmallForests(Leaf(EMPTY, MEMORY));
    levelNodes := [];
    var loop := |nodes| / ratio;
    for i := 0 to loop + 1
      invariant |levelNodes| == i
      invariant forall j: nat | j < i :: IsGroup(levelNodes[j], nodes, ratio, j)
      invariant OrForest(levelNodes)
      invariant ForestFiles(levelNodes) == ForestFiles(nodes[..Clip(i * ratio, nodes)])
    {
      var n := NextGroup(i, ratio, nodes);
      ForestConcat(levelNodes, [n]);
      levelNodes := levelNodes + [n];
    }
    WholeLevel(levelNodes, nodes, ratio);
  }

  lemma WholeLevel(level: seq<Node>, nodes: seq<Node>, ratio: nat)
    requires ratio >= 1 && |level| == |nodes| / ratio + 1
    requires forall i: nat | i < |level| :: IsGroup(level[i], nodes, ratio, i)
    ensures IsLevel(level, nodes, ratio)
  {
    hide IsGroup;
  }

  lemma SmallForests(n: Node)
    ensures ForestFiles([]) == [] && OrForest([])
    ensures ForestFiles([n]) == Files(n) && (OrForest([n]) <==> OrTree(n))
  {
  }

  lemma GroupsCover(nodes: seq<Node>, ratio: nat)
    requires ratio >= 1
    ensures nodes[..Clip(0 * ratio, nodes)] == []
    ensures nodes[..Clip((|nodes| / ratio + 1) * ratio, nodes)] == nodes
    ensures |nodes| / ratio + 1 == Groups(|nodes|, ratio)
    ensures |nodes| < ratio <==> Groups(|nodes|, ratio) == 1
  {
  }

  method NextGroup(i: nat, ratio: nat, nodes: seq<Node>) returns (n: Node)
    requires ratio >= 1 && OrForest(nodes)
    ensures IsGroup(n, nodes, ratio, i) && OrTree(n) && OrForest([n])
    ensures ForestFiles(nodes[..Clip(i * ratio, nodes)]) + ForestFiles([n]) ==
            ForestFiles(nodes[..Clip((i + 1) * ratio, nodes)])
  {
    assert (i + 1) * ratio == i * ratio + ratio;
    var lo, hi := Clip(i * ratio, nodes), Clip(i * ratio + ratio, nodes);
    assert nodes == nodes[..hi] + nodes[hi..] && nodes[..hi] == nodes[..lo] + nodes[lo..hi];
    ForestConcat(nodes[..hi], nodes[hi..]);
    ForestConcat(nodes[..lo], nodes[lo..hi]);
    n := NewInner(i * ratio, ratio, nodes);
    assert ForestFiles([n]) == Files(n) + [];
  }

  // ----- searching -----

  function Found(hash: Hash, n: Node, value: string): seq<Node> {
    if n.filename != MEMORY then [n]
    else if Accepts(hash, n.filter, value) then ForestFound(hash, n.children, value)
    else []
  }

  function ForestFound(hash: Hash, ns: seq<Node>, value: string): seq<Node> {
    if ns == [] then [] else Found(hash, ns[0], value) + ForestFound(hash, ns[1..], value)
  }

  /** The inner nodes a search goes through. */
  function Passed(hash: Hash, n: Node, value: string): nat {
    if n.filename != MEMORY || !Accepts(hash, n.filter, value) then 0
    else 1 + ForestPassed(hash, n.children, value)
  }

  function ForestPassed(hash: Hash, ns: seq<Node>, value: string): nat {
    if ns == [] then 0 else Passed(hash, ns[0], value) + ForestPassed(hash, ns[1..], value)
  }

  function Names(ns: seq<Node>): (r: seq<string>)
    ensures |r| == |ns| && forall i | 0 <= i < |ns| :: r[i] == ns[i].filename
  {
    seq(|ns|, i requires 0 <= i < |ns| => ns[i].filename)
  }

  class BloomTree {
    const hash: Hash
    const ratio: nat
    var root: Node
    var leafNodes: seq<Node>
    var bloomNames: seq<string>
    var foundInHierarchy: nat

    constructor (hash: Hash, ratio: nat)
      ensures this.hash == hash && this.ratio == ratio
      ensures leafNodes == [] && bloomNames == [] && foundInHierarchy == 0
    {
      this.hash, this.ratio := hash, ratio;
      root, leafNodes, bloomNames, foundInHierarchy := Node([], EMPTY, MEMORY), [], [], 0;
    }

    method CreateLeafLevel(filter: Bits, filename: string)
      modifies this`leafNodes
      ensures leafNodes == old(leafNodes) + [Leaf(filter, filename)]
    {
      leafNodes := leafNodes + [Leaf(filter, filename)];
    }

    method CreateTree()
      requires ratio >= 1 && (ratio >= 3 || |leafNodes| < ratio)
      requires forall n | n in leafNodes :: n.children == []
      modifies this`root
      ensures BuiltFrom(root, leafNodes, ratio) && OrOfChildren(root, leafNodes)
      ensures OrTree(root) && Files(root) == ForestFiles(leafNodes)
    {
      LeavesAreOrTrees(leafNodes);
      root := CreateLevel(leafNodes, ratio);
      BuiltIsOrOfChildren(root, leafNodes, leafNodes, ratio);
    }

    /** Names found are added to those of earlier searches. */
    method CheckExistance(value: string) returns (names: seq<string>)
      modifies this`bloomNames, this`foundInHierarchy
      ensures names == bloomNames == old(bloomNames) + Names(Found(hash, root, value))
      ensures foundInHierarchy == old(foundInHierarchy) + Passed(hash, root, value)
    {
      Check(root, value);
      names := bloomNames;
    }

    method Check(n: Node, value: string)
      modifies this`bloomNames, this`foundInHierarchy
      ensures bloomNames == old(bloomNames) + Names(Found(hash, n, value))
      ensures foundInHierarchy == old(foundInHierarchy) + Passed(hash, n, value)
      decreases n, 1
    {
      if n.filename != MEMORY {
        bloomNames := bloomNames + [n.filename];
      } else if Accepts(hash, n.filter, value) {
        foundInHierarchy := foundInHierarchy + 1;
        CheckChildren(n, value);
      }
    }

    method CheckChildren(n: Node, value: string)
      modifies this`bloomNames, this`foundInHierarchy
      ensures bloomNames == old(bloomNames) + Names(ForestFound(hash, n.children, value))
      ensures foundInHierarchy == old(foundInHierarchy) + ForestPassed(hash, n.children, value)
      decreases n, 0
    {
      hide *;
      FoundNone(hash, value);
      for i := 0 to |n.children|
        invariant bloomNames == old(bloomNames) + Names(ForestFound(hash, n.children[..i], value))
        invariant foundInHierarchy == old(foundInHierarchy) + ForestPassed(hash, n.children[..i], value)
      {
        Check(n.children[i], value);
        FoundSnoc(hash, n.children[..i], n.children[i], value);
        NamesConcat(ForestFound(hash, n.children[..i], value), Found(hash, n.children[i], value));
        assert n.children[..i + 1] == n.children[..i] + [n.children[i]];
      }
      assert n.children[..|n.children|] == n.children;
    }

    /** The walk of a worker thread: the same leaves, and nothing in the tree changes. */
    method CheckExistanceThread(value: string) returns (names: seq<string>)
      ensures names == Names(Found(hash, root, value))
    {
      names := CheckThread(root, value, []);
    }

    method CheckThread(n: Node, value: string, before: seq<string>) returns (names: seq<string>)
      ensures names == before + Names(Found(hash, n, value))
      decreases n, 1
    {
      names := before;
      if n.filename != MEMORY {
        names := names + [n.filename];
      } else if Accepts(hash, n.filter, value) {
        names := CheckChildrenThread(n, value, names);
      }
    }

    method CheckChildrenThread(n: Node, value: string, before: seq<string>) returns (names: seq<string>)
      ensures names == before + Names(ForestFound(hash, n.children, value))
      decreases n, 0
    {
      hide *;
      FoundNone(hash, value);
      names := before;
      for i := 0 to |n.children|
        invariant names == before + Names(ForestFound(hash, n.children[..i], value))
      {
        names := CheckThread(n.children[i], value, names);
        FoundSnoc(hash, n.children[..i], n.children[i], value);
        NamesConcat(ForestFound(hash, n.children[..i], value), Found(hash, n.children[i], value));
        assert n.children[..i + 1] == n.children[..i] + [n.children[i]];
      }
      assert n.children[..|n.children|] == n.children;
    }

    /** Values cut into one chunk per thread, the last chunk taking the remainder: each value is answered once, at
        its own place, as a single search would answer it. */
    method CheckMany(values: seq<string>, threads: nat) returns (answers: seq<seq<string>>)
      requires threads >= 1
      ensures |answers| == |values|
      ensures forall i | 0 <= i < |values| :: answers[i] == Names(Found(hash, root, values[i]))
    {
      var chunk := |values| / threads;
      answers := [];
      for t := 0 to threads
        invariant |answers| == if t == threads then |values| else t * chunk
        invariant |answers| <= |values|
        invariant forall i | 0 <= i < |answers| :: answers[i] == Names(Found(hash, root, values[i]))
      {
        ChunkFits(|values|, threads, t);
        var end := if t == threads - 1 then |values| else t * chunk + chunk;
        for i := t * chunk to end
          invariant |answers| == i
          invariant forall k | 0 <= k < i :: answers[k] == Names(Found(hash, root, values[k]))
        {
          var names := CheckExistanceThread(values[i]);
          answers := answers + [names];
        }
      }
    }

    /** The chunk of thread t ends inside the values. */
    static lemma {:induction false} ChunkFits(n: nat, threads: nat, t: nat)
      requires t < threads
      ensures t * (n / threads) + n / threads <= n
      decreases threads - t
    {
      var chunk := n / threads;
      assert (t + 1) * chunk == t * chunk + chunk;
      if t + 1 < threads {
        ChunkFits(n, threads, t + 1);
      }
    }
  }

  lemma NamesConcat(a: seq<Node>, b: seq<Node>)
    ensures Names(a + b) == Names(a) + Names(b)
  {
  }

  lemma FoundNone(hash: Hash, value: string)
    ensures ForestFound(hash, [], value) == [] && ForestPassed(hash, [], value) == 0 && Names([]) == []
  {
  }

  lemma {:induction false} FoundSnoc(hash: Hash, ns: seq<Node>, n: Node, value: string)
    ensures ForestFound(hash, ns + [n], value) == ForestFound(hash, ns, value) + Found(hash, n, value)
    ensures ForestPassed(hash, ns + [n], value) == ForestPassed(hash, ns, value) + Passed(hash, n, value)
  {
    if ns == [] {
      assert [] + [n] == [n] && [n][1..] == [];
    } else {
      FoundSnoc(hash, ns[1..], n, value);
      assert (ns + [n])[1..] == ns[1..] + [n];
    }
  }

  lemma {:induction false} LeavesAreOrTrees(ns: seq<Node>)
    requires forall n | n in ns :: n.children == []
    ensures OrForest(ns)
  {
    if ns != [] {
      LeavesAreOrTrees(ns[1..]);
      forall p: nat | p < BITS ensures ns[0].filter[p] <==> SetIn(Ends(ns[0]), p) {
        assert Ends(ns[0]) == [ns[0]];
      }
    }
  }

  // ----- what a search finds -----

  /** A file with the filters on the way down to it. */
  datatype Path = Path(file: Node, above: seq<Bits>)

  function Paths(n: Node, above: seq<Bits>): seq<Path> {
    if n.filename != MEMORY then [Path(n, above)] else ForestPaths(n.children, above + [n.filter])
  }

  function ForestPaths(ns: seq<Node>, above: seq<Bits>): seq<Path> {
    if ns == [] then [] else Paths(ns[0], above) + ForestPaths(ns[1..], above)
  }

  predicate Open(hash: Hash, above: seq<Bits>, value: string) {
    forall i | 0 <= i < |above| :: Accepts(hash, above[i], value)
  }

  /** In order, the files all of whose ancestors accept the value. */
  function Reachable(hash: Hash, paths: seq<Path>, value: string): seq<Node> {
    if paths == [] then []
    else (if Open(hash, paths[0].above, value) then [paths[0].file] else []) + Reachable(hash, paths[1..], value)
  }

  lemma {:induction false} ReachableConcat(hash: Hash, a: seq<Path>, b: seq<Path>, value: string)
    ensures Reachable(hash, a + b, value) == Reachable(hash, a, value) + Reachable(hash, b, value)
  {
    hide Open;
    if a == [] {
      assert a + b == b;
    } else {
      ReachableConcat(hash, a[1..], b, value);
      assert (a + b)[1..] == a[1..] + b;
      var one := if Open(hash, a[0].above, value) then [a[0].file] else [];
      Associative(one, Reachable(hash, a[1..], value), Reachable(hash, b, value));
    }
  }

  /** The pruned search returns, in order, exactly the files whose ancestors all accept the value. */
  lemma {:induction false} FoundIsReachable(hash: Hash, n: Node, above: seq<Bits>, value: string)
    ensures Reachable(hash, Paths(n, above), value) == if Open(hash, above, value) then Found(hash, n, value) else []
    decreases n, 1
  {
    if n.filename != MEMORY {
      assert Reachable(hash, [], value) == [];
    } else {
      ForestFoundIsReachable(hash, n.children, above + [n.filter], value);
      assert Open(hash, above + [n.filter], value) <==> Open(hash, above, value) && Accepts(hash, n.filter, value) by {
        assert (above + [n.filter])[|above|] == n.filter;
        assert forall i | 0 <= i < |above| :: (above + [n.filter])[i] == above[i];
      }
    }
  }

  /** The search finds something exactly when some file has only ancestors that accept the value. */
  ghost predicate SomeOpen(hash: Hash, n: Node, value: string) {
    exists i | 0 <= i < |Paths(n, [])| :: Open(hash, Paths(n, [])[i].above, value)
  }

  lemma FindsIfOpen(hash: Hash, n: Node, value: string)
    ensures Found(hash, n, value) != [] <==> SomeOpen(hash, n, value)
  {
    FoundIsReachable(hash, n, [], value);
    ReachableIfOpen(hash, Paths(n, []), value);
  }

  lemma {:induction false} ReachableIfOpen(hash: Hash, paths: seq<Path>, value: string)
    ensures Reachable(hash, paths, value) != [] <==> exists i | 0 <= i < |paths| :: Open(hash, paths[i].above, value)
  {
    hide Open;
    if paths != [] {
      ReachableIfOpen(hash, paths[1..], value);
    }
  }

  /** For every inner node, the filters on the way down to it and its own. */
  function InnerPaths(n: Node, above: seq<Bits>): seq<seq<Bits>> {
    if n.filename != MEMORY then [] else [above + [n.filter]] + ForestInnerPaths(n.children, above + [n.filter])
  }

  function ForestInnerPaths(ns: seq<Node>, above: seq<Bits>): seq<seq<Bits>> {
    if ns == [] then [] else InnerPaths(ns[0], above) + ForestInnerPaths(ns[1..], above)
  }

  function CountOpen(hash: Hash, paths: seq<seq<Bits>>, value: string): nat {
    if paths == [] then 0 else (if Open(hash, paths[0], value) then 1 else 0) + CountOpen(hash, paths[1..], value)
  }

  lemma {:induction false} CountOpenConcat(hash: Hash, a: seq<seq<Bits>>, b: seq<seq<Bits>>, value: string)
    ensures CountOpen(hash, a + b, value) == CountOpen(hash, a, value) + CountOpen(hash, b, value)
  {
    hide Open;
    if a == [] {
      assert a + b == b;
    } else {
      CountOpenConcat(hash, a[1..], b, value);
      assert (a + b)[1..] == a[1..] + b;
    }
  }

  /** The search counts exactly the inner nodes that accept the value along with all above them. */
  lemma {:induction false} PassedIsOpen(hash: Hash, n: Node, above: seq<Bits>, value: string)
    ensures CountOpen(hash, InnerPaths(n, above), value) ==
            if Open(hash, above, value) then Passed(hash, n, value) else 0
    decreases n, 1
  {
    if n.filename == MEMORY {
      var here := above + [n.filter];
      assert Open(hash, here, value) <==> Open(hash, above, value) && Accepts(hash, n.filter, value) by {
        assert here[|above|] == n.filter;
        assert forall i | 0 <= i < |above| :: here[i] == above[i];
      }
      hide Open;
      ForestPassedIsOpen(hash, n.children, here, value);
      CountOpenConcat(hash, [here], ForestInnerPaths(n.children, here), value);
      assert [here][1..] == [];
    }
  }

  lemma {:induction false} ForestPassedIsOpen(hash: Hash, ns: seq<Node>, above: seq<Bits>, value: string)
    ensures CountOpen(hash, ForestInnerPaths(ns, above), value) ==
            if Open(hash, above, value) then ForestPassed(hash, ns, value) else 0
    decreases ns, 0
  {
    hide Open;
    if ns != [] {
      PassedIsOpen(hash, ns[0], above, value);
      ForestPassedIsOpen(hash, ns[1..], above, value);
      CountOpenConcat(hash, InnerPaths(ns[0], above), ForestInnerPaths(ns[1..], above), value);
    }
  }

  lemma {:induction false} ForestFoundIsReachable(hash: Hash, ns: seq<Node>, above: seq<Bits>, value: string)
    ensures Reachable(hash, ForestPaths(ns, above), value) == if Open(hash, above, value)
            then ForestFound(hash, ns, value) else []
    decreases ns, 0
  {
    if ns != [] {
      FoundIsReachable(hash, ns[0], above, value);
      ForestFoundIsReachable(hash, ns[1..], above, value);
      ReachableConcat(hash, Paths(ns[0], above), ForestPaths(ns[1..], above), value);
    }
  }

  /** The nodes whose own filter accepts the value. */
  function Hits(hash: Hash, ns: seq<Node>, value: string): seq<Node> {
    if ns == [] then []
    else (if Accepts(hash, ns[0].filter, value) then [ns[0]] else []) + Hits(hash, ns[1..], value)
  }

  lemma {:induction false} HitsConcat(hash: Hash, a: seq<Node>, b: seq<Node>, value: string)
    ensures Hits(hash, a + b, value) == Hits(hash, a, value) + Hits(hash, b, value)
  {
    hide Accepts;
    if a == [] {
      assert a + b == b;
    } else {
      HitsConcat(hash, a[1..], b, value);
      assert (a + b)[1..] == a[1..] + b;
      var one := if Accepts(hash, a[0].filter, value) then [a[0]] else [];
      Associative(one, Hits(hash, a[1..], value), Hits(hash, b, value));
    }
  }

  lemma ChildrenWithin(n: Node)
    requires OrTree(n) && n.filename == MEMORY
    ensures forall c | c in n.children :: Within(c.filter, n.filter)
  {
    forall c | c in n.children ensures Within(c.filter, n.filter) {
      forall p: nat | p < BITS && c.filter[p] ensures n.filter[p] {
        UnionOfEnds(n.children, p);
        assert SetIn(n.children, p);
      }
    }
  }

  /** A node that rejects a value has no file below it that accepts it. */
  lemma {:induction false} RejectedHasNoHits(hash: Hash, n: Node, value: string)
    requires OrTree(n) && !Accepts(hash, n.filter, value)
    ensures Hits(hash, Files(n), value) == []
    decreases n, 1
  {
    if n.filename == MEMORY {
      ChildrenWithin(n);
      RejectedForest(hash, n.children, n.filter, value);
    }
  }

  lemma {:induction false} RejectedForest(hash: Hash, ns: seq<Node>, b: Bits, value: string)
    requires OrForest(ns) && (forall c | c in ns :: Within(c.filter, b)) && !Accepts(hash, b, value)
    ensures Hits(hash, ForestFiles(ns), value) == []
    decreases ns, 0
  {
    if ns != [] {
      if Accepts(hash, ns[0].filter, value) {
        AcceptsGrows(hash, ns[0].filter, b, value);
      }
      RejectedHasNoHits(hash, ns[0], value);
      RejectedForest(hash, ns[1..], b, value);
      HitsConcat(hash, Files(ns[0]), ForestFiles(ns[1..]), value);
    }
  }

  /** Pruning loses no hit: the found files that accept the value are all files that accept it, in order. */
  lemma {:induction false} HitsKept(hash: Hash, n: Node, value: string)
    requires OrTree(n)
    ensures Hits(hash, Found(hash, n, value), value) == Hits(hash, Files(n), value)
    decreases n, 1
  {
    if n.filename == MEMORY {
      if Accepts(hash, n.filter, value) {
        ForestHitsKept(hash, n.children, value);
      } else {
        RejectedHasNoHits(hash, n, value);
      }
    }
  }

  lemma {:induction false} ForestHitsKept(hash: Hash, ns: seq<Node>, value: string)
    requires OrForest(ns)
    ensures Hits(hash, ForestFound(hash, ns, value), value) == Hits(hash, ForestFiles(ns), value)
    decreases ns, 0
  {
    if ns != [] {
      HitsKept(hash, ns[0], value);
      ForestHitsKept(hash, ns[1..], value);
      HitsConcat(hash, Files(ns[0]), ForestFiles(ns[1..]), value);
      HitsConcat(hash, Found(hash, ns[0], value), ForestFound(hash, ns[1..], value), value);
    }
  }

  // ----- leaves called like inner nodes -----

  /** A leaf in front adds itself to the hits unless it is called like an inner node. */
  lemma LeafInFront(hash: Hash, ns: seq<Node>, value: string)
    requires ns != [] && ns[0].children == []
    ensures Hits(hash, ForestFiles(ns), value) ==
            (if ns[0].filename != MEMORY && Accepts(hash, ns[0].filter, value) then [ns[0]] else [])
            + Hits(hash, ForestFiles(ns[1..]), value)
  {
    hide Accepts;
    var x, rest := ns[0], ForestFiles(ns[1..]);
    HitsConcat(hash, Files(x), rest, value);
    assert ForestFiles([]) == [];
    assert Files(x) == if x.filename == MEMORY then [] else [x];
  }

  lemma {:induction false} MemoryHitsLost(hash: Hash, ns: seq<Node>, value: string)
    requires forall n | n in ns :: n.children == []
    ensures |Hits(hash, ForestFiles(ns), value)| <= |Hits(hash, ns, value)|
    ensures Hits(hash, ForestFiles(ns), value) == Hits(hash, ns, value) <==>
            forall i | 0 <= i < |ns| && ns[i].filename == MEMORY :: !Accepts(hash, ns[i].filter, value)
  {
    hide Accepts, ForestFiles;
    if ns == [] {
      assert ForestFiles(ns) == [] by { EmptyForest(); }
    } else {
      var rest := ns[1..];
      MemoryHitsLost(hash, rest, value);
      LeafInFront(hash, ns, value);
      var h := if Accepts(hash, ns[0].filter, value) then [ns[0]] else [];
      var a, b := Hits(hash, ForestFiles(rest), value), Hits(hash, rest, value);
      assert Hits(hash, ns, value) == h + b;
      if ns[0].filename == MEMORY && h != [] {
        assert |h + b| > |[] + a|;
      } else {
        assert Hits(hash, ForestFiles(ns), value) == h + a;
        assert (h + a)[|h|..] == a && (h + b)[|h|..] == b;
        assert forall i | 1 <= i < |ns| :: ns[i] == rest[i - 1];
        assert forall i | 0 <= i < |rest| :: rest[i] == ns[i + 1];
      }
    }
  }

  lemma EmptyForest()
    ensures ForestFiles([]) == []
  {
  }

  /** The search loses no leaf that accepts the value exactly when none of them is called like an inner node. */
  lemma MemoryLeafExactly(hash: Hash, root: Node, leaves: seq<Node>, value: string)
    requires OrTree(root) && Files(root) == ForestFiles(leaves) && forall n | n in leaves :: n.children == []
    ensures Hits(hash, Found(hash, root, value), value) == Hits(hash, leaves, value) <==>
            forall i | 0 <= i < |leaves| && leaves[i].filename == MEMORY :: !Accepts(hash, leaves[i].filter, value)
  {
    HitsKept(hash, root, value);
    MemoryHitsLost(hash, leaves, value);
  }

  /** One leaf, called "Memory", whose filter holds "x": the search for "x" returns nothing. */
  method MemoryLeafLost(hash: Hash) returns (tree: BloomTree, names: seq<string>)
    ensures fresh(tree) && tree.hash == hash && |tree.leafNodes| == 1 && tree.leafNodes[0].filename == MEMORY
    ensures Accepts(hash, tree.leafNodes[0].filter, "x") && names == []
  {
    var filter := new BloomValue(hash);
    filter.Insert("x", {});
    HeldIsAccepted(hash, filter.bitArray, {"x"}, "x");
    hide *;
    tree := new BloomTree(hash, 3);
    tree.CreateLeafLevel(filter.bitArray, MEMORY);
    ghost var leaf := tree.leafNodes[0];
    tree.CreateTree();
    MemoryIsNoFile(leaf);
    assert tree.leafNodes == [leaf];
    NothingFound(hash, tree.root, "x");
    names := tree.CheckExistance("x");
    FoundNone(hash, "x");
  }

  lemma MemoryIsNoFile(leaf: Node)
    requires leaf.filename == MEMORY && leaf.children == []
    ensures ForestFiles([leaf]) == []
  {
    assert ForestFiles([]) == [] && ForestFiles([leaf][1..]) == [];
  }

  lemma {:induction false} NothingFound(hash: Hash, n: Node, value: string)
    requires Files(n) == []
    ensures Found(hash, n, value) == []
    decreases n, 1
  {
    ForestNothingFound(hash, n.children, value);
  }

  lemma {:induction false} ForestNothingFound(hash: Hash, ns: seq<Node>, value: string)
    requires ForestFiles(ns) == []
    ensures ForestFound(hash, ns, value) == []
    decreases ns, 0
  {
    if ns != [] {
      assert |Files(ns[0])| + |ForestFiles(ns[1..])| == 0;
      NothingFound(hash, ns[0], value);
      ForestNothingFound(hash, ns[1..], value);
    }
  }
}
