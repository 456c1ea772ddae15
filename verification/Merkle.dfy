/**
 * The commitment tree (commitments.ts): a complete binary tree kept in an array, leaf i at position
 * 2n - 2 - i, proofs read off the array, and the task tree ordered by task id.
 */
module Merkle {
  import opened Base
  import opened Lex
  import opened Json
  import opened JsonLaws

  /** A 32-byte value in its normalised form; nodes are compared as they print. */
  type Node = Word

  /** keccak256 of two concatenated nodes. */
  type PairHash = (Node, Node) -> Node

  function HashPair(H: PairHash, a: Node, b: Node): Node {
    if Less(a, b) then H(a, b) else H(b, a)
  }

  lemma HashPairCommutes(H: PairHash, a: Node, b: Node)
    ensures HashPair(H, a, b) == HashPair(H, b, a)
  {
    LessTotal(a, b);
    if Less(a, b) { LessAsymmetric(a, b); }
    if Less(b, a) { LessAsymmetric(b, a); }
  }

  /** The two nodes are hashed in ascending order. */
  lemma HashPairAscends(H: PairHash, a: Node, b: Node)
    ensures exists x, y :: multiset{x, y} == multiset{a, b} && !Less(y, x) && HashPair(H, a, b) == H(x, y)
  {
    LessTotal(a, b);
    if Less(a, b) {
      LessAsymmetric(a, b);
      assert multiset{a, b} == multiset{a, b} && !Less(b, a) && HashPair(H, a, b) == H(a, b);
    } else {
      assert multiset{b, a} == multiset{a, b} && !Less(a, b) && HashPair(H, a, b) == H(b, a);
    }
  }

  // ---------------------------------------------------------------- the tree

  function LeafPosition(n: nat, i: nat): nat
    requires i < n
  {
    2 * n - 2 - i
  }

  /** The node at array position k of the tree over these leaves. */
  function NodeAt(H: PairHash, leaves: seq<Node>, k: nat): Node
    requires leaves != [] && k <= 2 * |leaves| - 2
    decreases 2 * |leaves| - k
  {
    if k >= |leaves| - 1 then leaves[2 * |leaves| - 2 - k]
    else HashPair(H, NodeAt(H, leaves, 2 * k + 1), NodeAt(H, leaves, 2 * k + 2))
  }

  function Root(H: PairHash, leaves: seq<Node>): Node
    requires leaves != []
  {
    NodeAt(H, leaves, 0)
  }

  ghost predicate IsTree(H: PairHash, leaves: seq<Node>, tree: array<Node>)
    reads tree
  {
    && leaves != [] && tree.Length == 2 * |leaves| - 1
    && forall k {:trigger tree[k]} :: 0 <= k < tree.Length ==> tree[k] == NodeAt(H, leaves, k)
  }

  /** The shape of the tree, said as a queue: the first two nodes leave it and their hash joins at the end. */
  function QueueRoot(H: PairHash, queue: seq<Node>): Node
    requires queue != []
    decreases |queue|
  {
    if |queue| == 1 then queue[0] else QueueRoot(H, queue[2..] + [HashPair(H, queue[0], queue[1])])
  }

  /** The nodes from position 2k down to position k. */
  function Level(H: PairHash, leaves: seq<Node>, k: nat): (queue: seq<Node>)
    requires leaves != [] && k <= |leaves| - 1
    ensures |queue| == k + 1 && forall i :: 0 <= i <= k ==> queue[i] == NodeAt(H, leaves, 2 * k - i)
  {
    seq(k + 1, i requires 0 <= i <= k => NodeAt(H, leaves, 2 * k - i))
  }

  lemma {:induction false} LevelRoot(H: PairHash, leaves: seq<Node>, k: nat)
    requires leaves != [] && k <= |leaves| - 1
    ensures QueueRoot(H, Level(H, leaves, k)) == Root(H, leaves)
  {
    if k > 0 {
      var queue := Level(H, leaves, k);
      HashPairCommutes(H, queue[0], queue[1]);
      assert queue[2..] + [HashPair(H, queue[0], queue[1])] == Level(H, leaves, k - 1);
      LevelRoot(H, leaves, k - 1);
    }
  }

  /** The root of the array layout is that of the queue, for every number of leaves. */
  lemma RootIsQueueRoot(H: PairHash, leaves: seq<Node>)
    requires leaves != []
    ensures Root(H, leaves) == QueueRoot(H, leaves)
  {
    assert Level(H, leaves, |leaves| - 1) == leaves;
    LevelRoot(H, leaves, |leaves| - 1);
  }

  lemma QueueOfTwo(H: PairHash, a: Node, b: Node)
    ensures QueueRoot(H, [a, b]) == HashPair(H, a, b)
  {
    assert [a, b][2..] + [HashPair(H, a, b)] == [HashPair(H, a, b)];
  }

  lemma QueueOfThree(H: PairHash, a: Node, b: Node, c: Node)
    ensures QueueRoot(H, [a, b, c]) == HashPair(H, c, HashPair(H, a, b))
  {
    assert [a, b, c][2..] + [HashPair(H, a, b)] == [c, HashPair(H, a, b)];
    QueueOfTwo(H, c, HashPair(H, a, b));
  }

  lemma PairInOrder(H: PairHash, a: Node, b: Node)
    ensures HashPair(H, a, b) == if Less(b, a) then H(b, a) else H(a, b)
  {
    LessTotal(a, b);
    if Less(a, b) { LessAsymmetric(a, b); }
  }

  /** The smallest trees, in terms of the hash alone. */
  lemma SmallRoots(H: PairHash, a: Node, b: Node, c: Node)
    ensures Root(H, [a]) == a
    ensures Root(H, [a, b]) == if Less(b, a) then H(b, a) else H(a, b)
    ensures Root(H, [a, b, c]) == HashPair(H, c, Root(H, [a, b]))
  {
    RootIsQueueRoot(H, [a]);
    RootIsQueueRoot(H, [a, b]);
    RootIsQueueRoot(H, [a, b, c]);
    QueueOfTwo(H, a, b);
    QueueOfThree(H, a, b, c);
    PairInOrder(H, a, b);
  }

  /** Fills the array from the last position down: first the leaves, then the inner nodes. */
  method MakeTree(H: PairHash, leaves: seq<Node>) returns (tree: array<Node>)
    requires leaves != []
    ensures fresh(tree) && IsTree(H, leaves, tree)
  {
    var n := |leaves|;
    tree := new Node[2 * n - 1](_ => []);
    for i := 0 to n
      invariant forall j :: 0 <= j < i ==> tree[2 * n - 2 - j] == leaves[j]
    {
      tree[2 * n - 2 - i] := leaves[i];
    }
    assert forall k :: n - 1 <= k < 2 * n - 1 ==> tree[k] == tree[2 * n - 2 - (2 * n - 2 - k)];
    FillInner(H, leaves, tree);
  }

  method FillInner(H: PairHash, leaves: seq<Node>, tree: array<Node>)
    requires leaves != [] && tree.Length == 2 * |leaves| - 1
    requires forall k :: |leaves| - 1 <= k < tree.Length ==> tree[k] == leaves[2 * |leaves| - 2 - k]
    modifies tree
    ensures IsTree(H, leaves, tree)
  {
    for i := |leaves| - 1 downto 0
      invariant forall k {:trigger tree[k]} :: i <= k < tree.Length ==> tree[k] == NodeAt(H, leaves, k)
    {
      InnerNode(H, leaves, i);
      tree[i] := HashPair(H, tree[2 * i + 1], tree[2 * i + 2]);
    }
  }

  lemma InnerNode(H: PairHash, leaves: seq<Node>, k: nat)
    requires k < |leaves| - 1
    ensures NodeAt(H, leaves, k) == HashPair(H, NodeAt(H, leaves, 2 * k + 1), NodeAt(H, leaves, 2 * k + 2))
  {
  }

  // ---------------------------------------------------------------- proofs

  function Sibling(k: nat): nat
    requires k > 0
  {
    if k % 2 == 1 then k + 1 else k - 1
  }

  function Parent(k: nat): nat
    requires k > 0
  {
    (k - 1) / 2
  }

  /** The siblings on the way from position k to the root. */
  function ProofFrom(H: PairHash, leaves: seq<Node>, k: nat): seq<Node>
    requires leaves != [] && k <= 2 * |leaves| - 2
  {
    if k == 0 then [] else [NodeAt(H, leaves, Sibling(k))] + ProofFrom(H, leaves, Parent(k))
  }

  method GetProof(H: PairHash, leaves: seq<Node>, tree: array<Node>, index: nat) returns (proof: seq<Node>)
    requires index < |leaves| && IsTree(H, leaves, tree)
    ensures proof == ProofFrom(H, leaves, LeafPosition(|leaves|, index))
  {
    proof := [];
    var k: nat := LeafPosition(|leaves|, index);
    while k > 0
      invariant k <= 2 * |leaves| - 2
      invariant proof + ProofFrom(H, leaves, k) == ProofFrom(H, leaves, LeafPosition(|leaves|, index))
    {
      ProofStep(H, leaves, k, proof);
      proof := proof + [tree[Sibling(k)]];
      k := Parent(k);
    }
  }

  lemma ProofStep(H: PairHash, leaves: seq<Node>, k: nat, done: seq<Node>)
    requires leaves != [] && 0 < k <= 2 * |leaves| - 2
    ensures done + ProofFrom(H, leaves, k) == done + [NodeAt(H, leaves, Sibling(k))] + ProofFrom(H, leaves, Parent(k))
  {
  }

  /** processMerkleProof: a left fold of hashPair. */
  function ProcessProof(H: PairHash, leaf: Node, proof: seq<Node>): Node
    decreases |proof|
  {
    if proof == [] then leaf else ProcessProof(H, HashPair(H, leaf, proof[0]), proof[1..])
  }

  /** Folding the proof of any position gives the root, for every shape of tree. */
  lemma {:induction false} ProofReachesRoot(H: PairHash, leaves: seq<Node>, k: nat)
    requires leaves != [] && k <= 2 * |leaves| - 2
    ensures ProcessProof(H, NodeAt(H, leaves, k), ProofFrom(H, leaves, k)) == Root(H, leaves)
  {
    if k > 0 {
      var p := Parent(k);
      HashPairCommutes(H, NodeAt(H, leaves, k), NodeAt(H, leaves, Sibling(k)));
      assert NodeAt(H, leaves, p) == HashPair(H, NodeAt(H, leaves, k), NodeAt(H, leaves, Sibling(k)));
      ProofReachesRoot(H, leaves, p);
      assert ProofFrom(H, leaves, k)[1..] == ProofFrom(H, leaves, p);
    }
  }

  /** The proof of leaf i verifies, for every number of leaves and every i. */
  lemma LeafProofVerifies(H: PairHash, leaves: seq<Node>, i: nat)
    requires i < |leaves|
    ensures ProcessProof(H, leaves[i], ProofFrom(H, leaves, LeafPosition(|leaves|, i))) == Root(H, leaves)
  {
    ProofReachesRoot(H, leaves, LeafPosition(|leaves|, i));
  }

  /**
   * With a collision-free hash the root binds what a proof proves: a value that verifies with the
   * proof of leaf i is leaf i.
   */
  lemma {:induction false} ProofBindsLeaf(H: PairHash, leaf: Node, leaf': Node, proof: seq<Node>)
    requires forall a, b, c, d :: H(a, b) == H(c, d) ==> a == c && b == d
    requires ProcessProof(H, leaf, proof) == ProcessProof(H, leaf', proof)
    ensures leaf == leaf'
    decreases |proof|
  {
    if proof != [] {
      ProofBindsLeaf(H, HashPair(H, leaf, proof[0]), HashPair(H, leaf', proof[0]), proof[1..]);
      LessTotal(leaf, proof[0]);
      LessTotal(leaf', proof[0]);
    }
  }

  // ---------------------------------------------------------------- the task tree

  const MAX_TASKS: nat := 256

  datatype TaskData = TaskData(hash: Node, salt: Node)

  datatype TreeError = NoTasks | TooManyTasks | InvalidTaskId | DuplicateTaskId

  datatype TaskLeaf = TaskLeaf(id: Text, data: TaskData, index: nat, leaf: Node, proof: seq<Node>)

  datatype TaskTree = TaskTree(root: Node, leaves: seq<TaskLeaf>)

  /** Leaf hashing with the tree's domain, version and grader digest fixed. */
  type LeafHash = (Text, TaskData) -> Node

  function LeafHashes(L: LeafHash, tasks: seq<(Text, TaskData)>): (r: seq<Node>)
    ensures |r| == |tasks| && forall i :: 0 <= i < |tasks| ==> r[i] == L(tasks[i].0, tasks[i].1)
  {
    if tasks == [] then [] else [L(tasks[0].0, tasks[0].1)] + LeafHashes(L, tasks[1..])
  }

  ghost predicate Acceptable(validId: Text -> bool, tasks: seq<(Text, TaskData)>) {
    1 <= |tasks| <= 256 && DistinctKeys(tasks) && forall i :: 0 <= i < |tasks| ==> validId(tasks[i].0)
  }

  function LeafAt(H: PairHash, sorted: seq<(Text, TaskData)>, hashes: seq<Node>, i: nat): TaskLeaf
    requires i < |sorted| == |hashes|
  {
    TaskLeaf(sorted[i].0, sorted[i].1, i, hashes[i], ProofFrom(H, hashes, LeafPosition(|hashes|, i)))
  }

  function LeavesTo(H: PairHash, sorted: seq<(Text, TaskData)>, hashes: seq<Node>, n: nat): (r: seq<TaskLeaf>)
    requires n <= |sorted| == |hashes|
    ensures |r| == n && forall i :: 0 <= i < n ==> r[i] == LeafAt(H, sorted, hashes, i)
  {
    if n == 0 then [] else LeavesTo(H, sorted, hashes, n - 1) + [LeafAt(H, sorted, hashes, n - 1)]
  }

  /** The tree over tasks already in order. */
  function TreeOver(H: PairHash, L: LeafHash, sorted: seq<(Text, TaskData)>): TaskTree
    requires sorted != []
  {
    var hashes := LeafHashes(L, sorted);
    TaskTree(Root(H, hashes), LeavesTo(H, sorted, hashes, |sorted|))
  }

  /** Task k is the first that cannot be taken: its id is invalid, or valid and seen before. */
  ghost predicate FirstBad(validId: Text -> bool, tasks: seq<(Text, TaskData)>, k: nat) {
    && k < |tasks|
    && (forall j :: 0 <= j < k ==> validId(tasks[j].0))
    && (forall i, j :: 0 <= i < j < k ==> tasks[i].0 != tasks[j].0)
    && (validId(tasks[k].0) ==> exists j :: 0 <= j < k && tasks[j].0 == tasks[k].0)
  }

  method CheckTasks(validId: Text -> bool, tasks: seq<(Text, TaskData)>) returns (e: Option<TreeError>)
    ensures e.None? <==> Acceptable(validId, tasks)
    ensures e == Some(NoTasks) <==> tasks == []
    ensures e == Some(TooManyTasks) <==> |tasks| > 256
    ensures e == Some(InvalidTaskId) ==> exists k: nat :: FirstBad(validId, tasks, k) && !validId(tasks[k].0)
    ensures e == Some(DuplicateTaskId) ==> exists k: nat :: FirstBad(validId, tasks, k) && validId(tasks[k].0)
  {
    if |tasks| == 0 { return Some(NoTasks); }
    if |tasks| > MAX_TASKS { return Some(TooManyTasks); }
    var seen: set<Text> := {};
    for k := 0 to |tasks|
      invariant forall id :: id in seen <==> exists j :: 0 <= j < k && tasks[j].0 == id
      invariant forall i, j :: 0 <= i < j < k ==> tasks[i].0 != tasks[j].0
      invariant forall j :: 0 <= j < k ==> validId(tasks[j].0)
    {
      var id := tasks[k].0;
      if !validId(id) {
        assert FirstBad(validId, tasks, k);
        return Some(InvalidTaskId);
      }
      if id in seen {
        assert FirstBad(validId, tasks, k);
        return Some(DuplicateTaskId);
      }
      seen := seen + {id};
    }
    return None;
  }

  method MakeLeaves(H: PairHash, sorted: seq<(Text, TaskData)>, hashes: seq<Node>, tree: array<Node>)
    returns (leaves: seq<TaskLeaf>)
    requires |sorted| == |hashes| && IsTree(H, hashes, tree)
    ensures leaves == LeavesTo(H, sorted, hashes, |sorted|)
  {
    leaves := [];
    for i := 0 to |sorted|
      invariant leaves == LeavesTo(H, sorted, hashes, i)
    {
      var leaf := MakeLeaf(H, sorted, hashes, tree, i);
      leaves := leaves + [leaf];
    }
  }

  method MakeLeaf(H: PairHash, sorted: seq<(Text, TaskData)>, hashes: seq<Node>, tree: array<Node>, i: nat)
    returns (leaf: TaskLeaf)
    requires i < |sorted| == |hashes| && IsTree(H, hashes, tree)
    ensures leaf == LeafAt(H, sorted, hashes, i)
  {
    var proof := GetProof(H, hashes, tree, i);
    return TaskLeaf(sorted[i].0, sorted[i].1, i, hashes[i], proof);
  }

  method TreeOfSorted(H: PairHash, L: LeafHash, sorted: seq<(Text, TaskData)>) returns (t: TaskTree)
    requires sorted != []
    ensures t == TreeOver(H, L, sorted)
  {
    var hashes := LeafHashes(L, sorted);
    var tree := MakeTree(H, hashes);
    var leaves := MakeLeaves(H, sorted, hashes, tree);
    return TaskTree(tree[0], leaves);
  }

  /** Checks size, ids and duplicates, sorts by id, and builds the tree. */
  method BuildTaskTree(H: PairHash, L: LeafHash, validId: Text -> bool, tasks: seq<(Text, TaskData)>)
    returns (r: Result<TaskTree, TreeError>)
    ensures r.Ok? <==> Acceptable(validId, tasks)
    ensures r == Err(NoTasks) <==> tasks == []
    ensures r == Err(TooManyTasks) <==> |tasks| > 256
    ensures r == Err(InvalidTaskId) ==> exists k: nat :: FirstBad(validId, tasks, k) && !validId(tasks[k].0)
    ensures r == Err(DuplicateTaskId) ==> exists k: nat :: FirstBad(validId, tasks, k) && validId(tasks[k].0)
    ensures r.Ok? ==> SortKeyed(tasks) != [] && r.value == TreeOver(H, L, SortKeyed(tasks))
    ensures r.Ok? ==> r.value.root == QueueRoot(H, LeafHashes(L, SortKeyed(tasks)))
    ensures r.Ok? && |tasks| == 2 ==>
              var a, b := L(tasks[0].0, tasks[0].1), L(tasks[1].0, tasks[1].1);
              r.value.root == if Less(b, a) then H(b, a) else H(a, b)
  {
    var e := CheckTasks(validId, tasks);
    if e.Some? { return Err(e.value); }
    SortKeyedLength(tasks);
    var t := TreeOfSorted(H, L, SortKeyed(tasks));
    RootIsQueueRoot(H, LeafHashes(L, SortKeyed(tasks)));
    if |tasks| == 2 { RootOfTwo(H, L, tasks); }
    return Ok(t);
  }

  lemma SortTwo(x: (Text, TaskData), y: (Text, TaskData))
    ensures SortKeyed([x, y]) == [x, y] || SortKeyed([x, y]) == [y, x]
  {
    assert [x, y][1..] == [y] && [y][1..] == [];
    var none: seq<(Text, TaskData)> := [];
    assert InsertKeyed(y, none) == [y] && SortKeyed(none) == none;
    assert SortKeyed([y]) == [y];
    assert [y] + InsertKeyed(x, none) == [y, x] && [x] + [y] == [x, y];
    assert SortKeyed([x, y]) == InsertKeyed(x, [y]);
  }

  lemma RootOfTwo(H: PairHash, L: LeafHash, tasks: seq<(Text, TaskData)>)
    requires |tasks| == 2 && SortKeyed(tasks) != []
    ensures var a, b := L(tasks[0].0, tasks[0].1), L(tasks[1].0, tasks[1].1);
            Root(H, LeafHashes(L, SortKeyed(tasks))) == if Less(b, a) then H(b, a) else H(a, b)
  {
    var a, b := L(tasks[0].0, tasks[0].1), L(tasks[1].0, tasks[1].1);
    assert tasks == [tasks[0], tasks[1]];
    SortTwo(tasks[0], tasks[1]);
    assert LeafHashes(L, SortKeyed(tasks)) == [a, b] || LeafHashes(L, SortKeyed(tasks)) == [b, a];
    SmallRoots(H, a, b, a);
    SmallRoots(H, b, a, b);
    PairInOrder(H, a, b);
    PairInOrder(H, b, a);
    HashPairCommutes(H, a, b);
  }

  lemma SortKeyedLength<T>(xs: seq<(Text, T)>)
    ensures |SortKeyed(xs)| == |xs|
  {
    SortKeyedElements(xs);
    assert |multiset(SortKeyed(xs))| == |multiset(xs)|;
  }

  /** The order in which tasks are given is immaterial: for acceptance, and for the tree. */
  lemma TreeIgnoresOrder(H: PairHash, L: LeafHash, validId: Text -> bool, tasks: seq<(Text, TaskData)>,
                         tasks': seq<(Text, TaskData)>)
    requires multiset(tasks) == multiset(tasks')
    ensures Acceptable(validId, tasks) ==> Acceptable(validId, tasks')
    ensures Acceptable(validId, tasks) ==> SortKeyed(tasks) == SortKeyed(tasks')
  {
    if Acceptable(validId, tasks) {
      assert |multiset(tasks)| == |multiset(tasks')|;
      forall p ensures p in tasks <==> p in tasks' { assert p in multiset(tasks) <==> p in multiset(tasks'); }
      forall i | 0 <= i < |tasks'| ensures validId(tasks'[i].0) {
        assert tasks'[i] in tasks';
        var j :| 0 <= j < |tasks| && tasks[j] == tasks'[i];
      }
      DistinctKeysPermuted(tasks, tasks');
      SortsAlike(tasks, tasks');
    }
  }

  lemma {:induction false} DistinctKeysPermuted<T>(xs: seq<(Text, T)>, ys: seq<(Text, T)>)
    requires DistinctKeys(xs) && multiset(xs) == multiset(ys)
    ensures DistinctKeys(ys)
  {
    if ys != [] {
      assert ys[0] in multiset(ys) && ys[0] in multiset(xs);
      var k :| 0 <= k < |xs| && xs[k] == ys[0];
      var rest := xs[..k] + xs[k + 1..];
      SameRest(xs, k, ys);
      DistinctKeysPermuted(rest, ys[1..]);
      forall j | 0 < j < |ys| ensures ys[0].0 != ys[j].0 {
        assert ys[1..][j - 1] == ys[j];
        assert ys[j] in multiset(ys[1..]) && ys[j] in multiset(rest);
        var m :| 0 <= m < |rest| && rest[m] == ys[j];
        if m < k { assert xs[m] == ys[j]; } else { assert xs[m + 1] == ys[j]; }
      }
      forall i, j | 0 <= i < j < |ys| ensures ys[i].0 != ys[j].0 {
        if i > 0 { assert ys[1..][i - 1].0 != ys[1..][j - 1].0; }
      }
    }
  }

  /** The ids of tasks that come before `id`. */
  ghost function IdsBefore(tasks: seq<(Text, TaskData)>, id: Text): set<Text> {
    set i | 0 <= i < |tasks| && Less(tasks[i].0, id) :: tasks[i].0
  }

  lemma {:induction false} PrefixIds(sorted: seq<(Text, TaskData)>, i: nat)
    requires KeySorted(sorted) && i <= |sorted|
    ensures |set j | 0 <= j < i :: sorted[j].0| == i
  {
    if i > 0 {
      PrefixIds(sorted, i - 1);
      var before := set j | 0 <= j < i - 1 :: sorted[j].0;
      assert (set j | 0 <= j < i :: sorted[j].0) == before + {sorted[i - 1].0};
      if sorted[i - 1].0 in before {
        var j :| 0 <= j < i - 1 && sorted[j].0 == sorted[i - 1].0;
        LessIrreflexive(sorted[j].0);
      }
    }
  }

  /**
   * Every leaf of the tree: its index is its mask bit, the number of task ids before its own; it is
   * the hash of its task; and its proof verifies against the root.
   */
  lemma LeafIsRanked(H: PairHash, L: LeafHash, validId: Text -> bool, tasks: seq<(Text, TaskData)>, i: nat)
    requires Acceptable(validId, tasks) && SortKeyed(tasks) != [] && i < |SortKeyed(tasks)|
    ensures var t := TreeOver(H, L, SortKeyed(tasks));
            var l := t.leaves[i];
            && |t.leaves| == |tasks|
            && (l.id, l.data) in tasks && l.leaf == L(l.id, l.data)
            && l.index == i == |IdsBefore(tasks, l.id)|
            && ProcessProof(H, l.leaf, l.proof) == t.root
  {
    var sorted := SortKeyed(tasks);
    SortKeyedFacts(tasks);
    SortKeyedLength(tasks);
    LeafProofVerifies(H, LeafHashes(L, sorted), i);
    var id := sorted[i].0;
    assert sorted[i] in sorted;
    forall x ensures x in IdsBefore(tasks, id) <==> x in (set j | 0 <= j < i :: sorted[j].0) {
      BeforeIsPrefix(tasks, i, x);
    }
    assert IdsBefore(tasks, id) == set j | 0 <= j < i :: sorted[j].0;
    PrefixIds(sorted, i);
  }

  lemma BeforeIsPrefix(tasks: seq<(Text, TaskData)>, i: nat, x: Text)
    requires DistinctKeys(tasks) && i < |SortKeyed(tasks)|
    ensures x in IdsBefore(tasks, SortKeyed(tasks)[i].0) <==> exists j :: 0 <= j < i && SortKeyed(tasks)[j].0 == x
  {
    var sorted := SortKeyed(tasks);
    SortKeyedFacts(tasks);
    if x in IdsBefore(tasks, sorted[i].0) {
      var k :| 0 <= k < |tasks| && Less(tasks[k].0, sorted[i].0) && tasks[k].0 == x;
      assert tasks[k] in tasks && tasks[k] in sorted;
      var j :| 0 <= j < |sorted| && sorted[j] == tasks[k];
      if j == i { LessIrreflexive(sorted[i].0); }
      if j > i { LessAsymmetric(sorted[i].0, sorted[j].0); }
    }
    if j :| 0 <= j < i && sorted[j].0 == x {
      assert sorted[j] in sorted && sorted[j] in tasks;
      var k :| 0 <= k < |tasks| && tasks[k] == sorted[j];
    }
  }
}
