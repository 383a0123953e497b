/** The correlated GGM tree ("half-tree") and its expansion without one leaf. */
module Cggm {
  import opened Bits

  /** The circular correlation robust hash. */
  type Hash = Block -> Block

  /** Clears the least significant bit when `clear` is set. */
  function Masked(b: Block, clear: bool): (r: Block) {
    if clear then b[0 := false] else b
  }

  lemma MaskedXor(a: Block, b: Block, clear: bool)
    ensures Masked(Xor(a, b), clear) == Xor(Masked(a, clear), Masked(b, clear))
    ensures Masked(Masked(a, clear), clear) == Masked(a, clear)
    ensures Masked(ZERO, clear) == ZERO
  {
  }

  function LeftChild(x: Block, h: Hash, clear: bool): Block {
    Masked(h(x), clear)
  }

  function RightChild(x: Block, h: Hash, clear: bool): Block {
    Masked(Xor(x, h(x)), clear)
  }

  function Lefts(s: seq<Block>, h: Hash, clear: bool): (r: seq<Block>)
    ensures |r| == |s| && forall i | 0 <= i < |s| :: r[i] == LeftChild(s[i], h, clear)
  {
    seq(|s|, i requires 0 <= i < |s| => LeftChild(s[i], h, clear))
  }

  function Rights(s: seq<Block>, h: Hash, clear: bool): (r: seq<Block>)
    ensures |r| == |s| && forall i | 0 <= i < |s| :: r[i] == RightChild(s[i], h, clear)
  {
    seq(|s|, i requires 0 <= i < |s| => RightChild(s[i], h, clear))
  }

  /** The children of a level: left children first, then right children. */
  function Expanded(s: seq<Block>, h: Hash, clear: bool): (r: seq<Block>)
    ensures |r| == 2 * |s|
  {
    Lefts(s, h, clear) + Rights(s, h, clear)
  }

  datatype Tree = Tree(delta: Block, seed: Block, h: Hash, clear: bool, depth: nat)
  {
    /** Whether level `i` is the masked leaf level; the first level never is. */
    predicate MasksLevel(i: nat) {
      clear && i == depth && i >= 2
    }

    /** The nodes of level `i`, counting from 1. */
    function Level(i: nat): (r: seq<Block>)
      requires i >= 1
      ensures |r| == Pow2(i)
      decreases i, 1
    {
      if i == 1 then FirstLevel() else Below(i)
    }

    function FirstLevel(): seq<Block> {
      [seed, Xor(delta, seed)]
    }

    /** The children of level `i - 1`. */
    function Below(i: nat): (r: seq<Block>)
      requires i >= 2
      ensures |r| == Pow2(i)
      decreases i, 0
    {
      Expanded(Level(i - 1), h, MasksLevel(i))
    }

    /** The sum of the left nodes of level `i`. */
    function LeftSum(i: nat): Block
      requires i >= 1
    {
      if i == 1 then seed else XorSum(Lefts(Level(i - 1), h, MasksLevel(i)))
    }
  }

  // Sums of levels.

  lemma {:induction false} XorSumConcat(a: seq<Block>, b: seq<Block>)
    ensures XorSum(a + b) == Xor(XorSum(a), XorSum(b))
  {
    if b == [] {
      assert a + b == a;
      XorZero(XorSum(a));
    } else {
      var n := |b| - 1;
      assert (a + b)[..|a + b| - 1] == a + b[..n];
      XorSumConcat(a, b[..n]);
      XorAssociates(XorSum(a), XorSum(b[..n]), b[n]);
    }
  }

  /** Each pair of children XORs to its (masked) parent. */
  lemma ChildrenSum(x: Block, h: Hash, clear: bool)
    ensures Xor(LeftChild(x, h, clear), RightChild(x, h, clear)) == Masked(x, clear)
  {
    MaskedXor(h(x), Xor(x, h(x)), clear);
    CancelRight(h(x), x);
  }

  lemma CancelRight(a: Block, x: Block)
    ensures Xor(a, Xor(x, a)) == x
  {
  }

  lemma Interchange(a: Block, b: Block, c: Block, d: Block)
    ensures Xor(Xor(a, b), Xor(c, d)) == Xor(Xor(a, c), Xor(b, d))
  {
    forall i | 0 <= i < 128 ensures Xor(Xor(a, b), Xor(c, d))[i] == Xor(Xor(a, c), Xor(b, d))[i] {
    }
  }

  lemma {:induction false} SidesSum(s: seq<Block>, h: Hash, clear: bool)
    ensures Xor(XorSum(Lefts(s, h, clear)), XorSum(Rights(s, h, clear))) == Masked(XorSum(s), clear)
  {
    if s == [] {
      MaskedXor(ZERO, ZERO, clear);
      XorZero(ZERO);
    } else {
      var n := |s| - 1;
      var l, r, x := LeftChild(s[n], h, clear), RightChild(s[n], h, clear), s[n];
      assert Lefts(s, h, clear)[..n] == Lefts(s[..n], h, clear);
      assert Rights(s, h, clear)[..n] == Rights(s[..n], h, clear);
      SidesSum(s[..n], h, clear);
      ChildrenSum(x, h, clear);
      Interchange(XorSum(Lefts(s[..n], h, clear)), l, XorSum(Rights(s[..n], h, clear)), r);
      MaskedXor(XorSum(s[..n]), x, clear);
    }
  }

  lemma ExpandedSum(s: seq<Block>, h: Hash, clear: bool)
    ensures XorSum(Expanded(s, h, clear)) == Masked(XorSum(s), clear)
  {
    SidesSum(s, h, clear);
    XorSumConcat(Lefts(s, h, clear), Rights(s, h, clear));
  }

  lemma FirstLevelSum(delta: Block, seed: Block)
    ensures XorSum([seed, Xor(delta, seed)]) == delta
  {
    var a, b := seed, Xor(delta, seed);
    assert [a, b] == [a] + [b];
    XorSumConcat([a], [b]);
    SingleSum(a);
    SingleSum(b);
    CancelRight(seed, delta);
  }

  lemma SingleSum(a: Block)
    ensures XorSum([a]) == a
  {
    assert [a][..0] == [];
    assert Xor(ZERO, a) == a;
  }

  /** The nodes of every level XOR to delta, with the mask applied at a masked leaf level. */
  lemma {:induction false} LevelSum(t: Tree, i: nat)
    requires 1 <= i <= t.depth
    ensures XorSum(t.Level(i)) == Masked(t.delta, t.MasksLevel(i))
  {
    if i == 1 {
      FirstLevelSum(t.delta, t.seed);
    } else {
      LevelSum(t, i - 1);
      ExpandedSum(t.Level(i - 1), t.h, t.MasksLevel(i));
    }
  }

  // Without one leaf.

  lemma {:induction false} XorSumUpdate(s: seq<Block>, p: nat, v: Block)
    requires p < |s|
    ensures XorSum(s[p := v]) == Xor(Xor(XorSum(s), s[p]), v)
  {
    var n := |s| - 1;
    if p == n {
      assert s[p := v][..n] == s[..n];
      ReplaceLast(XorSum(s[..n]), s[n], v);
    } else {
      XorSumUpdate(s[..n], p, v);
      assert s[p := v][..n] == s[..n][p := v];
      ReplaceEarlier(XorSum(s[..n]), s[p], v, s[n]);
    }
  }

  lemma ReplaceLast(sum: Block, x: Block, v: Block)
    ensures Xor(sum, v) == Xor(Xor(Xor(sum, x), x), v)
  {
    forall i | 0 <= i < 128 ensures Xor(sum, v)[i] == Xor(Xor(Xor(sum, x), x), v)[i] {
    }
  }

  lemma ReplaceEarlier(sum: Block, x: Block, v: Block, last: Block)
    ensures Xor(Xor(Xor(sum, x), v), last) == Xor(Xor(Xor(sum, last), x), v)
  {
    forall i | 0 <= i < 128 ensures Xor(Xor(Xor(sum, x), v), last)[i] == Xor(Xor(Xor(sum, last), x), v)[i] {
    }
  }

  /** The sum of the nodes of level `i` on the side the path does not take. */
  function OffPathSum(t: Tree, idx: nat, i: nat): Block
    requires i >= 1
  {
    if PathBit(idx, i) == 1 then t.LeftSum(i) else Xor(t.LeftSum(i), t.delta)
  }

  function ShiftRight(v: nat, k: nat): nat {
    if k == 0 then v else ShiftRight(v, k - 1) / 2
  }

  /** Bit `i - 1` of the index: which child the path takes at level `i`. */
  function PathBit(idx: nat, i: nat): nat
    requires i >= 1
  {
    ShiftRight(idx, i - 1) % 2
  }

  /** Position of the on-path node within level `i`. */
  function PathPos(idx: nat, i: nat): (r: nat)
    ensures r < Pow2(i)
  {
    if i == 0 then 0 else PathPos(idx, i - 1) + if PathBit(idx, i) == 1 then Pow2(i - 1) else 0
  }

  lemma {:induction false} PathPosIsIndex(idx: nat, i: nat)
    ensures idx == PathPos(idx, i) + Scaled(ShiftRight(idx, i), i)
  {
    if i > 0 {
      PathPosIsIndex(idx, i - 1);
      var q := ShiftRight(idx, i - 1);
      assert q == 2 * (q / 2) + q % 2;
      ScaledSum(2 * (q / 2), q % 2, i - 1);
      ScaledZeroOne(i - 1);
      ScaledTwice(q / 2, 1, i - 1);
    }
  }

  /** At the leaf level the path position is the index itself. */
  lemma PathPosLeaf(idx: nat, depth: nat)
    requires idx < Pow2(depth)
    ensures PathPos(idx, depth) == idx
  {
    PathPosIsIndex(idx, depth);
    var q := ShiftRight(idx, depth);
    if q > 0 {
      ScaledIsTimes(q, depth);
      MulMonotone(Pow2(depth), 1, q);
    }
    ScaledZeroOne(depth);
  }

  /** The node of level `i` that the path of `idx` leads to, computed along the path alone: a left turn hashes the node,
      a right turn XORs it with its hash, and a cleared leaf level below the first loses its least significant bit. */
  function NodeOnPath(t: Tree, idx: nat, i: nat): Block
    requires i >= 1
  {
    if i == 1 then if idx % 2 == 0 then t.seed else Xor(t.delta, t.seed)
    else
      var x := NodeOnPath(t, idx, i - 1);
      var y: Block := if ShiftRight(idx, i - 1) % 2 == 0 then t.h(x) else Xor(x, t.h(x));
      if t.clear && i == t.depth then y[0 := false] else y
  }

  lemma {:induction false} LevelOnPath(t: Tree, idx: nat, i: nat)
    requires i >= 1
    ensures t.Level(i)[PathPos(idx, i)] == NodeOnPath(t, idx, i)
  {
    if i == 1 {
      assert ShiftRight(idx, 0) == idx && Pow2(0) == 1;
      assert t.Level(1) == t.FirstLevel();
    } else {
      LevelOnPath(t, idx, i - 1);
      assert t.Level(i) == t.Below(i);
    }
  }

  /** Every leaf is what its own path gives. */
  lemma LeafOnPath(t: Tree, idx: nat)
    requires t.depth >= 1 && idx < Pow2(t.depth)
    ensures t.Level(t.depth)[idx] == NodeOnPath(t, idx, t.depth)
  {
    LevelOnPath(t, idx, t.depth);
    PathPosLeaf(idx, t.depth);
  }

  /** The recovered sibling: the off-path side sum of the punctured level, the junk child and the true side sum. */
  lemma SiblingRecovered(s: seq<Block>, p: nat, h: Hash, clear: bool, right: bool, delta: Block, sum: Block,
                         junk: Block, given: Block)
    requires p < |s| && Masked(delta, clear) == Masked(XorSum(s), clear)
    requires sum == XorSum(if right then Rights(s[p := ZERO], h, clear) else Lefts(s[p := ZERO], h, clear))
    requires junk == LeftChild(ZERO, h, clear)
    requires given == if right then Xor(XorSum(Lefts(s, h, clear)), delta) else XorSum(Lefts(s, h, clear))
    ensures Masked(Xor(Xor(sum, junk), given), clear) == if right then RightChild(s[p], h, clear)
        else LeftChild(s[p], h, clear)
  {
    var l, r := XorSum(Lefts(s, h, clear)), XorSum(Rights(s, h, clear));
    assert Lefts(s[p := ZERO], h, clear) == Lefts(s, h, clear)[p := junk];
    ZeroChildren(h, clear);
    assert Rights(s[p := ZERO], h, clear) == Rights(s, h, clear)[p := junk];
    XorSumUpdate(Lefts(s, h, clear), p, junk);
    XorSumUpdate(Rights(s, h, clear), p, junk);
    SidesSum(s, h, clear);
    RecoverLeft(l, LeftChild(s[p], h, clear), junk);
    RecoverRight(l, r, delta, XorSum(s), RightChild(s[p], h, clear), junk, clear);
    MaskedXor(h(s[p]), ZERO, clear);
    MaskedXor(Xor(s[p], h(s[p])), ZERO, clear);
  }

  lemma ZeroChildren(h: Hash, clear: bool)
    ensures RightChild(ZERO, h, clear) == LeftChild(ZERO, h, clear)
  {
    assert Xor(ZERO, h(ZERO)) == h(ZERO);
  }

  lemma RecoverLeft(l: Block, x: Block, junk: Block)
    ensures Xor(Xor(Xor(Xor(l, x), junk), junk), l) == x
  {
    forall i | 0 <= i < 128 ensures Xor(Xor(Xor(Xor(l, x), junk), junk), l)[i] == x[i] {
    }
  }

  lemma RecoverRight(l: Block, r: Block, delta: Block, total: Block, x: Block, junk: Block, clear: bool)
    requires Xor(l, r) == Masked(total, clear) && Masked(delta, clear) == Masked(total, clear)
    ensures Masked(Xor(Xor(Xor(Xor(r, x), junk), junk), Xor(l, delta)), clear) == Masked(x, clear)
  {
    var v := Xor(Xor(Xor(Xor(r, x), junk), junk), Xor(l, delta));
    var m, d := Masked(total, clear), Masked(delta, clear);
    forall i | 0 <= i < 128 ensures Masked(v, clear)[i] == Masked(x, clear)[i] {
      assert (l[i] != r[i]) == m[i] && m[i] == d[i];
      assert (i == 0 && clear) || d[i] == delta[i];
    }
  }

  // In place.

  /** Number of nodes hashed at a time. */
  const BATCH := 64

  function Side(s: seq<Block>, h: Hash, clear: bool, right: bool): (r: seq<Block>)
    ensures |r| == |s|
  {
    if right then Rights(s, h, clear) else Lefts(s, h, clear)
  }

  /** The buffer when the first `k` of `n` parents have been replaced by their children. */
  ghost function Halfway(before: seq<Block>, n: nat, k: nat, lefts: seq<Block>, rights: seq<Block>): (r: seq<Block>)
    requires k <= n == |lefts| == |rights| && 2 * n <= |before|
    ensures |r| == |before|
  {
    if k == 0 then before
    else Halfway(before, n, k - 1, lefts, rights)[n + k - 1 := rights[k - 1]][k - 1 := lefts[k - 1]]
  }

  lemma {:induction false} HalfwayAt(before: seq<Block>, n: nat, k: nat, lefts: seq<Block>, rights: seq<Block>, j: nat)
    requires k <= n == |lefts| == |rights| && 2 * n <= |before| && j < |before|
    ensures Halfway(before, n, k, lefts, rights)[j] == if j < k then lefts[j] else if n <= j < n + k then rights[j - n]
        else before[j]
  {
    if k > 0 {
      HalfwayAt(before, n, k - 1, lefts, rights, j);
    }
  }

  lemma HalfwayAll(before: seq<Block>, n: nat, lefts: seq<Block>, rights: seq<Block>)
    requires n == |lefts| == |rights| && 2 * n <= |before|
    ensures Halfway(before, n, n, lefts, rights) == lefts + rights + before[2 * n..]
  {
    forall j | 0 <= j < |before|
      ensures Halfway(before, n, n, lefts, rights)[j] == (lefts + rights + before[2 * n..])[j] {
      HalfwayAt(before, n, n, lefts, rights, j);
    }
  }

  method HashBatch(nodes: array<Block>, start: nat, len: nat, h: Hash, out: array<Block>)
    requires start + len <= nodes.Length && len <= out.Length && out != nodes
    modifies out
    ensures forall j | 0 <= j < len :: out[j] == h(nodes[start + j])
  {
    for j := 0 to len
      invariant forall i | 0 <= i < j :: out[i] == h(nodes[start + i])
    {
      out[j] := h(nodes[start + j]);
    }
  }

  /** Replaces one parent, whose hash is given, by its children. */
  method ReplaceNode(nodes: array<Block>, n: nat, k: nat, hash: Block, clear: bool)
    requires k < n && 2 * n <= nodes.Length
    modifies nodes
    ensures nodes[..] == old(nodes[..])[n + k := Masked(Xor(old(nodes[k]), hash), clear)][k := Masked(hash, clear)]
  {
    nodes[n + k] := Xor(nodes[k], hash);
    nodes[k] := hash;
    if clear {
      nodes[k] := Masked(nodes[k], clear);
      nodes[n + k] := Masked(nodes[n + k], clear);
    }
  }

  /** The hash of parent `k` gives its children. */
  predicate GivesChildren(parent: Block, hash: Block, left: Block, right: Block, clear: bool) {
    left == Masked(hash, clear) && right == Masked(Xor(parent, hash), clear)
  }

  /** `lefts` and `rights` are the children of the first `n` parents. */
  ghost predicate AreChildren(before: seq<Block>, h: Hash, lefts: seq<Block>, rights: seq<Block>, clear: bool, n: nat) {
    n == 0 ||
    (n <= |before| && n <= |lefts| && n <= |rights|
     && GivesChildren(before[n - 1], h(before[n - 1]), lefts[n - 1], rights[n - 1], clear)
     && AreChildren(before, h, lefts, rights, clear, n - 1))
  }

  lemma {:induction false} ChildrenAt(before: seq<Block>, h: Hash, lefts: seq<Block>, rights: seq<Block>, clear: bool,
                                      n: nat, k: nat)
    requires AreChildren(before, h, lefts, rights, clear, n) && k < n
    ensures n <= |before| && n <= |lefts| && n <= |rights|
        && GivesChildren(before[k], h(before[k]), lefts[k], rights[k], clear)
  {
    if k < n - 1 {
      ChildrenAt(before, h, lefts, rights, clear, n - 1, k);
    }
  }

  lemma {:induction false} AllChildren(before: seq<Block>, h: Hash, clear: bool, n: nat, k: nat)
    requires k <= n <= |before|
    ensures AreChildren(before, h, Lefts(before[..n], h, clear), Rights(before[..n], h, clear), clear, k)
  {
    if k > 0 {
      AllChildren(before, h, clear, n, k - 1);
    }
  }

  method ReplaceOne(nodes: array<Block>, n: nat, k: nat, hash: Block, right: bool, clear: bool, sum0: Block,
                    ghost before: seq<Block>, ghost lefts: seq<Block>, ghost rights: seq<Block>)
    returns (sum: Block)
    requires k < n == |lefts| == |rights| && 2 * n <= nodes.Length == |before|
    requires nodes[..] == Halfway(before, n, k, lefts, rights)
        && GivesChildren(before[k], hash, lefts[k], rights[k], clear)
    modifies nodes
    ensures nodes[..] == Halfway(before, n, k + 1, lefts, rights)
    ensures sum == Xor(sum0, if right then rights[k] else lefts[k])
  {
    HalfwayAt(before, n, k, lefts, rights, k);
    assert nodes[..][k] == nodes[k];
    ReplaceNode(nodes, n, k, hash, clear);
    assert nodes[..][k] == nodes[k] && nodes[..][n + k] == nodes[n + k];
    sum := Xor(sum0, if right then nodes[n + k] else nodes[k]);
  }

  lemma XorSumEnds(s: seq<Block>)
    ensures XorSum(s[..0]) == ZERO && XorSum(s[..|s|]) == XorSum(s)
  {
    assert s[..0] == [] && s[..|s|] == s;
  }

  lemma XorSumNext(s: seq<Block>, k: nat)
    requires k < |s|
    ensures XorSum(s[..k + 1]) == Xor(XorSum(s[..k]), s[k])
  {
    assert s[..k + 1][..k] == s[..k];
  }

  /** Replaces a batch of parents by their children, adding one side's children to the sum. */
  method ReplaceBatch(nodes: array<Block>, n: nat, start: nat, len: nat, hs: array<Block>, right: bool, clear: bool,
                      sum0: Block,
                      ghost before: seq<Block>, ghost lefts: seq<Block>, ghost rights: seq<Block>)
    returns (sum: Block)
    requires start + len <= n == |lefts| == |rights| && 2 * n <= nodes.Length == |before| && len <= hs.Length
        && hs != nodes
    requires nodes[..] == Halfway(before, n, start, lefts, rights)
        && sum0 == XorSum((if right then rights else lefts)[..start])
    requires forall j | 0 <= j < len ::
        GivesChildren(before[start + j], hs[j], lefts[start + j], rights[start + j], clear)
    modifies nodes
    ensures nodes[..] == Halfway(before, n, start + len, lefts, rights)
    ensures sum == XorSum((if right then rights else lefts)[..start + len])
  {
    sum := sum0;
    ghost var side := if right then rights else lefts;
    for j := 0 to len
      invariant nodes[..] == Halfway(before, n, start + j, lefts, rights) && sum == XorSum(side[..start + j])
    {
      XorSumNext(side, start + j);
      sum := ReplaceOne(nodes, n, start + j, hs[j], right, clear, sum, before, lefts, rights);
    }
  }

  /** Expands `n` parents in place, in batches, and sums the children of one side. */
  method ExpandLevel(nodes: array<Block>, n: nat, right: bool, clear: bool, h: Hash) returns (sum: Block)
    requires 2 * n <= nodes.Length
    modifies nodes
    ensures nodes[..2 * n] == Expanded(old(nodes[..n]), h, clear) && nodes[2 * n..] == old(nodes[2 * n..])
    ensures sum == XorSum(Side(old(nodes[..n]), h, clear, right))
  {
    ghost var before := nodes[..];
    ghost var lefts, rights := Lefts(before[..n], h, clear), Rights(before[..n], h, clear);
    AllChildren(before, h, clear, n, n);
    var hs := new Block[BATCH](_ => ZERO);
    sum := ExpandBatches(nodes, n, right, clear, h, hs, before, lefts, rights);
    HalfwayAll(before, n, lefts, rights);
  }

  method ExpandBatch(nodes: array<Block>, n: nat, start: nat, len: nat, hs: array<Block>, right: bool, clear: bool,
                     h: Hash, sum0: Block,
                     ghost before: seq<Block>, ghost lefts: seq<Block>, ghost rights: seq<Block>)
    returns (sum: Block)
    requires start + len <= n == |lefts| == |rights| && 2 * n <= nodes.Length == |before| && len <= hs.Length
        && hs != nodes
    requires nodes[..] == Halfway(before, n, start, lefts, rights)
        && sum0 == XorSum((if right then rights else lefts)[..start])
    requires AreChildren(before, h, lefts, rights, clear, n)
    modifies nodes, hs
    ensures nodes[..] == Halfway(before, n, start + len, lefts, rights)
    ensures sum == XorSum((if right then rights else lefts)[..start + len])
  {
    HashBatch(nodes, start, len, h, hs);
    forall j | 0 <= j < len
      ensures GivesChildren(before[start + j], hs[j], lefts[start + j], rights[start + j], clear) {
      HalfwayAt(before, n, start, lefts, rights, start + j);
      assert nodes[..][start + j] == nodes[start + j];
      ChildrenAt(before, h, lefts, rights, clear, n, start + j);
    }
    sum := ReplaceBatch(nodes, n, start, len, hs, right, clear, sum0, before, lefts, rights);
  }

  method ExpandBatches(nodes: array<Block>, n: nat, right: bool, clear: bool, h: Hash, hs: array<Block>,
                       ghost before: seq<Block>, ghost lefts: seq<Block>, ghost rights: seq<Block>)
    returns (sum: Block)
    requires 2 * n <= nodes.Length && nodes[..] == before && |lefts| == |rights| == n && hs.Length == BATCH
        && hs != nodes
    requires AreChildren(before, h, lefts, rights, clear, n)
    modifies nodes, hs
    ensures nodes[..] == Halfway(before, n, n, lefts, rights) && sum == XorSum(if right then rights else lefts)
  {
    ghost var side := if right then rights else lefts;
    sum := ZERO;
    var start := 0;
    XorSumEnds(side);
    while start < n
      invariant start <= n && nodes[..] == Halfway(before, n, start, lefts, rights) && sum == XorSum(side[..start])
    {
      var len := if start + BATCH <= n then BATCH else n - start;
      sum := ExpandBatch(nodes, n, start, len, hs, right, clear, h, sum, before, lefts, rights);
      start := start + len;
    }
  }

  lemma LevelStep(t: Tree, i: nat, s: seq<Block>, clear: bool)
    requires i >= 2 && s == t.Level(i - 1) && clear == t.MasksLevel(i)
    ensures t.Level(i) == Expanded(s, t.h, clear) && t.LeftSum(i) == XorSum(Side(s, t.h, clear, false))
  {
    assert t.Level(i) == t.Below(i);
  }

  /** The buffer starts with level `i`. */
  ghost predicate HoldsLevel(nodes: seq<Block>, t: Tree, i: nat)
    requires i >= 1
  {
    Pow2(i) <= |nodes| && nodes[..Pow2(i)] == t.Level(i)
  }

  /** The left sums of the first `i` levels. */
  ghost predicate HoldsSums(sums: seq<Block>, t: Tree, i: nat) {
    i <= |sums| && forall j | 1 <= j <= i :: sums[j - 1] == t.LeftSum(j)
  }

  lemma SumsNext(was: seq<Block>, sums: seq<Block>, t: Tree, i: nat, sum: Block)
    requires 1 <= i <= |was| && HoldsSums(was, t, i - 1) && sum == t.LeftSum(i) && sums == was[i - 1 := sum]
    ensures HoldsSums(sums, t, i)
  {
  }

  lemma FullLevel(nodes: seq<Block>, t: Tree, i: nat)
    requires i >= 1 && HoldsLevel(nodes, t, i) && |nodes| == Pow2(i)
    ensures nodes == t.Level(i)
  {
  }

  /** One level further down the tree. */
  method ExpandNext(leaves: array<Block>, ghost t: Tree, i: nat, h: Hash, clear: bool) returns (sum: Block)
    requires i >= 2 && Pow2(i) <= leaves.Length && h == t.h && clear == t.MasksLevel(i)
    requires HoldsLevel(leaves[..], t, i - 1)
    modifies leaves
    ensures HoldsLevel(leaves[..], t, i) && sum == t.LeftSum(i)
  {
    var n := Pow2(i - 1);
    assert leaves[..][..n] == leaves[..n];
    LevelStep(t, i, leaves[..n], clear);
    sum := ExpandLevel(leaves, n, false, clear, h);
    assert leaves[..][..2 * n] == leaves[..2 * n];
  }

  method StartExpand(leaves: array<Block>, ghost t: Tree, delta: Block, seed: Block)
    requires leaves.Length >= 2 && t.delta == delta && t.seed == seed
    modifies leaves
    ensures HoldsLevel(leaves[..], t, 1)
  {
    leaves[0] := seed;
    leaves[1] := Xor(delta, seed);
    assert leaves[..][..2] == t.FirstLevel();
  }

  /** Expands the whole tree in place, recording the left sum of each level. */
  method Expand(delta: Block, seed: Block, h: Hash, clear: bool, leaves: array<Block>, sums: array<Block>)
    requires sums.Length >= 1 && leaves.Length == Pow2(sums.Length) && leaves != sums
    modifies leaves, sums
    ensures leaves[..] == Tree(delta, seed, h, clear, sums.Length).Level(sums.Length)
    ensures forall i | 1 <= i <= sums.Length :: sums[i - 1] == Tree(delta, seed, h, clear, sums.Length).LeftSum(i)
  {
    var depth := sums.Length;
    ghost var t := Tree(delta, seed, h, clear, depth);
    Pow2Monotone(1, depth);
    StartExpand(leaves, t, delta, seed);
    sums[0] := seed;
    for i := 2 to depth + 1
      invariant HoldsLevel(leaves[..], t, i - 1) && HoldsSums(sums[..], t, i - 1)
    {
      Pow2Monotone(i, depth);
      var sum := ExpandNext(leaves, t, i, h, clear && i == depth);
      ghost var was := sums[..];
      sums[i - 1] := sum;
      SumsNext(was, sums[..], t, i, sum);
    }
    FullLevel(leaves[..], t, depth);
  }

  lemma {:induction false} Pow2Monotone(m: nat, n: nat)
    requires m <= n
    ensures Pow2(m) <= Pow2(n)
  {
    if m < n {
      Pow2Monotone(m, n - 1);
    }
  }

  /** Removing both junk children and writing the recovered sibling gives the next level without its on-path node. */
  lemma PuncturedFrom(s: seq<Block>, pos: nat, h: Hash, clear: bool, b: nat, sibling: Block, level: seq<Block>)
    requires pos < |s| && b <= 1 && level == Expanded(s[pos := ZERO], h, clear)
    requires sibling == if b == 0 then RightChild(s[pos], h, clear) else LeftChild(s[pos], h, clear)
    ensures level[pos := ZERO][pos + |s| := ZERO][if b == 0 then pos + |s| else pos := sibling]
         == Expanded(s, h, clear)[if b == 0 then pos else pos + |s| := ZERO]
  {
    var l := level[pos := ZERO][pos + |s| := ZERO][if b == 0 then pos + |s| else pos := sibling];
    var r := Expanded(s, h, clear)[if b == 0 then pos else pos + |s| := ZERO];
    forall j | 0 <= j < |l| ensures l[j] == r[j] {
      if j < |s| {
        assert level[j] == LeftChild(s[pos := ZERO][j], h, clear);
      } else {
        assert level[j] == RightChild(s[pos := ZERO][j - |s|], h, clear);
      }
    }
  }

  lemma LevelTotal(t: Tree, i: nat, s: seq<Block>)
    requires 1 <= i < t.depth && s == t.Level(i)
    ensures XorSum(s) == t.delta
  {
    LevelSum(t, i);
  }

  lemma SiblingAtLevel(t: Tree, i: nat, s: seq<Block>, p: nat, right: bool, clear: bool, sum: Block, junk: Block,
                       given: Block)
    requires 2 <= i <= t.depth && clear == t.MasksLevel(i) && s == t.Level(i - 1) && p < |s|
    requires sum == XorSum(Side(s[p := ZERO], t.h, clear, right)) && junk == LeftChild(ZERO, t.h, clear)
    requires given == if right then Xor(t.LeftSum(i), t.delta) else t.LeftSum(i)
    ensures Masked(Xor(Xor(sum, junk), given), clear) == if right then RightChild(s[p], t.h, clear)
        else LeftChild(s[p], t.h, clear)
  {
    LevelTotal(t, i - 1, s);
    LevelStep(t, i, s, clear);
    SiblingRecovered(s, p, t.h, clear, right, t.delta, sum, junk, given);
  }

  lemma JunkChild(s: seq<Block>, pos: nat, h: Hash, clear: bool)
    requires pos < |s|
    ensures Expanded(s[pos := ZERO], h, clear)[pos] == LeftChild(ZERO, h, clear)
  {
  }

  lemma RecoverAt(t: Tree, idx: nat, i: nat, s: seq<Block>, pos: nat, b: nat, clear: bool, sum: Block, given: Block,
                  junk: Block)
    requires 2 <= i <= t.depth && clear == t.MasksLevel(i) && s == t.Level(i - 1) && pos < |s| && b == PathBit(idx, i)
    requires sum == XorSum(Side(s[pos := ZERO], t.h, clear, b == 0)) && junk == LeftChild(ZERO, t.h, clear)
        && given == OffPathSum(t, idx, i)
    ensures Masked(Xor(Xor(sum, junk), given), clear) == if b == 0 then RightChild(s[pos], t.h, clear)
        else LeftChild(s[pos], t.h, clear)
  {
    SiblingAtLevel(t, i, s, pos, b == 0, clear, sum, junk, given);
  }

  /** What one level of the punctured expansion computes. */
  lemma PuncturedLevel(t: Tree, idx: nat, i: nat, s: seq<Block>, pos: nat, b: nat, clear: bool, sum: Block,
                       given: Block, level: seq<Block>, sibling: Block)
    requires 2 <= i <= t.depth && clear == t.MasksLevel(i) && s == t.Level(i - 1) && pos < |s| && b == PathBit(idx, i)
    requires level == Expanded(s[pos := ZERO], t.h, clear) && sum == XorSum(Side(s[pos := ZERO], t.h, clear, b == 0))
    requires given == OffPathSum(t, idx, i) && sibling == Masked(Xor(Xor(sum, level[pos]), given), clear)
    ensures |t.Level(i)| == 2 * |s|
    ensures t.Level(i)[if b == 0 then pos else pos + |s| := ZERO]
         == level[pos := ZERO][pos + |s| := ZERO][if b == 0 then pos + |s| else pos := sibling]
  {
    JunkChild(s, pos, t.h, clear);
    RecoverAt(t, idx, i, s, pos, b, clear, sum, given, level[pos]);
    LevelStep(t, i, s, clear);
    PuncturedFrom(s, pos, t.h, clear, b, sibling, level);
  }

  lemma PuncturedLevelAt(t: Tree, idx: nat, i: nat, half: nat, pos: nat, b: nat, clear: bool, sum: Block, given: Block,
                         level: seq<Block>, sibling: Block)
    requires 2 <= i <= t.depth && clear == t.MasksLevel(i) && half == Pow2(i - 1) && pos < half && b == PathBit(idx, i)
    requires level == Expanded(t.Level(i - 1)[pos := ZERO], t.h, clear)
        && sum == XorSum(Side(t.Level(i - 1)[pos := ZERO], t.h, clear, b == 0))
    requires given == OffPathSum(t, idx, i) && sibling == Masked(Xor(Xor(sum, level[pos]), given), clear)
    ensures t.Level(i)[if b == 0 then pos else pos + half := ZERO]
         == level[pos := ZERO][pos + half := ZERO][if b == 0 then pos + half else pos := sibling]
  {
    PuncturedLevel(t, idx, i, t.Level(i - 1), pos, b, clear, sum, given, level, sibling);
  }

  /** One level further down, without the on-path node. */
  method PuncturedNext(leaves: array<Block>, half: nat, pos: nat, b: nat, given: Block, h: Hash, clear: bool,
                       ghost t: Tree, ghost idx: nat, ghost i: nat)
    requires 2 <= i <= t.depth && half == Pow2(i - 1) && 2 * half <= leaves.Length && pos < half && b == PathBit(idx, i)
    requires h == t.h && clear == t.MasksLevel(i) && leaves[..half] == t.Level(i - 1)[pos := ZERO]
        && given == OffPathSum(t, idx, i)
    modifies leaves
    ensures leaves[..2 * half] == t.Level(i)[if b == 0 then pos else pos + half := ZERO]
  {
    var sum := ExpandLevel(leaves, half, b == 0, clear, h);
    ghost var level := leaves[..2 * half];
    var junk := leaves[pos];
    assert junk == level[pos];
    var sibling := Xor(Xor(sum, junk), given);
    if clear {
      sibling := Masked(sibling, clear);
    }
    PuncturedLevelAt(t, idx, i, half, pos, b, clear, sum, given, level, sibling);
    WritePunctured(leaves, half, pos, b, sibling, level);
  }

  method WritePunctured(leaves: array<Block>, half: nat, pos: nat, b: nat, sibling: Block, ghost level: seq<Block>)
    requires 2 * half <= leaves.Length && pos < half && b <= 1 && level == leaves[..2 * half]
    modifies leaves
    ensures leaves[..2 * half] == level[pos := ZERO][pos + half := ZERO][if b == 0 then pos + half else pos := sibling]
  {
    leaves[pos] := ZERO;
    leaves[pos + half] := ZERO;
    leaves[if b == 0 then pos + half else pos] := sibling;
  }

  /** The buffer starts with level `i` without its on-path node, which is at `pos`. */
  ghost predicate HoldsPunctured(nodes: seq<Block>, t: Tree, idx: nat, i: nat, pos: nat)
    requires i >= 1
  {
    Pow2(i) <= |nodes| && pos == PathPos(idx, i) && nodes[..Pow2(i)] == t.Level(i)[pos := ZERO]
  }

  lemma FullPunctured(nodes: seq<Block>, t: Tree, idx: nat, i: nat, pos: nat)
    requires i >= 1 && HoldsPunctured(nodes, t, idx, i, pos) && |nodes| == Pow2(i) && idx < Pow2(i)
    ensures nodes == t.Level(i)[idx := ZERO]
  {
    PathPosLeaf(idx, i);
  }

  /** Follows the path one level down. */
  method PuncturedStep(leaves: array<Block>, idx: nat, i: nat, pos: nat, given: Block, h: Hash, clear: bool,
                       ghost t: Tree) returns (next: nat)
    requires 2 <= i <= t.depth && Pow2(i) <= leaves.Length && HoldsPunctured(leaves[..], t, idx, i - 1, pos)
    requires h == t.h && clear == t.MasksLevel(i) && given == OffPathSum(t, idx, i)
    modifies leaves
    ensures HoldsPunctured(leaves[..], t, idx, i, next)
  {
    var half := Pow2(i - 1);
    var b := ShiftRight(idx, i - 1) % 2;
    assert leaves[..][..half] == leaves[..half];
    PuncturedNext(leaves, half, pos, b, given, h, clear, t, idx, i);
    next := if b == 0 then pos else pos + half;
    assert leaves[..][..2 * half] == leaves[..2 * half];
  }

  /** The first level without its on-path node. */
  method StartPunctured(leaves: array<Block>, idx: nat, given: Block, ghost t: Tree) returns (pos: nat)
    requires leaves.Length >= 2 && given == OffPathSum(t, idx, 1)
    modifies leaves
    ensures HoldsPunctured(leaves[..], t, idx, 1, pos)
  {
    pos := idx % 2;
    leaves[pos] := ZERO;
    leaves[1 - pos] := given;
    assert leaves[..][..2] == leaves[..2];
    FirstPunctured(t, idx, leaves[..2], given);
  }

  /** Expands the tree without the leaf at `idx` from the off-path sums, whatever the buffer held before. */
  method ExpandPunctured(idx: nat, sums: seq<Block>, leaves: array<Block>, h: Hash, clear: bool, ghost t: Tree)
    requires |sums| >= 1 && leaves.Length == Pow2(|sums|) && idx < leaves.Length
    requires t.h == h && t.clear == clear && t.depth == |sums|
    requires forall i | 1 <= i <= |sums| :: sums[i - 1] == OffPathSum(t, idx, i)
    modifies leaves
    ensures leaves[..] == t.Level(|sums|)[idx := ZERO]
  {
    var depth := |sums|;
    Pow2Monotone(1, depth);
    var pos := StartPunctured(leaves, idx, sums[0], t);
    for i := 2 to depth + 1
      invariant HoldsPunctured(leaves[..], t, idx, i - 1, pos)
    {
      Pow2Monotone(i, depth);
      pos := PuncturedStep(leaves, idx, i, pos, sums[i - 1], h, clear && i == depth, t);
    }
    FullPunctured(leaves[..], t, idx, depth, pos);
  }

  lemma FirstPunctured(t: Tree, idx: nat, nodes: seq<Block>, given: Block)
    requires |nodes| == 2 && given == OffPathSum(t, idx, 1) && nodes[idx % 2] == ZERO && nodes[1 - idx % 2] == given
    ensures PathPos(idx, 1) == idx % 2 && nodes == t.Level(1)[idx % 2 := ZERO]
  {
    assert ShiftRight(idx, 0) == idx;
    assert PathPos(idx, 0) == 0 && Pow2(0) == 1;
    assert t.Level(1) == t.FirstLevel();
    assert Xor(t.seed, t.delta) == Xor(t.delta, t.seed);
  }

  /** XORing all leaves but one gives the missing leaf offset by the level's total. */
  lemma PuncturedSum(t: Tree, idx: nat)
    requires t.depth >= 1 && idx < Pow2(t.depth)
    ensures XorSum(t.Level(t.depth)[idx := ZERO]) == Xor(t.Level(t.depth)[idx], Masked(t.delta, t.MasksLevel(t.depth)))
  {
    LevelSum(t, t.depth);
    XorSumUpdate(t.Level(t.depth), idx, ZERO);
    var s, x := XorSum(t.Level(t.depth)), t.Level(t.depth)[idx];
    XorZero(Xor(s, x));
    assert Xor(s, x) == Xor(x, s);
  }
}
