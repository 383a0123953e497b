/** BLAKE3's tree of chaining values, and the stack that builds it one leaf at a time. */
module Blake3Tree {
  import opened Bits

  type Cv = Bits

  /** How two children make a parent; the flag marks the root. */
  type ParentRule = (Cv, Cv, bool) -> Cv

  // The definition: the left subtree of `n` leaves holds the largest power of two below `n`.

  function LeftSize(n: nat): (p: nat)
    requires n >= 2
    ensures p < n <= 2 * p
  {
    if n == 2 then 1 else 2 * LeftSize((n + 1) / 2)
  }

  lemma {:induction false} LeftSizeIsPower(n: nat) returns (h: nat)
    requires n >= 2
    ensures LeftSize(n) == Pow2(h)
  {
    if n == 2 {
      h := 0;
    } else {
      var g := LeftSizeIsPower((n + 1) / 2);
      h := g + 1;
    }
  }

  /** The chaining value of a subtree that is not the root. */
  function Subtree(leaves: seq<Cv>, parent: ParentRule): Cv
    requires leaves != []
  {
    if |leaves| == 1 then leaves[0]
    else
      var p := LeftSize(|leaves|);
      parent(Subtree(leaves[..p], parent), Subtree(leaves[p..], parent), false)
  }

  /** The root over at least two leaves. */
  function Root(leaves: seq<Cv>, parent: ParentRule): Cv
    requires |leaves| >= 2
  {
    var p := LeftSize(|leaves|);
    parent(Subtree(leaves[..p], parent), Subtree(leaves[p..], parent), true)
  }

  // Pairing neighbours.

  /** Parents of complete pairs; an odd last node is dropped. */
  function Paired(nodes: seq<Cv>, parent: ParentRule): (r: seq<Cv>)
    ensures |r| == |nodes| / 2
  {
    seq(|nodes| / 2, i requires 0 <= i < |nodes| / 2 => parent(nodes[2 * i], nodes[2 * i + 1], false))
  }

  function OddLast(nodes: seq<Cv>): seq<Cv> {
    if |nodes| % 2 == 1 then [nodes[|nodes| - 1]] else []
  }

  /** Parents of complete pairs; an odd last node is carried up. */
  function PairedUp(nodes: seq<Cv>, parent: ParentRule): (r: seq<Cv>)
    ensures |r| == (|nodes| + 1) / 2
  {
    Paired(nodes, parent) + OddLast(nodes)
  }

  lemma HalvedCount(n: nat, h: nat)
    requires 2 * h <= n
    ensures (n - 2 * h) / 2 == n / 2 - h && (n - 2 * h) % 2 == n % 2
  {
    DivModUnique(n - 2 * h, 2, n / 2 - h, n % 2);
  }

  lemma PairedSplit(nodes: seq<Cv>, h: nat, parent: ParentRule)
    requires 2 * h <= |nodes|
    ensures Paired(nodes, parent)[..h] == Paired(nodes[..2 * h], parent) == PairedUp(nodes[..2 * h], parent)
    ensures Paired(nodes, parent)[h..] == Paired(nodes[2 * h..], parent)
  {
    var r := nodes[2 * h..];
    HalvedCount(|nodes|, h);
    DivModUnique(2 * h, 2, h, 0);
    forall i | 0 <= i < |r| / 2 ensures Paired(r, parent)[i] == Paired(nodes, parent)[h + i] {
      assert r[2 * i] == nodes[2 * (h + i)] && r[2 * i + 1] == nodes[2 * (h + i) + 1];
    }
  }

  lemma PairedUpSplit(nodes: seq<Cv>, h: nat, parent: ParentRule)
    requires 2 * h <= |nodes|
    ensures PairedUp(nodes, parent)[..h] == PairedUp(nodes[..2 * h], parent)
    ensures PairedUp(nodes, parent)[h..] == PairedUp(nodes[2 * h..], parent)
  {
    HalvedCount(|nodes|, h);
    PairedSplit(nodes, h, parent);
    var r := nodes[2 * h..];
    if |r| % 2 == 1 {
      assert r[|r| - 1] == nodes[|nodes| - 1];
    }
    SplitAppended(Paired(nodes, parent), OddLast(nodes), h);
  }

  lemma SplitAppended(a: seq<Cv>, b: seq<Cv>, h: nat)
    requires h <= |a|
    ensures (a + b)[..h] == a[..h] && (a + b)[h..] == a[h..] + b
  {
  }

  /** A subtree can be computed by pairing neighbours level by level. */
  lemma {:induction false} SubtreePairs(nodes: seq<Cv>, parent: ParentRule)
    requires nodes != []
    ensures Subtree(PairedUp(nodes, parent), parent) == Subtree(nodes, parent)
    decreases |nodes|
  {
    if |nodes| == 1 {
      assert PairedUp(nodes, parent) == nodes;
    } else if |nodes| == 2 {
      assert PairedUp(nodes, parent) == [parent(nodes[0], nodes[1], false)];
      assert nodes[..1] == [nodes[0]] && nodes[1..] == [nodes[1]];
    } else {
      HalvesPair(nodes, parent);
      var p := LeftSize(|nodes|);
      SubtreePairs(nodes[..p], parent);
      SubtreePairs(nodes[p..], parent);
    }
  }

  /** The split of the paired nodes is the pairing of the split. */
  lemma HalvesPair(nodes: seq<Cv>, parent: ParentRule)
    requires |nodes| >= 3
    ensures var p, q := LeftSize(|nodes|), LeftSize(|PairedUp(nodes, parent)|);
            && PairedUp(nodes, parent)[..q] == PairedUp(nodes[..p], parent)
            && PairedUp(nodes, parent)[q..] == PairedUp(nodes[p..], parent)
  {
    PairedUpSplit(nodes, LeftSize((|nodes| + 1) / 2), parent);
  }

  lemma RootPairs(nodes: seq<Cv>, parent: ParentRule)
    requires |nodes| >= 3
    ensures Root(PairedUp(nodes, parent), parent) == Root(nodes, parent)
  {
    HalvesPair(nodes, parent);
    var p := LeftSize(|nodes|);
    SubtreePairs(nodes[..p], parent);
    SubtreePairs(nodes[p..], parent);
  }

  // The stack.

  /** One complete subtree per set bit of the number of leaves, largest first. */
  function Stack(leaves: seq<Cv>, parent: ParentRule): seq<Cv>
    decreases |leaves|
  {
    if leaves == [] then []
    else Stack(Paired(leaves, parent), parent) + if |leaves| % 2 == 1 then [leaves[|leaves| - 1]] else []
  }

  function PopCount(n: nat): nat {
    if n == 0 then 0 else PopCount(n / 2) + n % 2
  }

  lemma {:induction false} StackSize(leaves: seq<Cv>, parent: ParentRule)
    ensures |Stack(leaves, parent)| == PopCount(|leaves|)
    decreases |leaves|
  {
    if leaves != [] {
      StackSize(Paired(leaves, parent), parent);
    }
  }

  lemma PairedSnoc(nodes: seq<Cv>, x: Cv, parent: ParentRule)
    ensures |nodes| % 2 == 0 ==> Paired(nodes + [x], parent) == Paired(nodes, parent)
    ensures |nodes| % 2 == 1
        ==> Paired(nodes + [x], parent) == Paired(nodes, parent) + [parent(nodes[|nodes| - 1], x, false)]
  {
    var n := |nodes|;
    forall i | 0 <= i < n / 2 ensures Paired(nodes + [x], parent)[i] == Paired(nodes, parent)[i] {
    }
    if n % 2 == 1 {
      assert 2 * (n / 2) == n - 1;
      assert (nodes + [x])[n - 1] == nodes[n - 1];
    }
  }

  /** Adding a leaf to an odd number of nodes merges it with the last one, on top of the stack. */
  lemma StackPop(nodes: seq<Cv>, x: Cv, parent: ParentRule)
    requires |nodes| % 2 == 1
    ensures Stack(nodes, parent) == Stack(Paired(nodes, parent), parent) + [nodes[|nodes| - 1]]
    ensures Stack(nodes + [x], parent) == Stack(Paired(nodes, parent) + [parent(nodes[|nodes| - 1], x, false)], parent)
  {
    PairedSnoc(nodes, x, parent);
  }

  /** Adding a leaf to an even number of nodes pushes it. */
  lemma StackPush(nodes: seq<Cv>, x: Cv, parent: ParentRule)
    requires |nodes| % 2 == 0
    ensures Stack(nodes + [x], parent) == Stack(nodes, parent) + [x]
  {
    PairedSnoc(nodes, x, parent);
    assert (nodes + [x])[|nodes|] == x;
    if nodes == [] {
      assert Paired(nodes, parent) == [];
    }
  }

  /** Merging the stack from the top down onto `out`; the last merge makes the root. */
  function Merged(stack: seq<Cv>, out: Cv, parent: ParentRule): Cv
    requires stack != []
  {
    var n := |stack| - 1;
    if n == 0 then parent(stack[0], out, true)
    else Merged(stack[..n], parent(stack[n], out, false), parent)
  }

  lemma StackNonempty(leaves: seq<Cv>, parent: ParentRule)
    requires leaves != []
    ensures Stack(leaves, parent) != []
    decreases |leaves|
  {
    if |leaves| > 1 {
      StackNonempty(Paired(leaves, parent), parent);
    }
  }

  /** Merging the stack onto one more leaf gives the root over all of them. */
  lemma {:induction false} MergedIsRoot(leaves: seq<Cv>, x: Cv, parent: ParentRule)
    requires leaves != []
    ensures Stack(leaves, parent) != [] && Merged(Stack(leaves, parent), x, parent) == Root(leaves + [x], parent)
    decreases |leaves|
  {
    StackNonempty(leaves, parent);
    PairedSnoc(leaves, x, parent);
    if |leaves| == 1 {
      OneLeaf(leaves, x, parent);
    } else {
      var up := Paired(leaves, parent);
      RootPairs(leaves + [x], parent);
      StackNonempty(up, parent);
      if |leaves| % 2 == 1 {
        var y := parent(leaves[|leaves| - 1], x, false);
        MergedIsRoot(up, y, parent);
        assert PairedUp(leaves + [x], parent) == up + [y];
        assert Stack(leaves, parent)[..|Stack(leaves, parent)| - 1] == Stack(up, parent);
      } else {
        MergedIsRoot(up, x, parent);
        assert PairedUp(leaves + [x], parent) == up + [x];
        assert Stack(leaves, parent) == Stack(up, parent);
      }
    }
  }

  lemma OneLeaf(leaves: seq<Cv>, x: Cv, parent: ParentRule)
    requires |leaves| == 1
    ensures Stack(leaves, parent) == [leaves[0]]
        && Merged(Stack(leaves, parent), x, parent) == Root(leaves + [x], parent)
  {
    assert Paired(leaves, parent) == [];
    var l := leaves + [x];
    assert l[..1] == [leaves[0]] && l[1..] == [x];
  }

  // What the stack holds.

  /** The largest power of two not above `n`. */
  function TopBit(n: nat): (q: nat)
    requires n >= 1
    ensures q <= n < 2 * q && q >= 1
  {
    if n == 1 then 1 else 2 * TopBit(n / 2)
  }

  /** Complete subtrees over consecutive runs of leaves, each run the largest power of two that fits. */
  function CompleteSubtrees(leaves: seq<Cv>, parent: ParentRule): seq<Cv> {
    if leaves == [] then []
    else
      var q := TopBit(|leaves|);
      [Subtree(leaves[..q], parent)] + CompleteSubtrees(leaves[q..], parent)
  }

  lemma {:induction false} CompleteSubtreesPair(leaves: seq<Cv>, parent: ParentRule)
    requires leaves != []
    ensures CompleteSubtrees(leaves, parent) == CompleteSubtrees(Paired(leaves, parent), parent) + OddLast(leaves)
    decreases |leaves|
  {
    if |leaves| == 1 {
      assert leaves[..1] == leaves && leaves[1..] == [] && Paired(leaves, parent) == [];
    } else {
      var h := TopBit(|leaves| / 2);
      PairedSplit(leaves, h, parent);
      SubtreePairs(leaves[..2 * h], parent);
      var rest := leaves[2 * h..];
      if rest == [] {
        assert Paired(rest, parent) == [];
      } else {
        CompleteSubtreesPair(rest, parent);
      }
      CompleteStep(leaves, Paired(leaves, parent), h, parent);
    }
  }

  /** Both sides begin with the same subtree. */
  lemma CompleteStep(leaves: seq<Cv>, up: seq<Cv>, h: nat, parent: ParentRule)
    requires |leaves| >= 2 && |up| == |leaves| / 2 && h == TopBit(|leaves| / 2)
    requires Subtree(leaves[..2 * h], parent) == Subtree(up[..h], parent)
    requires CompleteSubtrees(leaves[2 * h..], parent) == CompleteSubtrees(up[h..], parent) + OddLast(leaves[2 * h..])
    ensures CompleteSubtrees(leaves, parent) == CompleteSubtrees(up, parent) + OddLast(leaves)
  {
    OddLastDrop(leaves, h);
    assert TopBit(|leaves|) == 2 * h;
    Glue(Subtree(up[..h], parent), CompleteSubtrees(leaves[2 * h..], parent), CompleteSubtrees(up[h..], parent),
         OddLast(leaves));
  }

  lemma OddLastDrop(nodes: seq<Cv>, h: nat)
    requires 2 * h <= |nodes|
    ensures OddLast(nodes[2 * h..]) == OddLast(nodes)
  {
  }

  lemma Glue(x: Cv, a: seq<Cv>, b: seq<Cv>, odd: seq<Cv>)
    requires a == b + odd
    ensures [x] + a == ([x] + b) + odd
  {
  }

  /** The stack holds one complete subtree for each set bit of the leaf count, largest first. */
  lemma {:induction false} StackIsCompleteSubtrees(leaves: seq<Cv>, parent: ParentRule)
    ensures Stack(leaves, parent) == CompleteSubtrees(leaves, parent)
    decreases |leaves|
  {
    if leaves != [] {
      StackIsCompleteSubtrees(Paired(leaves, parent), parent);
      CompleteSubtreesPair(leaves, parent);
    }
  }
}
