/** LPN encoding with a sparse matrix generated on the fly: batched computation against the row-by-row definition. */
module Lpn {
  import opened Bits

  /** Four 32-bit words, the halves of which select columns. */
  type Words = w: seq<nat> | |w| == 4 witness [0, 0, 0, 0]

  /** Number of four-row groups whose indices are generated together. */
  const GROUPS := 4

  /** The matrix: a permutation on blocks, the row weight, and whether index blocks are a single counter. */
  datatype Matrix = Matrix(prp: (nat, nat) -> Words, weight: nat, emp: bool)
  {
    function IndexBlock(pos: nat, d: nat): (nat, nat) {
      if emp then ((pos / 4) * weight + d, 0) else (pos, d)
    }

    /** The first `n` index blocks of the group starting at row `pos`, encrypted. */
    function Group(pos: nat, n: nat): (r: seq<Words>)
      ensures |r| == n
    {
      if n == 0 then []
      else
        var b := IndexBlock(pos, n - 1);
        Group(pos, n - 1) + [prp(b.0, b.1)]
    }

    /** The columns of lane `lane` of the group at `pos`. */
    function Lane(pos: nat, lane: nat): (r: seq<nat>)
      requires lane < 4
      ensures |r| == weight
    {
      LaneOf(Group(pos, weight), lane, weight)
    }

    /** The columns of row `row`: lane `row % 4` of its group of four rows. */
    function Columns(row: nat): (r: seq<nat>)
      ensures |r| == weight
    {
      Lane(row / 4 * 4, row % 4)
    }
  }

  function Flattened(blocks: seq<Words>): (r: seq<nat>)
    ensures |r| == 4 * |blocks|
  {
    if blocks == [] then [] else Flattened(blocks[..|blocks| - 1]) + blocks[|blocks| - 1]
  }

  lemma LaneBound(lane: nat, weight: nat)
    requires lane < 4
    ensures lane * weight + weight <= 4 * weight
  {
    MulMonotone(weight, lane + 1, 4);
    assert weight * (lane + 1) == lane * weight + weight;
  }

  /** The `lane`-th run of `weight` words. */
  function LaneOf(group: seq<Words>, lane: nat, weight: nat): (r: seq<nat>)
    requires lane < 4 && |group| == weight
    ensures |r| == weight
  {
    LaneBound(lane, weight);
    Flattened(group)[lane * weight..lane * weight + weight]
  }

  // The definition.

  /** `acc` plus the entries of `x` at the given columns, modulo the length of `x`. */
  function Accumulated(acc: Block, x: seq<Block>, cols: seq<nat>): Block
    requires x != []
  {
    if cols == [] then acc
    else Xor(Accumulated(acc, x, cols[..|cols| - 1]), x[cols[|cols| - 1] % |x|])
  }

  function AccumulatedBit(acc: bool, x: seq<bool>, cols: seq<nat>): bool
    requires x != []
  {
    if cols == [] then acc
    else AccumulatedBit(acc, x, cols[..|cols| - 1]) != x[cols[|cols| - 1] % |x|]
  }

  /** Row by row, `y == A·x + e`. */
  ghost predicate Encoded(y: seq<Block>, e: seq<Block>, x: seq<Block>, m: Matrix) {
    x != [] && |y| == |e| && forall r: nat | r < |y| :: y[r] == Accumulated(e[r], x, m.Columns(r))
  }

  ghost predicate EncodedBits(y: seq<bool>, e: seq<bool>, x: seq<bool>, m: Matrix) {
    x != [] && |y| == |e| && forall r: nat | r < |y| :: y[r] == AccumulatedBit(e[r], x, m.Columns(r))
  }

  // The matrix.

  lemma {:induction false} FlattenedAt(blocks: seq<Words>, d: nat, j: nat)
    requires d < |blocks| && j < 4
    ensures Flattened(blocks)[4 * d + j] == blocks[d][j]
  {
    if d < |blocks| - 1 {
      FlattenedAt(blocks[..|blocks| - 1], d, j);
    }
  }

  lemma {:induction false} GroupAt(m: Matrix, pos: nat, n: nat, d: nat)
    requires d < n
    ensures var b := m.IndexBlock(pos, d); m.Group(pos, n)[d] == m.prp(b.0, b.1)
  {
    if d < n - 1 {
      GroupAt(m, pos, n - 1, d);
    }
  }

  lemma LaneWord(m: Matrix, pos: nat, lane: nat, j: nat, p: nat)
    requires lane < 4 && j < m.weight && p == lane * m.weight + j
    ensures p / 4 < m.weight
    ensures var b := m.IndexBlock(pos, p / 4); m.Lane(pos, lane)[j] == m.prp(b.0, b.1)[p % 4]
  {
    LaneBound(lane, m.weight);
    assert p == 4 * (p / 4) + p % 4;
    FlattenedAt(m.Group(pos, m.weight), p / 4, p % 4);
    GroupAt(m, pos, m.weight, p / 4);
  }

  /** Column `j` of row `r` is word `p % 4` of the `p / 4`-th permuted index block of the row's group, where
      `p = (r % 4)·weight + j`: no two rows of a group share a word. */
  lemma ColumnAt(m: Matrix, r: nat, j: nat)
    requires j < m.weight
    ensures var p := r % 4 * m.weight + j;
            var b := m.IndexBlock(r - r % 4, p / 4);
            p / 4 < m.weight && m.Columns(r)[j] == m.prp(b.0, b.1)[p % 4]
  {
    assert r / 4 * 4 == r - r % 4;
    LaneWord(m, r - r % 4, r % 4, j, r % 4 * m.weight + j);
  }

  lemma FourRuns<T>(f: seq<T>, w: nat, w2: nat, w3: nat, c0: seq<T>, c1: seq<T>, c2: seq<T>, c3: seq<T>)
    requires w2 == w + w && w3 == w2 + w && |f| == w3 + w
    requires c0 == f[..w] && c1 == f[w..w2] && c2 == f[w2..w3] && c3 == f[w3..]
    ensures c0 + c1 + c2 + c3 == f
  {
  }

  lemma GroupLane(m: Matrix, g: nat, f: seq<nat>, w: nat, i: nat, start: nat)
    requires i < 4 && w == m.weight && f == Flattened(m.Group(4 * g, w)) && start == i * w
    ensures |f| == 4 * w && start + w <= |f| && m.Columns(4 * g + i) == f[start..start + w]
  {
    LaneBound(i, w);
    LaneColumns(m, 4 * g, i);
  }

  /** The columns of the four rows of a group, in order, are its permuted index blocks, in order. */
  lemma GroupColumns(m: Matrix, g: nat)
    ensures m.Columns(4 * g) + m.Columns(4 * g + 1) + m.Columns(4 * g + 2) + m.Columns(4 * g + 3)
         == Flattened(m.Group(4 * g, m.weight))
  {
    GroupColumnsOf(m, g, Flattened(m.Group(4 * g, m.weight)), m.weight, m.Columns(4 * g), m.Columns(4 * g + 1),
                   m.Columns(4 * g + 2), m.Columns(4 * g + 3));
  }

  lemma GroupColumnsOf(m: Matrix, g: nat, f: seq<nat>, w: nat, c0: seq<nat>, c1: seq<nat>, c2: seq<nat>, c3: seq<nat>)
    requires w == m.weight && f == Flattened(m.Group(4 * g, w)) && c0 == m.Columns(4 * g) && c1 == m.Columns(4 * g + 1)
        && c2 == m.Columns(4 * g + 2) && c3 == m.Columns(4 * g + 3)
    ensures c0 + c1 + c2 + c3 == f
  {
    GroupLane(m, g, f, w, 0, 0);
    GroupLane(m, g, f, w, 1, w);
    GroupLane(m, g, f, w, 2, w + w);
    GroupLane(m, g, f, w, 3, w + w + w);
    FourRuns(f, w, w + w, w + w + w, c0, c1, c2, c3);
  }

  lemma SmallFactor(a: nat, b: nat, w: nat, d: nat, e: nat)
    requires d < w && e < w && a * w + d == b * w + e
    ensures a == b && d == e
  {
    DivModUnique(a * w + d, w, a, d);
    DivModUnique(b * w + e, w, b, e);
  }

  /** In both layouts no index block is used twice, in one group or in two. */
  lemma IndexBlocksDistinct(m: Matrix, g: nat, d: nat, g': nat, d': nat)
    requires d < m.weight && d' < m.weight
    ensures m.IndexBlock(4 * g, d) == m.IndexBlock(4 * g', d') <==> g == g' && d == d'
  {
    if m.emp && g * m.weight + d == g' * m.weight + d' {
      SmallFactor(g, g', m.weight, d, d');
    }
  }

  /** The counter layout numbers the index blocks of all groups 0, 1, 2, ...; the other one is position and lane. */
  lemma IndexBlockLayout(m: Matrix, c: nat, d: nat)
    requires m.weight > 0
    ensures m.emp ==> m.IndexBlock(4 * (c / m.weight), c % m.weight) == (c, 0)
    ensures !m.emp ==> m.IndexBlock(4 * c, d) == (4 * c, d)
  {
    assert c / m.weight * m.weight + c % m.weight == c;
  }

  /** Entry `c` of a row of the matrix: whether an odd number of its columns reduce to `c`. */
  function Entry(cols: seq<nat>, k: nat, c: nat): bool
    requires k > 0
  {
    cols != [] && Entry(cols[..|cols| - 1], k, c) != (cols[|cols| - 1] % k == c)
  }

  /** The product of the first `n` entries of a row with those of `x`. */
  function RowProduct(x: seq<Block>, cols: seq<nat>, n: nat): Block
    requires x != [] && n <= |x|
  {
    if n == 0 then ZERO else Xor(RowProduct(x, cols, n - 1), Scale(Entry(cols, |x|, n - 1), x[n - 1]))
  }

  lemma {:induction false} EmptyRow(x: seq<Block>, n: nat)
    requires x != [] && n <= |x|
    ensures RowProduct(x, [], n) == ZERO
  {
    if n > 0 {
      EmptyRow(x, n - 1);
      XorZero(ZERO);
    }
  }

  /** One more column adds one entry of `x`. */
  lemma {:induction false} MoreColumns(x: seq<Block>, cols: seq<nat>, n: nat)
    requires x != [] && cols != [] && n <= |x|
    ensures var j := cols[|cols| - 1] % |x|;
            RowProduct(x, cols, n) == Xor(RowProduct(x, cols[..|cols| - 1], n), Scale(j < n, x[j]))
  {
    var before, j := cols[..|cols| - 1], cols[|cols| - 1] % |x|;
    if n == 0 {
      XorZero(ZERO);
    } else {
      MoreColumns(x, cols, n - 1);
      FlippedEntry(RowProduct(x, before, n - 1), Entry(before, |x|, n - 1), x[n - 1], j < n - 1, j == n - 1, x[j]);
    }
  }

  lemma FlippedEntry(p: Block, entry: bool, b: Block, below: bool, here: bool, xj: Block)
    requires !(below && here) && (here ==> xj == b)
    ensures Xor(Xor(p, Scale(below, xj)), Scale(entry != here, b))
        == Xor(Xor(p, Scale(entry, b)), Scale(below || here, xj))
  {
    var l, r := Xor(Xor(p, Scale(below, xj)), Scale(entry != here, b)),
        Xor(Xor(p, Scale(entry, b)), Scale(below || here, xj));
    forall i | 0 <= i < 128 ensures l[i] == r[i] {
    }
  }

  /** What is accumulated is the product of the row with `x`. */
  lemma {:induction false} AccumulatedIsProduct(acc: Block, x: seq<Block>, cols: seq<nat>)
    requires x != []
    ensures Accumulated(acc, x, cols) == Xor(acc, RowProduct(x, cols, |x|))
  {
    if cols == [] {
      EmptyRow(x, |x|);
      XorZero(acc);
    } else {
      var n := |cols| - 1;
      AccumulatedIsProduct(acc, x, cols[..n]);
      MoreColumns(x, cols, |x|);
      var j := cols[n] % |x|;
      assert Scale(j < |x|, x[j]) == x[j];
      XorAssociates(acc, RowProduct(x, cols[..n], |x|), x[j]);
    }
  }

  lemma {:induction false} EntriesFromColumns(cols: seq<nat>, k: nat, c: nat)
    requires k > 0 && Entry(cols, k, c)
    ensures exists i :: 0 <= i < |cols| && cols[i] % k == c
  {
    var n := |cols| - 1;
    if cols[n] % k != c {
      EntriesFromColumns(cols[..n], k, c);
      var i :| 0 <= i < n && cols[..n][i] % k == c;
      assert cols[i] % k == c;
    }
  }

  lemma {:induction false} AtMost(cols: seq<nat>, k: nat, s: set<nat>)
    requires k > 0 && forall c | c in s :: exists i :: 0 <= i < |cols| && cols[i] % k == c
    ensures |s| <= |cols|
  {
    if cols == [] {
      if c :| c in s {
        assert false;
      }
      assert s == {};
    } else {
      var n := |cols| - 1;
      var last := cols[n] % k;
      forall c | c in s - {last} ensures exists i :: 0 <= i < |cols[..n]| && cols[..n][i] % k == c {
        var i :| 0 <= i < |cols| && cols[i] % k == c;
        assert cols[..n][i] == cols[i];
      }
      AtMost(cols[..n], k, s - {last});
      assert s <= (s - {last}) + {last};
      Removed(s, last);
    }
  }

  lemma Removed(s: set<nat>, c: nat)
    ensures |s| <= |s - {c}| + 1
  {
    if c in s {
      assert s == (s - {c}) + {c};
    } else {
      assert s == s - {c};
    }
  }

  /** Encoding is `A·x + e` for a binary matrix with at most `weight` non-zero entries in each row. */
  lemma EncodedIsProduct(y: seq<Block>, e: seq<Block>, x: seq<Block>, m: Matrix, r: nat, nonZero: set<nat>)
    requires Encoded(y, e, x, m) && r < |y|
    requires forall c | c in nonZero :: c < |x| && Entry(m.Columns(r), |x|, c)
    ensures y[r] == Xor(e[r], RowProduct(x, m.Columns(r), |x|)) && |nonZero| <= m.weight
  {
    AccumulatedIsProduct(e[r], x, m.Columns(r));
    forall c | c in nonZero
      ensures exists i :: 0 <= i < |m.Columns(r)| && m.Columns(r)[i] % |x| == c {
      EntriesFromColumns(m.Columns(r), |x|, c);
    }
    AtMost(m.Columns(r), |x|, nonZero);
  }

  // The correlation.

  predicate Correlated(macs: seq<Block>, keys: seq<Block>, bits: seq<bool>, delta: Block) {
    |macs| == |keys| == |bits| && forall i | 0 <= i < |macs| :: macs[i] == Xor(keys[i], Scale(bits[i], delta))
  }

  lemma {:induction false} AccumulatedCorrelation(mac: Block, key: Block, bit: bool, xm: seq<Block>, xk: seq<Block>,
                                                  xb: seq<bool>, delta: Block, cols: seq<nat>)
    requires mac == Xor(key, Scale(bit, delta)) && Correlated(xm, xk, xb, delta) && xm != []
    ensures Accumulated(mac, xm, cols) == Xor(Accumulated(key, xk, cols), Scale(AccumulatedBit(bit, xb, cols), delta))
  {
    if cols != [] {
      var n := |cols| - 1;
      AccumulatedCorrelation(mac, key, bit, xm, xk, xb, delta, cols[..n]);
      var j := cols[n] % |xm|;
      CorrelationStep(Accumulated(key, xk, cols[..n]), xk[j], AccumulatedBit(bit, xb, cols[..n]), xb[j], delta);
    }
  }

  lemma CorrelationStep(k: Block, k': Block, b: bool, b': bool, delta: Block)
    ensures Xor(Xor(k, Scale(b, delta)), Xor(k', Scale(b', delta))) == Xor(Xor(k, k'), Scale(b != b', delta))
  {
    forall i | 0 <= i < 128
      ensures Xor(Xor(k, Scale(b, delta)), Xor(k', Scale(b', delta)))[i] == Xor(Xor(k, k'), Scale(b != b', delta))[i]
    {
    }
  }

  /** Encoding preserves `mac == key + bit·delta` on all outputs. */
  lemma EncodingKeepsCorrelation(m: Matrix, ym: seq<Block>, yk: seq<Block>, yb: seq<bool>, em: seq<Block>,
                                 ek: seq<Block>, eb: seq<bool>,
                                 xm: seq<Block>, xk: seq<Block>, xb: seq<bool>, delta: Block)
    requires Correlated(em, ek, eb, delta) && Correlated(xm, xk, xb, delta)
    requires Encoded(ym, em, xm, m) && Encoded(yk, ek, xk, m) && EncodedBits(yb, eb, xb, m)
    ensures Correlated(ym, yk, yb, delta)
  {
    forall r | 0 <= r < |ym| ensures ym[r] == Xor(yk[r], Scale(yb[r], delta)) {
      AccumulatedCorrelation(em[r], ek[r], eb[r], xm, xk, xb, delta, m.Columns(r));
    }
  }

  // Batched, in place.

  lemma LaneColumns(m: Matrix, pos: nat, i: nat)
    requires pos % 4 == 0 && i < 4
    ensures m.Columns(pos + i) == m.Lane(pos, i)
  {
    assert (pos + i) / 4 * 4 == pos && (pos + i) % 4 == i;
  }

  /** The first `n` rows are encoded, the others still hold the error vector. */
  ghost predicate RowsDone(y: seq<Block>, e: seq<Block>, x: seq<Block>, m: Matrix, n: nat) {
    && x != [] && n <= |y| == |e|
    && (forall r: nat | r < n :: y[r] == Accumulated(e[r], x, m.Columns(r)))
    && (forall r: nat | n <= r < |y| :: y[r] == e[r])
  }

  /** Bit `i` of a bit-packed vector. */
  predicate PackedBit(bytes: seq<Byte>, i: nat)
    requires i < 8 * |bytes|
  {
    bytes[i / 8][i % 8]
  }

  function Unpacked(bytes: seq<Byte>, n: nat): (r: seq<bool>)
    requires n <= 8 * |bytes|
    ensures |r| == n && forall i: nat | i < n :: r[i] == PackedBit(bytes, i)
  {
    seq(n, i requires 0 <= i < n => PackedBit(bytes, i))
  }

  /** As `RowsDone`, for the first `n` of the packed bits; bits past the last row are untouched. */
  ghost predicate BitsDone(y: seq<Byte>, e: seq<Byte>, x: seq<bool>, m: Matrix, n: nat) {
    && x != [] && |y| == |e| && n <= 8 * |y|
    && (forall r: nat | r < n :: PackedBit(y, r) == AccumulatedBit(PackedBit(e, r), x, m.Columns(r)))
    && (forall r: nat | n <= r < 8 * |y| :: PackedBit(y, r) == PackedBit(e, r))
  }

  /** Rows of the chunk starting at `base`: sixteen, or what is left. */
  function ChunkLength(n: nat, base: nat): (len: nat)
    requires base < n && base % 16 == 0
    ensures 0 < len <= 16 && base + len <= n && base % 4 == 0 && ((base + len) % 16 == 0 || base + len == n)
  {
    if n - base <= 4 * GROUPS then n - base else 4 * GROUPS
  }

  class LpnEncoder {
    const k: nat
    const mask: nat

    constructor (k: nat)
      requires IsPowerOfTwo(k)
      ensures this.k == k && Ready()
    {
      this.k, mask := k, k - 1;
    }

    predicate Ready() {
      IsPowerOfTwo(k) && mask == k - 1
    }

    /** The mask reduces modulo `k`. */
    lemma MaskReduces(raw: nat)
      requires Ready()
      ensures k > 0 && AndNat(raw, mask) == raw % k < k
    {
      PowerOfTwoTest(k);
      MaskIsModulo(raw, TrailingZeros(k));
    }

    /** All index blocks of `groups` groups, then one batched call of the permutation. */
    method ComputeIndices(m: Matrix, base: nat, groups: nat) returns (idx: seq<seq<Words>>)
      ensures |idx| == groups && forall c | 0 <= c < groups :: idx[c] == m.Group(base + 4 * c, m.weight)
    {
      var blocks: seq<seq<(nat, nat)>> := [];
      for c := 0 to groups
        invariant |blocks| == c && forall i | 0 <= i < c :: IsGroupInput(blocks[i], m, base + 4 * i, m.weight)
      {
        var group := CounterBlocks(m, base + 4 * c);
        blocks := blocks + [group];
      }
      idx := [];
      for c := 0 to groups
        invariant |idx| == c && forall i | 0 <= i < c :: idx[i] == m.Group(base + 4 * i, m.weight)
      {
        var group := Permuted(m, blocks[c], base + 4 * c);
        idx := idx + [group];
      }
    }

    method CounterBlocks(m: Matrix, pos: nat) returns (group: seq<(nat, nat)>)
      ensures IsGroupInput(group, m, pos, m.weight)
    {
      group := [];
      for d := 0 to m.weight
        invariant IsGroupInput(group, m, pos, d)
      {
        group := group + [m.IndexBlock(pos, d)];
      }
    }

    method Permuted(m: Matrix, group: seq<(nat, nat)>, ghost pos: nat) returns (out: seq<Words>)
      requires IsGroupInput(group, m, pos, m.weight)
      ensures out == m.Group(pos, m.weight)
    {
      out := [];
      for d := 0 to m.weight
        invariant out == m.Group(pos, d)
      {
        out := out + [m.prp(group[d].0, group[d].1)];
      }
    }

    method Gather(acc0: Block, x: seq<Block>, cols: seq<nat>) returns (acc: Block)
      requires Ready() && |x| == k
      ensures x != [] && acc == Accumulated(acc0, x, cols)
    {
      acc := acc0;
      PowerOfTwoTest(k);
      for n := 0 to |cols|
        invariant acc == Accumulated(acc0, x, cols[..n])
      {
        MaskReduces(cols[n]);
        assert cols[..n + 1][..n] == cols[..n];
        acc := Xor(acc, x[AndNat(cols[n], mask)]);
      }
      assert cols[..|cols|] == cols;
    }

    /** Up to four rows that share one group of index blocks. */
    method ComputeGroup(y: array<Block>, row0: nat, count: nat, group: seq<Words>, x: seq<Block>, m: Matrix,
                        ghost e: seq<Block>)
      requires Ready() && |x| == k
      requires row0 % 4 == 0 && count <= 4 && row0 + count <= y.Length && group == m.Group(row0, m.weight)
          && RowsDone(y[..], e, x, m, row0)
      modifies y
      ensures RowsDone(y[..], e, x, m, row0 + count)
    {
      for i := 0 to count
        invariant RowsDone(y[..], e, x, m, row0 + i)
      {
        ghost var was := y[..];
        LaneColumns(m, row0, i);
        var cols := LaneOf(group, i, m.weight);
        assert y[row0 + i] == was[row0 + i];
        var acc := Gather(y[row0 + i], x, cols);
        y[row0 + i] := acc;
        NextRow(was, y[..], e, x, m, row0 + i, acc);
      }
    }

    /** Up to sixteen rows, whose indices are generated together. */
    method ComputeRows(y: array<Block>, base: nat, len: nat, x: seq<Block>, m: Matrix, ghost e: seq<Block>)
      requires Ready() && |x| == k
      requires base % 4 == 0 && base + len <= y.Length && RowsDone(y[..], e, x, m, base)
      modifies y
      ensures RowsDone(y[..], e, x, m, base + len)
    {
      var groups := (len + 3) / 4;
      var idx := ComputeIndices(m, base, groups);
      for c := 0 to groups
        invariant RowsDone(y[..], e, x, m, if 4 * c <= len then base + 4 * c else base + len)
      {
        var count := if len - 4 * c <= 4 then len - 4 * c else 4;
        ComputeGroup(y, base + 4 * c, count, idx[c], x, m, e);
      }
    }

    /** `A·x + e`, in place of `e`. */
    method Compute(m: Matrix, y: array<Block>, x: seq<Block>)
      requires Ready() && |x| == k && k >= m.weight
      modifies y
      ensures Encoded(y[..], old(y[..]), x, m)
    {
      ghost var e := y[..];
      PowerOfTwoTest(k);
      var base := 0;
      while base < y.Length
        invariant base <= y.Length && (base % 16 == 0 || base == y.Length)
        invariant RowsDone(y[..], e, x, m, base)
      {
        var len := ChunkLength(y.Length, base);
        ComputeRows(y, base, len, x, m, e);
        base := base + len;
      }
    }

    /** Gathers blocks and bits with the same columns; only the lowest bit of `bit` is meaningful. */
    method GatherBoth(acc0: Block, x: seq<Block>, xBits: seq<Byte>, cols: seq<nat>) returns (acc: Block, bit: Byte)
      requires Ready() && |x| == k == 8 * |xBits|
      ensures x != [] && acc == Accumulated(acc0, x, cols) && bit[0] == AccumulatedBit(false, Unpacked(xBits, k), cols)
    {
      acc, bit := acc0, Zeros(8);
      PowerOfTwoTest(k);
      for n := 0 to |cols|
        invariant acc == Accumulated(acc0, x, cols[..n])
            && bit[0] == AccumulatedBit(false, Unpacked(xBits, k), cols[..n])
      {
        MaskReduces(cols[n]);
        assert cols[..n + 1][..n] == cols[..n];
        var j := AndNat(cols[n], mask);
        acc := Xor(acc, x[j]);
        bit := Xor(bit, Shr(xBits[j / 8], j % 8));
      }
      assert cols[..|cols|] == cols;
    }

    method ComputeRowWithBits(y: array<Block>, yBits: array<Byte>, r: nat, cols: seq<nat>, x: seq<Block>,
                              xBits: seq<Byte>, m: Matrix,
                              ghost e: seq<Block>, ghost eBits: seq<Byte>)
      requires Ready() && |x| == k == 8 * |xBits| && r < y.Length <= 8 * yBits.Length && cols == m.Columns(r)
      requires RowsDone(y[..], e, x, m, r) && BitsDone(yBits[..], eBits, Unpacked(xBits, k), m, r)
      modifies y, yBits
      ensures RowsDone(y[..], e, x, m, r + 1) && BitsDone(yBits[..], eBits, Unpacked(xBits, k), m, r + 1)
    {
      ghost var was, wasBits := y[..], yBits[..];
      assert y[r] == was[r];
      var acc, bit := GatherBoth(y[r], x, xBits, cols);
      y[r] := acc;
      NextRow(was, y[..], e, x, m, r, acc);
      yBits[r / 8] := Xor(yBits[r / 8], Shl(And(bit, LowBit()), r % 8));
      NextBit(wasBits, yBits[..], eBits, Unpacked(xBits, k), m, r, bit);
    }

    method ComputeGroupWithBits(y: array<Block>, yBits: array<Byte>, row0: nat, count: nat, group: seq<Words>,
                                x: seq<Block>, xBits: seq<Byte>, m: Matrix,
                                ghost e: seq<Block>, ghost eBits: seq<Byte>)
      requires Ready() && |x| == k == 8 * |xBits| && y.Length <= 8 * yBits.Length
      requires row0 % 4 == 0 && count <= 4 && row0 + count <= y.Length && group == m.Group(row0, m.weight)
      requires RowsDone(y[..], e, x, m, row0) && BitsDone(yBits[..], eBits, Unpacked(xBits, k), m, row0)
      modifies y, yBits
      ensures RowsDone(y[..], e, x, m, row0 + count) && BitsDone(yBits[..], eBits, Unpacked(xBits, k), m, row0 + count)
    {
      for i := 0 to count
        invariant RowsDone(y[..], e, x, m, row0 + i) && BitsDone(yBits[..], eBits, Unpacked(xBits, k), m, row0 + i)
      {
        LaneColumns(m, row0, i);
        ComputeRowWithBits(y, yBits, row0 + i, LaneOf(group, i, m.weight), x, xBits, m, e, eBits);
      }
    }

    method ComputeRowsWithBits(y: array<Block>, yBits: array<Byte>, base: nat, len: nat, x: seq<Block>,
                               xBits: seq<Byte>, m: Matrix,
                               ghost e: seq<Block>, ghost eBits: seq<Byte>)
      requires Ready() && |x| == k == 8 * |xBits| && y.Length <= 8 * yBits.Length && base % 4 == 0
          && base + len <= y.Length
      requires RowsDone(y[..], e, x, m, base) && BitsDone(yBits[..], eBits, Unpacked(xBits, k), m, base)
      modifies y, yBits
      ensures RowsDone(y[..], e, x, m, base + len) && BitsDone(yBits[..], eBits, Unpacked(xBits, k), m, base + len)
    {
      var groups := (len + 3) / 4;
      var idx := ComputeIndices(m, base, groups);
      for c := 0 to groups
        invariant RowsDone(y[..], e, x, m, if 4 * c <= len then base + 4 * c else base + len)
        invariant BitsDone(yBits[..], eBits, Unpacked(xBits, k), m, if 4 * c <= len then base + 4 * c else base + len)
      {
        var count := if len - 4 * c <= 4 then len - 4 * c else 4;
        ComputeGroupWithBits(y, yBits, base + 4 * c, count, idx[c], x, xBits, m, e, eBits);
      }
    }

    /** `A·x + e` over blocks and over packed bits, with the same matrix. */
    method ComputeWithBits(m: Matrix, y: array<Block>, yBits: array<Byte>, x: seq<Block>, xBits: seq<Byte>)
      requires Ready() && |x| == k == 8 * |xBits| && k >= m.weight && yBits.Length == (y.Length + 7) / 8
      modifies y, yBits
      ensures Encoded(y[..], old(y[..]), x, m)
      ensures EncodedBits(Unpacked(yBits[..], y.Length), Unpacked(old(yBits[..]), y.Length), Unpacked(xBits, k), m)
      ensures forall r: nat | y.Length <= r < 8 * yBits.Length ::
          PackedBit(yBits[..], r) == PackedBit(old(yBits[..]), r)
    {
      ghost var e, eBits := y[..], yBits[..];
      PowerOfTwoTest(k);
      var base := 0;
      while base < y.Length
        invariant base <= y.Length && (base % 16 == 0 || base == y.Length)
        invariant RowsDone(y[..], e, x, m, base) && BitsDone(yBits[..], eBits, Unpacked(xBits, k), m, base)
      {
        var len := ChunkLength(y.Length, base);
        ComputeRowsWithBits(y, yBits, base, len, x, xBits, m, e, eBits);
        base := base + len;
      }
      AllBitsDone(yBits[..], eBits, Unpacked(xBits, k), m, y.Length);
    }
  }

  predicate IsGroupInput(group: seq<(nat, nat)>, m: Matrix, pos: nat, n: nat) {
    |group| == n && forall d | 0 <= d < n :: group[d] == m.IndexBlock(pos, d)
  }

  lemma NextRow(was: seq<Block>, y: seq<Block>, e: seq<Block>, x: seq<Block>, m: Matrix, r: nat, acc: Block)
    requires RowsDone(was, e, x, m, r) && r < |was| && y == was[r := acc] && acc == Accumulated(was[r], x, m.Columns(r))
    ensures RowsDone(y, e, x, m, r + 1)
  {
  }

  /** Once every row is done the packed bits are encoded. */
  lemma AllBitsDone(y: seq<Byte>, e: seq<Byte>, x: seq<bool>, m: Matrix, n: nat)
    requires BitsDone(y, e, x, m, n)
    ensures EncodedBits(Unpacked(y, n), Unpacked(e, n), x, m)
    ensures forall r: nat | n <= r < 8 * |y| :: PackedBit(y, r) == PackedBit(e, r)
  {
  }

  /** The byte 1. */
  function LowBit(): Byte {
    [true, false, false, false, false, false, false, false]
  }

  lemma {:induction false} AccumulatedBitLinear(acc: bool, x: seq<bool>, cols: seq<nat>)
    requires x != []
    ensures AccumulatedBit(acc, x, cols) == (acc != AccumulatedBit(false, x, cols))
  {
    if cols != [] {
      AccumulatedBitLinear(acc, x, cols[..|cols| - 1]);
    }
  }

  /** XORing a shifted bit into its byte flips exactly that bit. */
  lemma FlipsOneBit(byte: Byte, bit: Byte, p: nat, i: nat)
    requires p < 8 && i < 8
    ensures Xor(byte, Shl(And(bit, LowBit()), p))[i] == (byte[i] != (i == p && bit[0]))
  {
    assert Shl(And(bit, LowBit()), p)[i] == Coef(And(bit, LowBit()), i - p);
  }

  lemma NextBit(was: seq<Byte>, y: seq<Byte>, e: seq<Byte>, x: seq<bool>, m: Matrix, r: nat, bit: Byte)
    requires BitsDone(was, e, x, m, r) && r < 8 * |was| && bit[0] == AccumulatedBit(false, x, m.Columns(r))
    requires y == was[r / 8 := Xor(was[r / 8], Shl(And(bit, LowBit()), r % 8))]
    ensures BitsDone(y, e, x, m, r + 1)
  {
    forall i: nat | i < 8 * |y| ensures PackedBit(y, i) == (PackedBit(was, i) != (i == r && bit[0])) {
      if i / 8 == r / 8 {
        FlipsOneBit(was[r / 8], bit, r % 8, i % 8);
      }
    }
    AccumulatedBitLinear(PackedBit(e, r), x, m.Columns(r));
  }
}
