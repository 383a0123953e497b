/** Transposing a bit matrix: perfect shuffles on bytes, then a bit gather within each row. */
module Transpose {
  import opened Results
  import opened Bits

  // Perfect shuffles.

  /** The elements of `a` and `b` in turn. */
  function Interleave<T>(a: seq<T>, b: seq<T>): (r: seq<T>)
    requires |a| == |b|
    ensures |r| == |a| + |b|
  {
    if a == [] then []
    else
      var n := |a| - 1;
      Interleave(a[..n], b[..n]) + [a[n], b[n]]
  }

  /** Interleaves the two halves of a sequence of even length. */
  function Shuffle<T>(s: seq<T>): (r: seq<T>)
    requires |s| % 2 == 0
    ensures |r| == |s|
  {
    Interleave(s[..|s| / 2], s[|s| / 2..])
  }

  lemma {:induction false} InterleaveAt<T>(a: seq<T>, b: seq<T>, k: nat)
    requires k < |a| == |b|
    ensures Interleave(a, b)[2 * k] == a[k] && Interleave(a, b)[2 * k + 1] == b[k]
  {
    var n := |a| - 1;
    if k < n {
      InterleaveAt(a[..n], b[..n], k);
    }
  }

  function Shuffled<T>(s: seq<T>, rounds: nat): (r: seq<T>)
    requires rounds > 0 ==> |s| % 2 == 0
    ensures |r| == |s|
  {
    if rounds == 0 then s else Shuffle(Shuffled(s, rounds - 1))
  }

  lemma {:induction false} ScaledBound(i: nat, j: nat, c: nat, r: nat)
    requires i < Pow2(r) && j < c
    ensures Scaled(j, r) + i < Scaled(c, r)
  {
    if r > 0 {
      ScaledBound(i / 2, j, c, r - 1);
    }
  }

  /** `i·c + j`: the position of row `i`, column `j` in a matrix with `c` columns. */
  function Cell(i: nat, c: nat, j: nat): nat {
    if i == 0 then j else c + Cell(i - 1, c, j)
  }

  lemma {:induction false} CellIsProduct(i: nat, c: nat, j: nat)
    ensures Cell(i, c, j) == i * c + j
  {
    if i > 0 {
      CellIsProduct(i - 1, c, j);
      assert i * c == (i - 1) * c + c;
    }
  }

  /** Row `i` of width `c` is half of row `i / 2` of width `2·c`. */
  lemma {:induction false} HalfRow(i: nat, c: nat, j: nat)
    ensures Cell(i, c, j) == Cell(i / 2, 2 * c, if i % 2 == 0 then j else c + j)
  {
    if i >= 2 {
      HalfRow(i - 2, c, j);
      assert Cell(i, c, j) == c + Cell(i - 1, c, j) && Cell(i - 1, c, j) == c + Cell(i - 2, c, j);
      assert i / 2 == (i - 2) / 2 + 1;
    } else if i == 1 {
      assert Cell(0, c, j) == j;
    }
  }

  /** Splitting a column index over the two halves. */
  lemma HalfColumn(j: nat, c: nat, r: nat)
    ensures Scaled(c + j, r) == Scaled(c, r) + Scaled(j, r) && Scaled(2 * c, r) == 2 * Scaled(c, r)
  {
    ScaledSum(c, j, r);
    ScaledSum(c, c, r);
  }

  lemma ShuffleAt<T>(s: seq<T>, half: nat, k: nat, e: nat)
    requires |s| == 2 * half && k < half && e <= 1
    ensures Shuffle(s)[2 * k + e] == if e == 0 then s[k] else s[half + k]
  {
    InterleaveAt(s[..half], s[half..], k);
  }

  /** One more shuffle moves the element from its place `k` in one of the halves. */
  lemma ShuffleStep<T>(s: seq<T>, r: nat, half: nat, k: nat, e: nat, from: nat, to: nat, x: T)
    requires r > 0 && |s| == 2 * half && k < half && e <= 1 && from == (if e == 0 then k else half + k)
    requires x == Shuffled(s, r - 1)[from] && to == 2 * k + e
    ensures to < |s| && Shuffled(s, r)[to] == x
  {
    ShuffleAt(Shuffled(s, r - 1), half, k, e);
  }

  /** Row `i`, column `j` is row `h`, column `j'` of the matrix with half the rows and twice the columns; it goes to
      place `k` of a half there. */
  lemma HalvedShape(r: nat, c: nat, i: nat, j: nat) returns (h: nat, j': nat, e: nat, half: nat, k: nat)
    requires r > 0 && i < Pow2(r) && j < c
    ensures h < Pow2(r - 1) && j' < 2 * c && Cell(i, c, j) == Cell(h, 2 * c, j')
    ensures e <= 1 && k < half && Scaled(c, r) == Scaled(2 * c, r - 1) == 2 * half
    ensures Scaled(j', r - 1) + h == (if e == 0 then k else half + k) && Scaled(j, r) + i == 2 * k + e
  {
    h, e, half, k := i / 2, i % 2, Scaled(c, r - 1), Scaled(j, r - 1) + i / 2;
    j' := if e == 0 then j else c + j;
    HalfRow(i, c, j);
    HalfColumn(j, c, r - 1);
    ScaledBound(h, j, c, r - 1);
  }

  /** `r` shuffles send index `i·c + j` to `j·2^r + i`: the transpose of a matrix with `2^r` rows and `c` columns. */
  lemma {:induction false} ShuffledTransposes<T>(s: seq<T>, r: nat, c: nat, i: nat, j: nat)
    requires |s| == Scaled(c, r) && (r > 0 ==> |s| % 2 == 0) && i < Pow2(r) && j < c
    ensures Scaled(j, r) + i < |s| && Cell(i, c, j) < |s| && Shuffled(s, r)[Scaled(j, r) + i] == s[Cell(i, c, j)]
  {
    if r == 0 {
      assert Cell(0, c, j) == j;
    } else {
      var h, j', e, half, k := HalvedShape(r, c, i, j);
      ShuffledTransposes(s, r - 1, 2 * c, h, j');
      ShuffleStep(s, r, half, k, e, Scaled(j', r - 1) + h, Scaled(j, r) + i, s[Cell(i, c, j)]);
    }
  }

  /** One round: reads one buffer and writes the other. */
  method ShuffleRound<T(0)>(read: array<T>, write: array<T>)
    requires read != write && read.Length == write.Length && read.Length % 2 == 0
    modifies write
    ensures write[..] == Shuffle(read[..])
  {
    var half := read.Length / 2;
    ghost var a, b := read[..half], read[half..];
    for k := 0 to half
      invariant write[..2 * k] == Interleave(a[..k], b[..k])
    {
      write[2 * k] := read[k];
      write[2 * k + 1] := read[half + k];
      InterleaveNext(a, b, k);
      assert write[..2 * (k + 1)] == write[..2 * k] + [a[k], b[k]];
    }
    assert a[..half] == a && b[..half] == b;
    assert read[..][..half] == a && read[..][half..] == b;
    assert write[..2 * half] == write[..];
  }

  lemma InterleaveNext<T>(a: seq<T>, b: seq<T>, k: nat)
    requires k < |a| == |b|
    ensures Interleave(a[..k + 1], b[..k + 1]) == Interleave(a[..k], b[..k]) + [a[k], b[k]]
  {
    assert a[..k + 1][..k] == a[..k] && b[..k + 1][..k] == b[..k];
  }

  method Copied<T(0)>(a: array<T>) returns (copy: array<T>)
    ensures fresh(copy) && copy[..] == a[..]
  {
    copy := new T[a.Length](i reads a requires 0 <= i < a.Length => a[i]);
  }

  /** All rounds, alternating between two buffers: the result ends up in the one that parity says. */
  method ShuffleRounds<T(0)>(read: array<T>, write: array<T>, rounds: nat)
    requires read != write && read.Length == write.Length && (rounds > 0 ==> read.Length % 2 == 0)
    modifies read, write
    ensures (if rounds % 2 == 0 then read else write)[..] == Shuffled(old(read[..]), rounds)
  {
    ghost var start := read[..];
    var r, w := read, write;
    var n := 0;
    while n < rounds
      invariant n <= rounds && |start| == read.Length
      invariant if n % 2 == 0 then r == read && w == write else r == write && w == read
      invariant r[..] == Shuffled(start, n)
    {
      ShuffleRound(r, w);
      NextParity(n);
      r, w := w, r;
      n := n + 1;
    }
  }

  lemma NextParity(n: nat)
    ensures (n + 1) % 2 == 0 <==> n % 2 != 0
  {
  }

  /** The shuffles of the matrix through a copy; the last round always writes the matrix. */
  method TransposeUnchecked<T(0)>(matrix: array<T>, rounds: nat)
    requires rounds > 0 ==> matrix.Length % 2 == 0
    modifies matrix
    ensures matrix[..] == Shuffled(old(matrix[..]), rounds)
  {
    var cache := Copied(matrix);
    var write, read := matrix, cache;
    if rounds % 2 == 0 {
      write, read := read, write;
    }
    ShuffleRounds(read, write, rounds);
  }

  // Gathering bits within a row of bytes.

  /** Groups of eight bytes in a row; the last one may be partial. */
  function Groups(width: nat): nat {
    (width + 7) / 8
  }

  /** Bit `t` of each byte of group `g`, and zeros where the group is partial. */
  function GatheredByte(row: seq<Byte>, t: nat, g: nat): (r: Byte)
    requires t < 8
    ensures forall k | 0 <= k < 8 :: r[k] == (8 * g + k < |row| && row[8 * g + k][t])
  {
    seq(8, k requires 0 <= k < 8 => 8 * g + k < |row| && row[8 * g + k][t])
  }

  /** Bit `t` of the first `n` groups, packed into `n` bytes. */
  function Gathered(row: seq<Byte>, t: nat, n: nat): (r: seq<Byte>)
    requires t < 8
    ensures |r| == n
  {
    if n == 0 then [] else Gathered(row, t, n - 1) + [GatheredByte(row, t, n - 1)]
  }

  lemma {:induction false} GatheredAt(row: seq<Byte>, t: nat, n: nat, g: nat)
    requires t < 8 && g < n
    ensures Gathered(row, t, n)[g] == GatheredByte(row, t, g)
  {
    if g < n - 1 {
      GatheredAt(row, t, n - 1, g);
    }
  }

  /** The gathered bytes of bits `0..n`, one bit position after the other. */
  function ShiftedRow(row: seq<Byte>, groups: nat, n: nat): (r: seq<Byte>)
    requires n <= 8
    ensures |r| == Cell(n, groups, 0)
  {
    if n == 0 then [] else ShiftedRow(row, groups, n - 1) + Gathered(row, n - 1, groups)
  }

  lemma {:induction false} CellSum(i: nat, c: nat, j: nat)
    ensures Cell(i, c, j) == Cell(i, c, 0) + j
  {
    if i > 0 {
      CellSum(i - 1, c, j);
    }
  }

  lemma {:induction false} CellMonotone(i: nat, i': nat, c: nat)
    requires i <= i'
    ensures Cell(i, c, 0) <= Cell(i', c, 0)
  {
    if i < i' {
      CellMonotone(i, i' - 1, c);
    }
  }

  lemma {:induction false} ShiftedRowAt(row: seq<Byte>, groups: nat, n: nat, t: nat, g: nat)
    requires t < n <= 8 && g < groups
    ensures Cell(t, groups, g) < |ShiftedRow(row, groups, n)|
    ensures ShiftedRow(row, groups, n)[Cell(t, groups, g)] == GatheredByte(row, t, g)
  {
    var before, last := ShiftedRow(row, groups, n - 1), Gathered(row, n - 1, groups);
    assert ShiftedRow(row, groups, n) == before + last;
    if t < n - 1 {
      ShiftedRowAt(row, groups, n - 1, t, g);
    } else {
      CellSum(t, groups, g);
      GatheredAt(row, t, groups, g);
    }
  }

  /** Between `lo` and `mid` bytes are shifted by `t + 1`, up to `hi` by `t`. */
  ghost predicate ShiftedTo(m: seq<Byte>, before: seq<Byte>, lo: nat, mid: nat, hi: nat, t: nat) {
    && lo <= mid <= hi <= |m| == |before|
    && (forall p | lo <= p < mid :: m[p] == Shr(before[p], t + 1))
    && (forall p | mid <= p < hi :: m[p] == Shr(before[p], t))
    && (forall p | 0 <= p < lo || hi <= p < |m| :: m[p] == before[p])
  }

  lemma ShrTwice(b: Byte, t: nat)
    ensures Shr(Shr(b, t), 1) == Shr(b, t + 1) && Shr(b, t)[0] == Coef(b, t) && Shr(b, 0) == b
  {
    forall i | 0 <= i < 8 ensures Shr(Shr(b, t), 1)[i] == Shr(b, t + 1)[i] {
    }
  }

  /** Takes the lowest bit of the bytes of a group and shifts them. */
  method GatherByte(m: array<Byte>, base: nat, size: nat, t: nat, ghost before: seq<Byte>, ghost lo: nat, ghost hi: nat)
    returns (high: Byte)
    requires t < 8 && size <= 8 && base + size <= hi && ShiftedTo(m[..], before, lo, base, hi, t)
    modifies m
    ensures ShiftedTo(m[..], before, lo, base + size, hi, t)
    ensures forall k | 0 <= k < 8 :: high[k] == (k < size && before[base + k][t])
  {
    high := Zeros(8);
    for k := 0 to size
      invariant ShiftedTo(m[..], before, lo, base + k, hi, t)
      invariant forall i | 0 <= i < 8 :: high[i] == (i < k && before[base + i][t])
    {
      var bit := ShiftOne(m, base + k, t, before, lo, hi);
      high := high[k := bit];
    }
  }

  /** Shifts one byte, returning the bit that falls out. */
  method ShiftOne(m: array<Byte>, p: nat, t: nat, ghost before: seq<Byte>, ghost lo: nat, ghost hi: nat)
    returns (bit: bool)
    requires t < 8 && p < hi && ShiftedTo(m[..], before, lo, p, hi, t)
    modifies m
    ensures ShiftedTo(m[..], before, lo, p + 1, hi, t) && bit == before[p][t]
  {
    ghost var was := m[..];
    assert m[p] == was[p];
    ShrTwice(before[p], t);
    bit := m[p][0];
    m[p] := Shr(m[p], 1);
    assert m[..] == was[p := Shr(was[p], 1)];
  }

  /** One pass over a row: gathers bit `t` of every byte, eight bytes at a time. */
  method GatherPass(m: array<Byte>, start: nat, width: nat, t: nat, ghost before: seq<Byte>, ghost row: seq<Byte>)
    returns (out: seq<Byte>)
    requires t < 8 && start + width <= |before| && row == before[start..start + width]
    requires ShiftedTo(m[..], before, start, start, start + width, t)
    modifies m
    ensures ShiftedTo(m[..], before, start, start, start + width, t + 1)
    ensures out == Gathered(row, t, Groups(width))
  {
    out := [];
    var base := 0;
    ghost var g := 0;
    while base < width
      invariant base == if 8 * g < width then 8 * g else width
      invariant g <= Groups(width) && (base == width ==> g == Groups(width))
      invariant ShiftedTo(m[..], before, start, start + base, start + width, t)
      invariant out == Gathered(row, t, g)
    {
      var size := if width - base < 8 then width - base else 8;
      var high := GatherByte(m, start + base, size, t, before, start, start + width);
      assert high == GatheredByte(row, t, g);
      out := out + [high];
      base := base + size;
      g := g + 1;
    }
  }

  /** Row `start` holds, for each bit position in turn, that bit of each of its former bytes. */
  ghost predicate RowShifted(m: seq<Byte>, before: seq<Byte>, groups: nat, start: nat) {
    && start + 8 * groups <= |m| == |before|
    && forall t: nat, g: nat | t < 8 && g < groups ::
      Cell(t, groups, g) < 8 * groups
        && m[start + Cell(t, groups, g)] == GatheredByte(before[start..start + 8 * groups], t, g)
  }

  /** All eight passes over a row. */
  method GatherRow(m: array<Byte>, start: nat, width: nat, ghost before: seq<Byte>, ghost row: seq<Byte>)
    returns (shifted: seq<Byte>)
    requires start + width <= |before| && row == before[start..start + width]
    requires ShiftedTo(m[..], before, start, start, start + width, 0)
    modifies m
    ensures ShiftedTo(m[..], before, start, start, start + width, 8)
    ensures shifted == ShiftedRow(row, Groups(width), 8)
  {
    shifted := [];
    for t := 0 to 8
      invariant ShiftedTo(m[..], before, start, start, start + width, t)
      invariant shifted == ShiftedRow(row, Groups(width), t)
    {
      var out := GatherPass(m, start, width, t, before, row);
      shifted := shifted + out;
    }
  }

  /** Replaces a row of bytes by its gathered bits; fails if they do not have the row's length. */
  method ShiftRow(m: array<Byte>, start: nat, width: nat) returns (ok: bool)
    requires start + width <= m.Length
    modifies m
    ensures ok <==> 8 * Groups(width) == width
    ensures ok ==> RowShifted(m[..], old(m[..]), Groups(width), start)
    ensures ok ==> m[..][..start] == old(m[..])[..start] && m[..][start + width..] == old(m[..])[start + width..]
  {
    ghost var before, row := m[..], m[start..start + width];
    StartShift(before, start, start + width);
    var shifted := GatherRow(m, start, width, before, row);
    ghost var n := 8;
    CellIsProduct(n, Groups(width), 0);
    if |shifted| != width {
      return false;
    }
    KeptOutside(m[..], before, start, start + width, n);
    CopyInto(m, start, shifted);
    RowIsShifted(m[..], before, Groups(width), start, n, shifted);
    KeptCopy(m[..], before, start, shifted);
    ok := true;
  }

  /** A gathered row leaves the rest of the matrix alone. */
  lemma KeptOutside(m: seq<Byte>, before: seq<Byte>, lo: nat, hi: nat, t: nat)
    requires ShiftedTo(m, before, lo, lo, hi, t)
    ensures m[..lo] == before[..lo] && m[hi..] == before[hi..]
  {
  }

  lemma KeptCopy<T>(m: seq<T>, before: seq<T>, start: nat, part: seq<T>)
    requires start + |part| <= |before| && m == before[..start] + part + before[start + |part|..]
    ensures m[..start] == before[..start] && m[start + |part|..] == before[start + |part|..]
  {
  }

  lemma RowIsShifted(m: seq<Byte>, before: seq<Byte>, groups: nat, start: nat, n: nat, shifted: seq<Byte>)
    requires start + 8 * groups <= |before| && n == 8
        && shifted == ShiftedRow(before[start..start + 8 * groups], groups, n)
    requires |shifted| == 8 * groups && m == before[..start] + shifted + before[start + 8 * groups..]
    ensures RowShifted(m, before, groups, start)
  {
    var row := before[start..start + 8 * groups];
    forall t: nat, g: nat | t < 8 && g < groups
      ensures Cell(t, groups, g) < 8 * groups && m[start + Cell(t, groups, g)] == GatheredByte(row, t, g)
    {
      ShiftedRowAt(row, groups, n, t, g);
    }
  }

  lemma StartShift(m: seq<Byte>, lo: nat, hi: nat)
    requires lo <= hi <= |m|
    ensures ShiftedTo(m, m, lo, lo, hi, 0)
  {
    forall p | lo <= p < hi ensures m[p] == Shr(m[p], 0) {
      ShrTwice(m[p], 0);
    }
  }

  method CopyInto<T>(m: array<T>, start: nat, part: seq<T>)
    requires start + |part| <= m.Length
    modifies m
    ensures m[..] == old(m[..])[..start] + part + old(m[..])[start + |part|..]
  {
    for p := 0 to |part|
      invariant forall i | 0 <= i < p :: m[start + i] == part[i]
      invariant forall i | 0 <= i < start || start + p <= i < m.Length :: m[i] == old(m[i])
    {
      m[start + p] := part[p];
    }
  }

  method NextRow(m: array<Byte>, start: nat, width: nat, ghost before: seq<Byte>, ghost j: nat) returns (ok: bool)
    requires start == Cell(j, width, 0) && start + width <= m.Length == |before|
    requires RowsShifted(m[..], before, width, j) && m[..][start..] == before[start..]
    modifies m
    ensures ok <==> 8 * Groups(width) == width
    ensures ok ==> RowsShifted(m[..], before, width, j + 1) && m[..][start + width..] == before[start + width..]
  {
    ghost var was := m[..];
    SameParts(was, before, start, start + width);
    ok := ShiftRow(m, start, width);
    if ok {
      RowDone(was, m[..], before, width, j, start);
    }
  }

  lemma SameParts<T>(a: seq<T>, b: seq<T>, lo: nat, hi: nat)
    requires lo <= hi <= |a| == |b| && a[lo..] == b[lo..]
    ensures a[lo..hi] == b[lo..hi] && a[hi..] == b[hi..]
  {
    assert a[lo..hi] == a[lo..][..hi - lo] && b[lo..hi] == b[lo..][..hi - lo];
    assert a[hi..] == a[lo..][hi - lo..] && b[hi..] == b[lo..][hi - lo..];
  }

  /** Gathers every row of `width` bytes; fails if gathered bytes do not have a row's length. */
  method BitmaskShift(m: array<Byte>, width: nat, ghost rows: nat) returns (ok: bool)
    requires width > 0 && m.Length == Cell(rows, width, 0)
    modifies m
    ensures ok <==> rows == 0 || 8 * Groups(width) == width
    ensures ok ==> RowsShifted(m[..], old(m[..]), width, rows)
  {
    ghost var before := m[..];
    var start := 0;
    ghost var j := 0;
    while start < m.Length
      invariant start == Cell(j, width, 0) && j <= rows && start <= m.Length
      invariant j == 0 || 8 * Groups(width) == width
      invariant m[..][start..] == before[start..] && RowsShifted(m[..], before, width, j)
      decreases m.Length - start
    {
      RowFits(j, rows, width);
      var fits := NextRow(m, start, width, before, j);
      if !fits {
        return false;
      }
      start := start + width;
      j := j + 1;
    }
    if j < rows {
      CellMonotone(j + 1, rows, width);
    }
    ok := true;
  }

  lemma RowFits(j: nat, rows: nat, w: nat)
    requires Cell(j, w, 0) < Cell(rows, w, 0) && j <= rows
    ensures j < rows && Cell(j, w, 0) + w <= Cell(rows, w, 0)
  {
    CellMonotone(j + 1, rows, w);
  }

  /** The first `n` rows have been gathered. */
  ghost predicate RowsShifted(m: seq<Byte>, before: seq<Byte>, width: nat, n: nat) {
    |m| == |before| && forall j | 0 <= j < n :: RowShifted(m, before, Groups(width), Cell(j, width, 0))
  }

  lemma RowDone(was: seq<Byte>, m: seq<Byte>, before: seq<Byte>, width: nat, j: nat, start: nat)
    requires RowsShifted(was, before, width, j) && start == Cell(j, width, 0) && 8 * Groups(width) == width
    requires RowShifted(m, before, Groups(width), start) && m[..start] == was[..start]
    ensures RowsShifted(m, before, width, j + 1)
  {
    forall i | 0 <= i < j ensures RowShifted(m, before, Groups(width), Cell(i, width, 0)) {
      CellMonotone(i + 1, j, width);
      EarlierRow(was, m, before, Groups(width), Cell(i, width, 0), start);
    }
  }

  lemma EarlierRow(was: seq<Byte>, m: seq<Byte>, before: seq<Byte>, groups: nat, s: nat, start: nat)
    requires RowShifted(was, before, groups, s) && s + 8 * groups <= start <= |m| == |before|
        && m[..start] == was[..start]
    ensures RowShifted(m, before, groups, s)
  {
    forall p | 0 <= p < start ensures m[p] == was[p] {
      assert m[..start][p] == was[..start][p];
    }
  }

  // Shape checks.

  lemma SevenTest(v: nat)
    ensures AndNat(v, 7) == 0 <==> v % 8 == 0
  {
    MaskIsModulo(v, 3);
    assert Pow2(3) == 8;
  }

  datatype TransposeError = InvalidNumberOfRows | MalformedSlice | InvalidNumberOfColumns

  function ColumnCount(len: nat, rows: nat): nat
    requires rows > 0
  {
    len / rows
  }

  function RowRemainder(len: nat, rows: nat): nat
    requires rows > 0
  {
    len % rows
  }

  function ShapeErrorWith(rows: nat, remainder: nat, columns: nat): Option<TransposeError> {
    if !IsPowerOfTwo(rows) then Some(InvalidNumberOfRows)
    else if remainder != 0 then Some(MalformedSlice)
    else if columns % 8 != 0 || columns == 0 then Some(InvalidNumberOfColumns)
    else None
  }

  /** What is wrong with the shape of a slice of `len` bytes in `rows` rows. */
  function ShapeError(len: nat, rows: nat): Option<TransposeError>
    requires rows > 0
  {
    ShapeErrorWith(rows, RowRemainder(len, rows), ColumnCount(len, rows))
  }

  // Bits of a matrix.

  /** Bit `col` of row `row` when a row has `width` bytes. */
  predicate BitAt(m: seq<Byte>, width: nat, row: nat, col: nat) {
    Cell(row, width, col / 8) < |m| && m[Cell(row, width, col / 8)][col % 8]
  }

  /** `m`, read as `8·columns` rows of `rows` bits, is the transpose of `before`. */
  ghost predicate Transposed(m: seq<Byte>, before: seq<Byte>, rows: nat, columns: nat) {
    |m| == |before| && forall i: nat, b: nat | i < rows && b < 8 * columns ::
      BitAt(m, rows / 8, b, i) == BitAt(before, columns, i, b)
  }

  lemma {:induction false} CellNested(j: nat, t: nat, c: nat, g: nat)
    ensures Cell(8 * j + t, c, g) == Cell(j, 8 * c, 0) + Cell(t, c, g)
  {
    if j > 0 {
      CellNested(j - 1, t, c, g);
      CellSkip(8 * (j - 1) + t, c, g, 8);
    }
  }

  lemma {:induction false} CellSkip(i: nat, c: nat, g: nat, n: nat)
    ensures Cell(i + n, c, g) == n * c + Cell(i, c, g)
  {
    if n > 0 {
      CellSkip(i, c, g, n - 1);
      assert n * c == (n - 1) * c + c;
    }
  }

  lemma {:induction false} ScaledIsCell(j: nat, r: nat)
    ensures Scaled(j, r) == Cell(j, Pow2(r), 0)
  {
    ScaledIsTimes(j, r);
    CellIsProduct(j, Pow2(r), 0);
  }

  /** Row `j` of the byte transpose holds column `j` of the matrix. */
  lemma ByteMoves(before: seq<Byte>, mid: seq<Byte>, r: nat, rows: nat, columns: nat, i: nat, j: nat)
    requires Pow2(r) == rows && r > 0 && |before| == Scaled(columns, r) && |before| % 2 == 0
        && mid == Shuffled(before, r)
    requires i < rows && j < columns
    ensures Cell(j, rows, 0) + i < |mid| && Cell(i, columns, j) < |before|
        && mid[Cell(j, rows, 0) + i] == before[Cell(i, columns, j)]
  {
    ScaledIsCell(j, r);
    ShuffledTransposes(before, r, columns, i, j);
    var p, q := Scaled(j, r) + i, Cell(i, columns, j);
    assert p == Cell(j, rows, 0) + i && mid[p] == before[q];
  }

  /** The bit that ends up in row `b`, column `i`. */
  lemma BitMoves(before: seq<Byte>, m: seq<Byte>, mid: seq<Byte>, groups: nat, columns: nat,
                 i: nat, b: nat, g: nat, k: nat, j: nat, t: nat, start: nat)
    requires k < 8 && t < 8 && g < groups && i == 8 * g + k && b == 8 * j + t && start == Cell(j, 8 * groups, 0)
    requires RowShifted(m, mid, groups, start) && start + i < |mid|
    requires Cell(i, columns, j) < |before| && mid[start + i] == before[Cell(i, columns, j)]
    ensures BitAt(m, groups, b, i) == BitAt(before, columns, i, b)
  {
    ShiftedBit(m, mid, groups, start, t, g, k);
    BitLands(before, m, groups, columns, i, b, g, k, j, t, start);
  }

  lemma BitLands(before: seq<Byte>, m: seq<Byte>, groups: nat, columns: nat, i: nat, b: nat, g: nat, k: nat, j: nat,
                 t: nat, start: nat)
    requires k < 8 && t < 8 && i == 8 * g + k && b == 8 * j + t && start == Cell(j, 8 * groups, 0)
    requires start + Cell(t, groups, g) < |m| && Cell(i, columns, j) < |before|
    requires m[start + Cell(t, groups, g)][k] == before[Cell(i, columns, j)][t]
    ensures BitAt(m, groups, b, i) == BitAt(before, columns, i, b)
  {
    assert i / 8 == g && i % 8 == k && b / 8 == j && b % 8 == t;
    CellNested(j, t, groups, g);
  }

  lemma ShiftedBit(m: seq<Byte>, before: seq<Byte>, groups: nat, start: nat, t: nat, g: nat, k: nat)
    requires RowShifted(m, before, groups, start) && t < 8 && g < groups && k < 8
    ensures start + Cell(t, groups, g) < |m| && m[start + Cell(t, groups, g)][k] == before[start + 8 * g + k][t]
  {
    assert GatheredByte(before[start..start + 8 * groups], t, g)[k] == before[start..start + 8 * groups][8 * g + k][t];
  }

  /** What the two passes did to the matrix. */
  ghost predicate Passes(before: seq<Byte>, mid: seq<Byte>, m: seq<Byte>, rows: nat, columns: nat, groups: nat) {
    && (forall i: nat, j: nat | i < rows && j < columns ::
      Cell(j, rows, 0) + i < |mid| && Cell(i, columns, j) < |before|
                                          && mid[Cell(j, rows, 0) + i] == before[Cell(i, columns, j)])
    && (forall j | 0 <= j < columns :: RowShifted(m, mid, groups, Cell(j, rows, 0)))
  }

  lemma BitTransposed(before: seq<Byte>, mid: seq<Byte>, m: seq<Byte>, rows: nat, columns: nat, groups: nat, i: nat,
                      b: nat)
    requires Passes(before, mid, m, rows, columns, groups) && rows == 8 * groups && i < rows && b < 8 * columns
    ensures BitAt(m, groups, b, i) == BitAt(before, columns, i, b)
  {
    var g, k, j, t := i / 8, i % 8, b / 8, b % 8;
    BitMoves(before, m, mid, groups, columns, i, b, g, k, j, t, Cell(j, rows, 0));
  }

  lemma MatrixTransposed(before: seq<Byte>, mid: seq<Byte>, m: seq<Byte>, r: nat, rows: nat, columns: nat, groups: nat)
    requires Pow2(r) == rows == 8 * groups && groups == rows / 8 && r > 0 && |m| == |before| == Scaled(columns, r)
    requires |before| % 2 == 0 && mid == Shuffled(before, r)
    requires forall j | 0 <= j < columns :: RowShifted(m, mid, groups, Cell(j, rows, 0))
    ensures Transposed(m, before, rows, columns)
  {
    forall i: nat, j: nat | i < rows && j < columns
      ensures Cell(j, rows, 0) + i < |mid| && Cell(i, columns, j) < |before|
          && mid[Cell(j, rows, 0) + i] == before[Cell(i, columns, j)]
    {
      ByteMoves(before, mid, r, rows, columns, i, j);
    }
    forall i: nat, b: nat | i < rows && b < 8 * columns
      ensures BitAt(m, groups, b, i) == BitAt(before, columns, i, b)
    {
      BitTransposed(before, mid, m, rows, columns, groups, i, b);
    }
  }

  lemma SliceTest(len: nat, rows: nat)
    requires IsPowerOfTwo(rows)
    ensures rows == Pow2(TrailingZeros(rows)) && (AndNat(len, rows - 1) == 0 <==> RowRemainder(len, rows) == 0)
  {
    PowerOfTwoTest(rows);
    MaskIsModulo(len, TrailingZeros(rows));
  }

  predicate BadColumns(columns: nat) {
    AndNat(columns, 7) != 0 || columns < 8
  }

  lemma ColumnsTest(columns: nat)
    ensures BadColumns(columns) <==> columns % 8 != 0 || columns == 0
  {
    SevenTest(columns);
  }

  function CheckShapeWith(len: nat, rows: nat, columns: nat): Option<TransposeError>
    requires rows > 0
  {
    if AndNat(rows, rows - 1) != 0 then Some(InvalidNumberOfRows)
    else if AndNat(len, rows - 1) != 0 then Some(MalformedSlice)
    else if BadColumns(columns) then Some(InvalidNumberOfColumns)
    else None
  }

  /** The checks on the slice, made with bit masks. */
  function CheckShape(len: nat, rows: nat): Option<TransposeError>
    requires rows > 0
  {
    CheckShapeWith(len, rows, ColumnCount(len, rows))
  }

  lemma CheckShapeWithCorrect(len: nat, rows: nat, remainder: nat, columns: nat)
    requires rows > 0
    requires IsPowerOfTwo(rows) ==> (AndNat(len, rows - 1) == 0 <==> remainder == 0)
    ensures CheckShapeWith(len, rows, columns) == ShapeErrorWith(rows, remainder, columns)
  {
    PowerOfTwoTest(rows);
    ColumnsTest(columns);
  }

  lemma CheckShapeCorrect(len: nat, rows: nat)
    requires rows > 0
    ensures CheckShape(len, rows) == ShapeError(len, rows)
    ensures ShapeError(len, rows).None? ==> rows == Pow2(TrailingZeros(rows)) && RowRemainder(len, rows) == 0
  {
    if IsPowerOfTwo(rows) {
      SliceTest(len, rows);
    }
    CheckShapeWithCorrect(len, rows, RowRemainder(len, rows), ColumnCount(len, rows));
  }

  lemma WholeGroups(width: nat, q: nat)
    requires width == 8 * q
    ensures Groups(width) == q
  {
    DivModUnique(width + 7, 8, q, 7);
  }

  lemma PowersOfEight(rows: nat)
    requires IsPowerOfTwo(rows)
    ensures 8 * Groups(rows) == rows <==> rows >= 8
  {
    PowerOfTwoTest(rows);
    var r := TrailingZeros(rows);
    if r < 3 {
      Pow2Small(r);
      DivModUnique(rows + 7, 8, 1, rows - 1);
    } else {
      assert Pow2(r) == 2 * Pow2(r - 1) && Pow2(r - 1) == 2 * Pow2(r - 2) && Pow2(r - 2) == 2 * Pow2(r - 3);
      WholeGroups(rows, Pow2(r - 3));
    }
  }

  /** The gathered bytes of a row of the transposed matrix fit back into it exactly when the matrix has at least
      eight rows. */
  lemma GatheredFits(row: seq<Byte>)
    requires IsPowerOfTwo(|row|)
    ensures |ShiftedRow(row, Groups(|row|), 8)| == |row| <==> |row| >= 8
  {
    PowersOfEight(|row|);
    var n := 8;
    CellIsProduct(n, Groups(|row|), 0);
  }

  /** One row of eight bytes is an accepted shape; each transposed row is one byte, from which eight are gathered. */
  lemma OneRowDoesNotFit(row: seq<Byte>)
    requires |row| == 1
    ensures ShapeError(8, 1).None? && |ShiftedRow(row, Groups(|row|), 8)| == 8 > |row|
  {
    var n := 8;
    CellIsProduct(n, Groups(|row|), 0);
  }

  /** Transposes a bit matrix in place; bit (i, j) moves to (j, i). `None` is a panic: the gathered bytes of a row do
      not have the row's length. */
  method TransposeBits(matrix: array<Byte>, rows: nat) returns (res: Option<Result<(), TransposeError>>)
    requires rows > 0
    modifies matrix
    ensures res.None? <==> ShapeError(matrix.Length, rows).None? && rows < 8
    ensures res.Some? && res.value.Err?
        ==> ShapeError(matrix.Length, rows) == Some(res.value.error) && matrix[..] == old(matrix[..])
    ensures res.Some? && res.value.Ok?
        ==> ShapeError(matrix.Length, rows).None? && Transposed(matrix[..], old(matrix[..]), rows, matrix.Length / rows)
  {
    var error := CheckShape(matrix.Length, rows);
    CheckShapeCorrect(matrix.Length, rows);
    if error.Some? {
      return Some(Err(error.value));
    }
    PowersOfEight(rows);
    ghost var columns := matrix.Length / rows;
    var ok := TransposeChecked(matrix, rows, TrailingZeros(rows), columns);
    res := if ok then Some(Ok(())) else None;
  }

  method TransposeChecked(matrix: array<Byte>, rows: nat, rounds: nat, ghost columns: nat) returns (ok: bool)
    requires rows == Pow2(rounds) && matrix.Length % rows == 0 && columns == matrix.Length / rows && columns > 0
    modifies matrix
    ensures ok <==> 8 * Groups(rows) == rows
    ensures ok ==> Transposed(matrix[..], old(matrix[..]), rows, columns)
  {
    ghost var before := matrix[..];
    Shape(matrix.Length, rows, rounds, columns);
    TransposeUnchecked(matrix, rounds);
    ghost var mid := matrix[..];
    ok := BitmaskShift(matrix, rows, columns);
    if ok {
      MatrixTransposed(before, mid, matrix[..], rounds, rows, columns, Groups(rows));
    }
  }

  lemma Shape(len: nat, rows: nat, rounds: nat, columns: nat)
    requires rows == Pow2(rounds) && len % rows == 0 && columns == len / rows
    ensures (rounds > 0 ==> len % 2 == 0) && (rows > 1 ==> rounds > 0)
    ensures len == Scaled(columns, rounds) && len == Cell(columns, rows, 0)
  {
    ExactQuotient(len, rows, columns);
    ScaledIsTimes(columns, rounds);
    CellIsProduct(columns, rows, 0);
    if rounds > 0 {
      assert Scaled(columns, rounds) == 2 * Scaled(columns, rounds - 1);
      DivModUnique(len, 2, Scaled(columns, rounds - 1), 0);
    }
  }

  lemma ExactQuotient(len: nat, rows: nat, columns: nat)
    requires rows > 0 && len % rows == 0 && columns == len / rows
    ensures len == rows * columns == columns * rows
  {
  }

  lemma Pow2Small(r: nat)
    requires r < 3
    ensures Pow2(r) <= 4
  {
    assert Pow2(0) == 1 && Pow2(1) == 2 && Pow2(2) == 4;
  }
}
