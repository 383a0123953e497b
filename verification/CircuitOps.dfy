/** Arithmetic gadgets: circuits for addition, subtraction and selection on words of any width. */
module CircuitOps {
  import opened Bits
  import opened Circuits
  import opened Builder

  /** Every node exists in the builder. */
  predicate InRange(nodes: seq<nat>, feedId: nat) {
    forall i | 0 <= i < |nodes| :: nodes[i] < feedId
  }

  /** No node is a constant. */
  predicate Variables(nodes: seq<nat>) {
    forall i | 0 <= i < |nodes| :: nodes[i] >= 2
  }

  function Bit(b: bool): nat {
    if b then 1 else 0
  }

  predicate Majority(a: bool, b: bool, c: bool) {
    (a && b) || (a && c) || (b && c)
  }

  method FullAdder(b: CircuitBuilder, x: nat, y: nat, carryIn: nat) returns (sum: nat, carryOut: nat)
    requires b.Valid() && x < b.feedId && y < b.feedId && carryIn < b.feedId
    modifies b
    ensures b.Grown() && sum < b.feedId && carryOut < b.feedId
    ensures forall w: nat -> bool :: Models(w, b.gates) ==>
      w(sum) == ((w(x) != w(y)) != w(carryIn)) && w(carryOut) == Majority(w(x), w(y), w(carryIn))
    ensures x >= 2 && y >= 2 && carryIn >= 2 ==> sum >= 2 && carryOut >= 2
  {
    var xy := b.AddXorGate(x, y);
    sum := b.AddXorGate(xy, carryIn);
    var xc := b.AddXorGate(x, carryIn);
    var yc := b.AddXorGate(y, carryIn);
    var both := b.AddAndGate(xc, yc);
    carryOut := b.AddXorGate(both, carryIn);
  }

  method FullAdderNoCarryOut(b: CircuitBuilder, x: nat, y: nat, carryIn: nat) returns (sum: nat)
    requires b.Valid() && x < b.feedId && y < b.feedId && carryIn < b.feedId
    modifies b
    ensures b.Grown() && sum < b.feedId
    ensures forall w: nat -> bool :: Models(w, b.gates) ==> w(sum) == ((w(x) != w(y)) != w(carryIn))
    ensures x >= 2 && y >= 2 && carryIn >= 2 ==> sum >= 2
  {
    var xy := b.AddXorGate(x, y);
    sum := b.AddXorGate(xy, carryIn);
  }

  method HalfAdder(b: CircuitBuilder, x: nat, y: nat) returns (sum: nat, carryOut: nat)
    requires b.Valid() && x < b.feedId && y < b.feedId
    modifies b
    ensures b.Grown() && sum < b.feedId && carryOut < b.feedId
    ensures forall w: nat -> bool :: Models(w, b.gates) ==> w(sum) == (w(x) != w(y)) && w(carryOut) == (w(x) && w(y))
    ensures x >= 2 && y >= 2 ==> sum >= 2 && carryOut >= 2
  {
    sum := b.AddXorGate(x, y);
    carryOut := b.AddAndGate(x, y);
  }

  /** `s` and a carry of weight 2^|a| together hold `a + b + c0`. */
  predicate Adds(s: Bits, carry: bool, a: Bits, b: Bits, c0: bool) {
    |s| == |a| == |b| && Value(s) + Scaled(Bit(carry), |a|) == Value(a) + Value(b) + Bit(c0)
  }

  lemma RippleStep(s: Bits, c: bool, a: Bits, b: Bits, c0: bool, x: bool, y: bool)
    requires Adds(s, c, a, b, c0)
    ensures Adds(s + [(x != y) != c], Majority(x, y, c), a + [x], b + [y], c0)
  {
    var n := |a|;
    ValueConcat(s, [(x != y) != c]);
    ValueConcat(a, [x]);
    ValueConcat(b, [y]);
    ScaledZeroOne(n);
    ScaledZeroOne(n + 1);
  }

  lemma ValuesSnoc(w: nat -> bool, nodes: seq<nat>, v: nat)
    ensures ValuesOf(w, nodes + [v]) == ValuesOf(w, nodes) + [w(v)]
  {
  }

  lemma ValuesPrefix(w: nat -> bool, nodes: seq<nat>, n: nat)
    requires n < |nodes|
    ensures ValuesOf(w, nodes[..n + 1]) == ValuesOf(w, nodes[..n]) + [w(nodes[n])]
  {
    assert nodes[..n + 1] == nodes[..n] + [nodes[n]];
    ValuesSnoc(w, nodes[..n], nodes[n]);
  }

  lemma RippleColumn(w: nat -> bool, out: seq<nat>, c: nat, xs: seq<nat>, ys: seq<nat>, n: nat, c0: bool, sum: nat)
    requires n < |xs| == |ys|
    requires Adds(ValuesOf(w, out), w(c), ValuesOf(w, xs[..n]), ValuesOf(w, ys[..n]), c0)
    requires w(sum) == ((w(xs[n]) != w(ys[n])) != w(c))
    ensures Adds(ValuesOf(w, out + [sum]), Majority(w(xs[n]), w(ys[n]), w(c)), ValuesOf(w, xs[..n + 1]),
                 ValuesOf(w, ys[..n + 1]), c0)
  {
    RippleStep(ValuesOf(w, out), w(c), ValuesOf(w, xs[..n]), ValuesOf(w, ys[..n]), c0, w(xs[n]), w(ys[n]));
    ValuesPrefix(w, xs, n);
    ValuesPrefix(w, ys, n);
    ValuesSnoc(w, out, sum);
  }

  /** In every model, the first `n` columns hold the sum of the low words, with carry node `c`. */
  ghost predicate AddsUnder(gates: seq<Gate>, out: seq<nat>, c: nat, xs: seq<nat>, ys: seq<nat>, n: nat, c0: bool) {
    n <= |xs| && n <= |ys| && forall w: nat -> bool :: Models(w, gates) ==>
      Adds(ValuesOf(w, out), w(c), ValuesOf(w, xs[..n]), ValuesOf(w, ys[..n]), c0)
  }

  /** One more column of a ripple adder, under every model. */
  lemma ColumnAdded(g0: seq<Gate>, g: seq<Gate>, out: seq<nat>, c: nat, xs: seq<nat>, ys: seq<nat>, n: nat, c0: bool,
                    sum: nat, c': nat)
    requires n < |xs| == |ys| && AddsUnder(g0, out, c, xs, ys, n, c0)
    requires forall w: nat -> bool :: Models(w, g) ==>
      Models(w, g0) && w(sum) == ((w(xs[n]) != w(ys[n])) != w(c)) && w(c') == Majority(w(xs[n]), w(ys[n]), w(c))
    ensures AddsUnder(g, out + [sum], c', xs, ys, n + 1, c0)
  {
    forall w: nat -> bool | Models(w, g)
      ensures Adds(ValuesOf(w, out + [sum]), w(c'), ValuesOf(w, xs[..n + 1]), ValuesOf(w, ys[..n + 1]), c0)
    {
      RippleColumn(w, out, c, xs, ys, n, c0, sum);
    }
  }

  /** In every model the nodes `out` hold the sum of `xs` and `ys`, modulo 2^n. */
  ghost predicate SumUnder(gates: seq<Gate>, out: seq<nat>, xs: seq<nat>, ys: seq<nat>) {
    forall w: nat -> bool :: Models(w, gates) ==> ValuesOf(w, out) == AddWords(ValuesOf(w, xs), ValuesOf(w, ys))
  }

  /** The last column, whose carry is not computed. */
  lemma LastColumnAdded(g0: seq<Gate>, g: seq<Gate>, out: seq<nat>, c: nat, xs: seq<nat>, ys: seq<nat>, n: nat,
                        sum: nat)
    requires n + 1 == |xs| == |ys| && AddsUnder(g0, out, c, xs, ys, n, false)
    requires forall w: nat -> bool :: Models(w, g) ==> Models(w, g0) && w(sum) == ((w(xs[n]) != w(ys[n])) != w(c))
    ensures SumUnder(g, out + [sum], xs, ys)
  {
    assert xs[..n + 1] == xs && ys[..n + 1] == ys;
    forall w: nat -> bool | Models(w, g)
      ensures ValuesOf(w, out + [sum]) == AddWords(ValuesOf(w, xs), ValuesOf(w, ys))
    {
      RippleColumn(w, out, c, xs, ys, n, false, sum);
      FromNatScaled(ValuesOf(w, out + [sum]), Bit(Majority(w(xs[n]), w(ys[n]), w(c))));
    }
  }

  /** Before the first column the carry node holds the incoming carry. */
  lemma NoColumns(gates: seq<Gate>, c: nat, xs: seq<nat>, ys: seq<nat>, c0: bool)
    requires forall w: nat -> bool :: Models(w, gates) ==> w(c) == c0
    ensures AddsUnder(gates, [], c, xs, ys, 0, c0)
  {
  }

  /** One column of the addition: no carry into the first, none out of the last. */
  method AddColumn(b: CircuitBuilder, xs: seq<nat>, ys: seq<nat>, n: nat, c: nat, ghost out: seq<nat>)
    returns (sum: nat, c': nat)
    requires b.Valid() && n < |xs| == |ys| && InRange(xs, b.feedId) && InRange(ys, b.feedId) && c < b.feedId
    requires AddsUnder(b.gates, out, c, xs, ys, n, false) && (n == 0 ==> c == 0)
    modifies b
    ensures b.Grown() && sum < b.feedId && c' < b.feedId
    ensures n < |xs| - 1 ==> AddsUnder(b.gates, out + [sum], c', xs, ys, n + 1, false)
    ensures n == |xs| - 1 ==> SumUnder(b.gates, out + [sum], xs, ys)
    ensures Variables(xs) && Variables(ys) && (n > 0 ==> c >= 2) ==> sum >= 2 && c' >= 2
  {
    ghost var g0 := b.gates;
    if n == 0 {
      sum, c' := HalfAdder(b, xs[0], ys[0]);
    } else if n < |xs| - 1 {
      sum, c' := FullAdder(b, xs[n], ys[n], c);
    } else {
      sum := FullAdderNoCarryOut(b, xs[n], ys[n], c);
      c' := c;
    }
    if n == |xs| - 1 {
      LastColumnAdded(g0, b.gates, out, c, xs, ys, n, sum);
    } else {
      ColumnAdded(g0, b.gates, out, c, xs, ys, n, false, sum, c');
    }
  }

  /** Adds two words of any width, dropping the final carry. */
  method WrappingAdd(b: CircuitBuilder, xs: seq<nat>, ys: seq<nat>) returns (out: seq<nat>)
    requires b.Valid() && |xs| == |ys| && InRange(xs, b.feedId) && InRange(ys, b.feedId)
    modifies b
    ensures b.Grown() && |out| == |xs| && InRange(out, b.feedId)
    ensures SumUnder(b.gates, out, xs, ys)
    ensures Variables(xs) && Variables(ys) ==> Variables(out)
  {
    var c: nat := 0;
    out := [];
    NoColumns(b.gates, c, xs, ys, false);
    for n := 0 to |xs|
      invariant b.Grown() && |out| == n && InRange(out, b.feedId) && c < b.feedId
      invariant n == 0 ==> c == 0
      invariant n < |xs| ==> AddsUnder(b.gates, out, c, xs, ys, n, false)
      invariant 0 < n == |xs| ==> SumUnder(b.gates, out, xs, ys)
      invariant Variables(xs) && Variables(ys) ==> Variables(out) && (n > 0 ==> c >= 2)
    {
      var sum;
      sum, c := AddColumn(b, xs, ys, n, c, out);
      out := out + [sum];
    }
  }

  /** In every model `out` is `xs - ys` modulo 2^n and `underflow` tells whether `xs < ys`. */
  ghost predicate DifferenceUnder(gates: seq<Gate>, out: seq<nat>, underflow: nat, xs: seq<nat>, ys: seq<nat>) {
    |xs| == |ys| && forall w: nat -> bool :: Models(w, gates) ==>
      && ValuesOf(w, out) == SubWords(ValuesOf(w, xs), ValuesOf(w, ys))
      && w(underflow) == (Value(ValuesOf(w, xs)) < Value(ValuesOf(w, ys)))
  }

  function Inverted(a: Bits): (r: Bits)
    ensures |r| == |a|
  {
    seq(|a|, i requires 0 <= i < |a| => !a[i])
  }

  lemma {:induction false} InvertedValue(a: Bits)
    ensures Value(a) + Value(Inverted(a)) + 1 == Pow2(|a|)
  {
    if a != [] {
      assert Inverted(a)[1..] == Inverted(a[1..]);
      InvertedValue(a[1..]);
    }
  }

  lemma BorrowSum(d: Bits, carry: bool, a: Bits, b: Bits)
    requires |a| == |b| && Adds(d, carry, a, Inverted(b), true)
    ensures Value(d) + Scaled(Bit(carry), |d|) == Difference(a, b)
    ensures carry == (Value(a) >= Value(b))
  {
    InvertedValue(b);
    ScaledZeroOne(|a|);
    ValueBound(a);
    ValueBound(d);
  }

  lemma TruncatedDifference(d: Bits, hi: nat, a: Bits, b: Bits)
    requires |d| == |a| == |b| && Value(d) + Scaled(hi, |d|) == Difference(a, b)
    ensures d == SubWords(a, b)
  {
    FromNatScaled(d, hi);
  }

  lemma BorrowValue(d: Bits, carry: bool, a: Bits, b: Bits)
    requires |a| == |b| && Adds(d, carry, a, Inverted(b), true)
    ensures d == SubWords(a, b) && carry == (Value(a) >= Value(b))
  {
    BorrowSum(d, carry, a, b);
    TruncatedDifference(d, Bit(carry), a, b);
  }

  /** In every model `inv` is the bitwise complement of the first `n` nodes of `ys`. */
  ghost predicate InvertsUnder(gates: seq<Gate>, inv: seq<nat>, ys: seq<nat>, n: nat) {
    n <= |ys| && forall w: nat -> bool :: Models(w, gates) ==> ValuesOf(w, inv) == Inverted(ValuesOf(w, ys[..n]))
  }

  lemma InvertColumn(g0: seq<Gate>, g: seq<Gate>, inv: seq<nat>, ys: seq<nat>, n: nat, v: nat)
    requires n < |ys| && InvertsUnder(g0, inv, ys, n)
    requires forall w: nat -> bool :: Models(w, g) ==> Models(w, g0) && w(v) == !w(ys[n])
    ensures InvertsUnder(g, inv + [v], ys, n + 1)
  {
    forall w: nat -> bool | Models(w, g)
      ensures ValuesOf(w, inv + [v]) == Inverted(ValuesOf(w, ys[..n + 1]))
    {
      ValuesSnoc(w, inv, v);
      ValuesPrefix(w, ys, n);
    }
  }

  method InvertAll(b: CircuitBuilder, ys: seq<nat>) returns (inv: seq<nat>)
    requires b.Valid() && InRange(ys, b.feedId)
    modifies b
    ensures b.Grown() && |inv| == |ys| && InRange(inv, b.feedId)
    ensures InvertsUnder(b.gates, inv, ys, |ys|)
  {
    inv := [];
    for n := 0 to |ys|
      invariant b.Grown() && |inv| == n && InRange(inv, b.feedId)
      invariant InvertsUnder(b.gates, inv, ys, n)
    {
      ghost var g0 := b.gates;
      var v := b.AddInvGate(ys[n]);
      InvertColumn(g0, b.gates, inv, ys, n, v);
      inv := inv + [v];
    }
  }

  lemma DifferenceFromCarry(gInv: seq<Gate>, g1: seq<Gate>, g: seq<Gate>, xs: seq<nat>, ys: seq<nat>, inv: seq<nat>,
                            diff: seq<nat>, c: nat, underflow: nat)
    requires |xs| == |ys| == |inv| && InvertsUnder(gInv, inv, ys, |ys|) && AddsUnder(g1, diff, c, xs, inv, |xs|, true)
    requires forall w: nat -> bool :: Models(w, g) ==> Models(w, g1) && w(underflow) == !w(c)
    requires forall w: nat -> bool :: Models(w, g1) ==> Models(w, gInv)
    ensures DifferenceUnder(g, diff, underflow, xs, ys)
  {
    assert xs[..|xs|] == xs && inv[..|xs|] == inv && ys[..|ys|] == ys;
    forall w: nat -> bool | Models(w, g)
      ensures ValuesOf(w, diff) == SubWords(ValuesOf(w, xs), ValuesOf(w, ys))
      ensures w(underflow) == (Value(ValuesOf(w, xs)) < Value(ValuesOf(w, ys)))
    {
      BorrowValue(ValuesOf(w, diff), w(c), ValuesOf(w, xs), ValuesOf(w, ys));
    }
  }

  /** One full-adder column with its carry out. */
  method RippleOnce(b: CircuitBuilder, xs: seq<nat>, ys: seq<nat>, n: nat, c: nat, ghost c0: bool, ghost out: seq<nat>)
    returns (sum: nat, c': nat)
    requires b.Valid() && n < |xs| == |ys| && InRange(xs, b.feedId) && InRange(ys, b.feedId) && c < b.feedId
    requires AddsUnder(b.gates, out, c, xs, ys, n, c0)
    modifies b
    ensures b.Grown() && sum < b.feedId && c' < b.feedId
    ensures AddsUnder(b.gates, out + [sum], c', xs, ys, n + 1, c0)
  {
    ghost var g0 := b.gates;
    sum, c' := FullAdder(b, xs[n], ys[n], c);
    ColumnAdded(g0, b.gates, out, c, xs, ys, n, c0, sum, c');
  }

  method RippleAll(b: CircuitBuilder, xs: seq<nat>, ys: seq<nat>, carryIn: nat, ghost c0: bool)
    returns (out: seq<nat>, c: nat)
    requires b.Valid() && |xs| == |ys| && InRange(xs, b.feedId) && InRange(ys, b.feedId) && carryIn < b.feedId
    requires forall w: nat -> bool :: Models(w, b.gates) ==> w(carryIn) == c0
    modifies b
    ensures b.Grown() && |out| == |xs| && InRange(out, b.feedId) && c < b.feedId
    ensures AddsUnder(b.gates, out, c, xs, ys, |xs|, c0)
  {
    c := carryIn;
    out := [];
    NoColumns(b.gates, c, xs, ys, c0);
    for n := 0 to |xs|
      invariant b.Grown() && |out| == n && InRange(out, b.feedId) && c < b.feedId
      invariant AddsUnder(b.gates, out, c, xs, ys, n, c0)
    {
      var sum;
      sum, c := RippleOnce(b, xs, ys, n, c, c0, out);
      out := out + [sum];
    }
  }

  /** Subtracts two words of any width; the underflow node is set exactly when the first is smaller. */
  method WrappingSub(b: CircuitBuilder, xs: seq<nat>, ys: seq<nat>) returns (diff: seq<nat>, underflow: nat)
    requires b.Valid() && |xs| == |ys| && InRange(xs, b.feedId) && InRange(ys, b.feedId)
    modifies b
    ensures b.Grown() && |diff| == |xs| && InRange(diff, b.feedId) && underflow < b.feedId
    ensures DifferenceUnder(b.gates, diff, underflow, xs, ys)
  {
    var inv := InvertAll(b, ys);
    ghost var gInv := b.gates;
    var c;
    diff, c := RippleAll(b, xs, inv, 1, true);
    ghost var g1 := b.gates;
    underflow := b.AddInvGate(c);
    DifferenceFromCarry(gInv, g1, b.gates, xs, ys, inv, diff, c, underflow);
  }

  function Selected(t: bool, a: Bits, b: Bits): Bits {
    if t then b else a
  }

  ghost predicate SelectsUnder(gates: seq<Gate>, out: seq<nat>, xs: seq<nat>, ys: seq<nat>, toggle: nat, n: nat) {
    n <= |xs| && n <= |ys| && forall w: nat -> bool :: Models(w, gates) ==>
      ValuesOf(w, out) == Selected(w(toggle), ValuesOf(w, xs[..n]), ValuesOf(w, ys[..n]))
  }

  lemma SelectColumn(g0: seq<Gate>, g: seq<Gate>, out: seq<nat>, xs: seq<nat>, ys: seq<nat>, toggle: nat, n: nat,
                     v: nat)
    requires n < |xs| == |ys| && SelectsUnder(g0, out, xs, ys, toggle, n)
    requires forall w: nat -> bool :: Models(w, g) ==> Models(w, g0) && w(v) == if w(toggle) then w(ys[n]) else w(xs[n])
    ensures SelectsUnder(g, out + [v], xs, ys, toggle, n + 1)
  {
    forall w: nat -> bool | Models(w, g)
      ensures ValuesOf(w, out + [v]) == Selected(w(toggle), ValuesOf(w, xs[..n + 1]), ValuesOf(w, ys[..n + 1]))
    {
      ValuesSnoc(w, out, v);
      ValuesPrefix(w, xs, n);
      ValuesPrefix(w, ys, n);
    }
  }

  method SelectBit(b: CircuitBuilder, x: nat, y: nat, toggle: nat, notToggle: nat) returns (v: nat)
    requires b.Valid() && x < b.feedId && y < b.feedId && toggle < b.feedId && notToggle < b.feedId
    modifies b
    ensures b.Grown() && v < b.feedId
    ensures forall w: nat -> bool :: Models(w, b.gates) ==> w(v) == ((w(x) && w(notToggle)) != (w(y) && w(toggle)))
  {
    var l := b.AddAndGate(x, notToggle);
    var r := b.AddAndGate(y, toggle);
    v := b.AddXorGate(l, r);
  }

  /** Selects `xs` when the toggle is 0 and `ys` when it is 1. */
  method Switch(b: CircuitBuilder, xs: seq<nat>, ys: seq<nat>, toggle: nat) returns (out: seq<nat>)
    requires b.Valid() && |xs| == |ys| && InRange(xs, b.feedId) && InRange(ys, b.feedId) && toggle < b.feedId
    modifies b
    ensures b.Grown() && |out| == |xs| && InRange(out, b.feedId)
    ensures SelectsUnder(b.gates, out, xs, ys, toggle, |xs|)
  {
    var notToggle := b.AddInvGate(toggle);
    ghost var g1 := b.gates;
    out := [];
    for n := 0 to |xs|
      invariant b.Grown() && |out| == n && InRange(out, b.feedId) && notToggle < b.feedId
      invariant forall w: nat -> bool :: Models(w, b.gates) ==> w(notToggle) == !w(toggle)
      invariant SelectsUnder(b.gates, out, xs, ys, toggle, n)
    {
      ghost var g0 := b.gates;
      var v := SelectBit(b, xs[n], ys[n], toggle, notToggle);
      SelectColumn(g0, b.gates, out, xs, ys, toggle, n, v);
      out := out + [v];
    }
  }

  /** What the three gadgets of modular addition hold under `w`. */
  ghost predicate AddModValues(w: nat -> bool, xs: seq<nat>, ys: seq<nat>, ms: seq<nat>, sum: seq<nat>, rem: seq<nat>,
                               underflow: nat, reduced: seq<nat>)
    requires |xs| == |ys| == |ms|
  {
    && !w(0) && |sum| == |rem| == |reduced| == |xs| + 1
    && ValuesOf(w, sum) == AddWords(ValuesOf(w, xs + [0]), ValuesOf(w, ys + [0]))
    && ValuesOf(w, rem) == SubWords(ValuesOf(w, sum), ValuesOf(w, ms + [0]))
    && w(underflow) == (Value(ValuesOf(w, sum)) < Value(ValuesOf(w, ms + [0])))
    && ValuesOf(w, reduced) == if w(underflow) then ValuesOf(w, sum) else ValuesOf(w, rem)
  }

  lemma AddModModel(w: nat -> bool, xs: seq<nat>, ys: seq<nat>, ms: seq<nat>, sum: seq<nat>, rem: seq<nat>,
                    underflow: nat, reduced: seq<nat>)
    requires |xs| == |ys| == |ms| && AddModValues(w, xs, ys, ms, sum, rem, underflow, reduced)
    ensures AddsModulo(ValuesOf(w, reduced[..|xs|]), ValuesOf(w, xs), ValuesOf(w, ys), ValuesOf(w, ms))
  {
    ValuesSnoc(w, xs, 0);
    ValuesSnoc(w, ys, 0);
    ValuesSnoc(w, ms, 0);
    assert ValuesOf(w, reduced[..|xs|]) == ValuesOf(w, reduced)[..|xs|];
    var a, b, m := ValuesOf(w, xs), ValuesOf(w, ys), ValuesOf(w, ms);
    AddModValue(a, b, m, ValuesOf(w, sum), ValuesOf(w, rem), ValuesOf(w, reduced));
  }

  lemma AddModUnder(g1: seq<Gate>, g2: seq<Gate>, g: seq<Gate>, xs: seq<nat>, ys: seq<nat>, ms: seq<nat>,
                    sum: seq<nat>, rem: seq<nat>, underflow: nat, reduced: seq<nat>)
    requires |xs| == |ys| == |ms| && |sum| == |rem| == |reduced| == |xs| + 1
    requires SumUnder(g1, sum, xs + [0], ys + [0]) && DifferenceUnder(g2, rem, underflow, sum, ms + [0])
    requires SelectsUnder(g, reduced, rem, sum, underflow, |rem|)
    requires forall w: nat -> bool :: Models(w, g) ==> Models(w, g2) && Models(w, g1)
    ensures forall w: nat -> bool :: Models(w, g) ==>
      AddsModulo(ValuesOf(w, reduced[..|xs|]), ValuesOf(w, xs), ValuesOf(w, ys), ValuesOf(w, ms))
  {
    assert rem[..|rem|] == rem && sum[..|rem|] == sum;
    forall w: nat -> bool | Models(w, g)
      ensures AddsModulo(ValuesOf(w, reduced[..|xs|]), ValuesOf(w, xs), ValuesOf(w, ys), ValuesOf(w, ms))
    {
      AddModModel(w, xs, ys, ms, sum, rem, underflow, reduced);
    }
  }

  /** Adds two residues of a modulus held in nodes. */
  method AddMod(b: CircuitBuilder, xs: seq<nat>, ys: seq<nat>, modulus: seq<nat>) returns (out: seq<nat>)
    requires b.Valid() && |xs| == |ys| == |modulus|
    requires InRange(xs, b.feedId) && InRange(ys, b.feedId) && InRange(modulus, b.feedId)
    modifies b
    ensures b.Grown() && |out| == |xs| && InRange(out, b.feedId)
    ensures forall w: nat -> bool :: Models(w, b.gates) ==>
      AddsModulo(ValuesOf(w, out), ValuesOf(w, xs), ValuesOf(w, ys), ValuesOf(w, modulus))
  {
    var sum := WrappingAdd(b, xs + [0], ys + [0]);
    ghost var g1 := b.gates;
    var rem, underflow := WrappingSub(b, sum, modulus + [0]);
    ghost var g2 := b.gates;
    var reduced := Switch(b, rem, sum, underflow);
    out := reduced[..|reduced| - 1];
    AddModUnder(g1, g2, b.gates, xs, ys, modulus, sum, rem, underflow, reduced);
  }

  /** For summands below the modulus, `r == (a + b) mod m`. */
  predicate AddsModulo(r: Bits, a: Bits, b: Bits, m: Bits) {
    Value(a) < Value(m) && Value(b) < Value(m) ==> Value(r) == (Value(a) + Value(b)) % Value(m)
  }

  lemma WideValue(a: Bits)
    ensures Value(a + [false]) == Value(a)
  {
    ValueConcat(a, [false]);
    ScaledZeroOne(|a|);
  }

  /** A sum of two residues, reduced by one conditional subtraction. */
  function Reduced(x: nat, y: nat, m: nat): nat {
    if x + y < m then x + y else x + y - m
  }

  lemma ReduceOnce(x: nat, y: nat, m: nat)
    requires x < m && y < m
    ensures (x + y) % m == Reduced(x, y, m)
  {
    if x + y < m {
      SmallModulo(x + y, m);
    } else {
      DivModUnique(x + y, m, 1, x + y - m);
    }
  }

  lemma NoBorrow(a: Bits, b: Bits)
    requires |a| == |b|
    ensures Value(a) >= Value(b) ==> Value(SubWords(a, b)) == Value(a) - Value(b)
  {
    if Value(a) >= Value(b) {
      ValueBound(a);
      ResidueBelow(Value(a) - Value(b), Value(SubWords(a, b)), a, b);
    }
  }

  lemma ResidueBelow(d: nat, r: nat, a: Bits, b: Bits)
    requires |a| == |b| && d == Value(a) - Value(b) && d < Pow2(|a|) && r == Value(SubWords(a, b))
    ensures r == d
  {
    SubWordsValue(a, b);
    SmallModulo(d, Pow2(|a|));
  }

  /** The extra bit absorbs the carry. */
  lemma WideBound(a: Bits, b: Bits)
    requires |a| == |b|
    ensures Value(a) + Value(b) < Pow2(|a| + 1)
  {
    ValueBound(a);
    ValueBound(b);
    assert Pow2(|a| + 1) == 2 * Pow2(|a|);
  }

  lemma SumFits(a: Bits, b: Bits, v: nat)
    requires |a| == |b| && v == Value(a) + Value(b) && v < Pow2(|a|)
    ensures Value(AddWords(a, b)) == v
  {
    FromNatSmall(v, |a|);
  }

  lemma WideSum(a: Bits, b: Bits, wideA: Bits, wideB: Bits)
    requires |a| == |b| && wideA == a + [false] && wideB == b + [false]
    ensures Value(AddWords(wideA, wideB)) == Value(a) + Value(b)
  {
    WideValue(a);
    WideValue(b);
    WideBound(a, b);
    SumFits(wideA, wideB, Value(a) + Value(b));
  }

  /** The selected number is the residue, and fits without the extra bit. */
  lemma SelectedResidue(x: nat, y: nat, m: nat, limit: nat, sum: nat, rem: nat, r: nat)
    requires x < m && y < m && m < limit && sum == x + y
    requires sum >= m ==> rem == sum - m
    requires r == if sum < m then sum else rem
    ensures r == (x + y) % m && r < limit
  {
    ReduceOnce(x, y, m);
  }

  lemma AddModValue(a: Bits, b: Bits, m: Bits, sum: Bits, rem: Bits, reduced: Bits)
    requires |a| == |b| == |m|
    requires sum == AddWords(a + [false], b + [false]) && rem == SubWords(sum, m + [false])
    requires reduced == if Value(sum) < Value(m + [false]) then sum else rem
    ensures AddsModulo(reduced[..|a|], a, b, m)
  {
    if Value(a) < Value(m) && Value(b) < Value(m) {
      WideSum(a, b, a + [false], b + [false]);
      WideValue(m);
      ValueBound(m);
      NoBorrow(sum, m + [false]);
      SelectedResidue(Value(a), Value(b), Value(m), Pow2(|a|), Value(sum), Value(rem), Value(reduced));
      TopBitClear(reduced, |a|);
    }
  }

  lemma SmallModulo(v: nat, d: nat)
    requires v < d
    ensures v % d == v
  {
    DivModUnique(v, d, 0, v);
  }

  lemma TopBitClear(r: Bits, n: nat)
    requires |r| == n + 1 && Value(r) < Pow2(n)
    ensures Value(r[..n]) == Value(r)
  {
    assert r == r[..n] + [r[n]];
    ValueConcat(r[..n], [r[n]]);
    ScaledZeroOne(n);
  }

  ghost predicate XorsUnder(gates: seq<Gate>, out: seq<nat>, xs: seq<nat>, ys: seq<nat>, n: nat) {
    n <= |xs| && n <= |ys| && forall w: nat -> bool :: Models(w, gates) ==>
      ValuesOf(w, out) == Xor(ValuesOf(w, xs[..n]), ValuesOf(w, ys[..n]))
  }

  lemma XorColumn(g0: seq<Gate>, g: seq<Gate>, out: seq<nat>, xs: seq<nat>, ys: seq<nat>, n: nat, v: nat)
    requires n < |xs| == |ys| && XorsUnder(g0, out, xs, ys, n)
    requires forall w: nat -> bool :: Models(w, g) ==> Models(w, g0) && w(v) == (w(xs[n]) != w(ys[n]))
    ensures XorsUnder(g, out + [v], xs, ys, n + 1)
  {
    forall w: nat -> bool | Models(w, g)
      ensures ValuesOf(w, out + [v]) == Xor(ValuesOf(w, xs[..n + 1]), ValuesOf(w, ys[..n + 1]))
    {
      ValuesSnoc(w, out, v);
      ValuesPrefix(w, xs, n);
      ValuesPrefix(w, ys, n);
    }
  }

  /** `out` are gate outputs with consecutive ids from `first`. */
  ghost predicate FreshGates(gates: seq<Gate>, out: seq<nat>, first: nat) {
    forall i | 0 <= i < |out| :: out[i] == first + i && IsGateOutput(gates, out[i])
  }

  /** Bitwise XOR of two words. */
  method XorWords(b: CircuitBuilder, xs: seq<nat>, ys: seq<nat>) returns (out: seq<nat>)
    requires b.Valid() && |xs| == |ys| && InRange(xs, b.feedId) && InRange(ys, b.feedId)
    modifies b
    ensures b.Grown() && |out| == |xs| && InRange(out, b.feedId)
    ensures XorsUnder(b.gates, out, xs, ys, |xs|)
    ensures Variables(xs) && Variables(ys)
        ==> Variables(out) && FreshGates(b.gates, out, old(b.feedId)) && b.feedId == old(b.feedId) + |out|
  {
    out := [];
    ghost var first := b.feedId;
    for n := 0 to |xs|
      invariant b.Grown() && |out| == n && InRange(out, b.feedId)
      invariant XorsUnder(b.gates, out, xs, ys, n)
      invariant Variables(xs) && Variables(ys) ==> b.feedId == first + n && FreshGates(b.gates, out, first)
    {
      var v := XorOnce(b, xs, ys, n, out, first);
      out := out + [v];
    }
  }

  method XorOnce(b: CircuitBuilder, xs: seq<nat>, ys: seq<nat>, n: nat, ghost out: seq<nat>, ghost first: nat)
    returns (v: nat)
    requires b.Valid() && n < |xs| == |ys| && |out| == n && InRange(xs, b.feedId) && InRange(ys, b.feedId)
    requires XorsUnder(b.gates, out, xs, ys, n)
    modifies b
    ensures b.Grown() && v < b.feedId && XorsUnder(b.gates, out + [v], xs, ys, n + 1)
    ensures Variables(xs) && Variables(ys) && old(b.feedId) == first + n && FreshGates(old(b.gates), out, first)
        ==> b.feedId == first + n + 1 && FreshGates(b.gates, out + [v], first)
  {
    ghost var g0 := b.gates;
    v := b.AddXorGate(xs[n], ys[n]);
    GateOutputsKept(g0, b.gates);
    XorColumn(g0, b.gates, out, xs, ys, n, v);
  }

  lemma GateOutputsKept(g0: seq<Gate>, g: seq<Gate>)
    requires g0 <= g
    ensures forall v: nat :: IsGateOutput(g0, v) ==> IsGateOutput(g, v)
  {
    forall v: nat | IsGateOutput(g0, v) ensures IsGateOutput(g, v) {
      var k :| 0 <= k < |g0| && g0[k].z == v;
      assert g[k].z == v;
    }
  }
}
