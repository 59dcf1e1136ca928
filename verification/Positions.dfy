/**
 * The running position: weighted-average adds, partial and exact closes, flips.
 *
 * Amounts are exact reals. The source computes with Python's decimal context, whose
 * 28 digits can round the average-price division; that rounding is not modelled.
 */
module Positions {
  import opened Sequences
  import opened Fills

  datatype Position = Position(quantity: real, entry: real, realized: real)

  function Min(a: real, b: real): real {
    if a <= b then a else b
  }

  function Direction(quantity: real): real {
    if quantity > 0.0 then 1.0 else -1.0
  }

  /** A fill that opens or grows the position rather than reducing it. */
  predicate Adds(quantity: real, side: Side) {
    quantity == 0.0 || (quantity > 0.0) == side.Buy?
  }

  /** One iteration of the accounting loop. */
  function Step(p: Position, f: Fill): Position {
    var held := Abs(p.quantity);
    if Adds(p.quantity, f.side) then
      Position(p.quantity + Signed(f), (held * p.entry + f.size * f.price) / (held + f.size), p.realized)
    else
      var closed := Min(held, f.size);
      Position(
        p.quantity + Signed(f),
        if f.size > held then f.price else if f.size == held then 0.0 else p.entry,
        p.realized + closed * (f.price - p.entry) * Direction(p.quantity))
  }

  /** The accounting loop over a whole sequence of fills. */
  function Run(p: Position, fs: seq<Fill>): Position {
    if fs == [] then p else Step(Run(p, fs[..|fs| - 1]), fs[|fs| - 1])
  }

  lemma {:induction false} RunConcat(p: Position, a: seq<Fill>, b: seq<Fill>)
    ensures Run(p, a + b) == Run(Run(p, a), b)
  {
    if b == [] {
      assert a + b == a;
    } else {
      var n := |b| - 1;
      assert (a + b)[..|a + b| - 1] == a + b[..n];
      RunConcat(p, a, b[..n]);
    }
  }

  lemma RunPair(p: Position, x: Fill, y: Fill)
    ensures Run(p, [x, y]) == Step(Step(p, x), y)
  {
    hide Step;
    assert [x, y][..1] == [x];
    assert [x][..0] == [];
    assert Run(p, [x]) == Step(p, x);
  }

  lemma {:induction false} RunQuantity(p: Position, fs: seq<Fill>)
    ensures Run(p, fs).quantity == p.quantity + Net(fs)
  {
    if fs != [] {
      RunQuantity(p, fs[..|fs| - 1]);
    }
  }

  /** What closing a fill's size at its price gains over `entry`, for a long position. */
  function ClosingGain(entry: real): Fill -> real { (f: Fill) => f.size * (f.price - entry) }

  // ---------------------------------------------------------------- closed form of one group

  ghost predicate AllSide(g: seq<Fill>, side: Side) {
    forall f | f in g :: f.side == side
  }

  ghost predicate AllPrice(g: seq<Fill>, price: real) {
    forall f | f in g :: f.price == price
  }

  lemma {:induction false} OneSidedNet(g: seq<Fill>, side: Side)
    requires AllSide(g, side)
    ensures Net(g) == if side.Buy? then Sum(g, SizeOf) else -Sum(g, SizeOf)
    ensures Sum(g, SizeOf) >= 0.0 && (g != [] ==> Sum(g, SizeOf) > 0.0)
  {
    if g != [] {
      OneSidedNet(g[..|g| - 1], side);
    }
  }

  lemma {:induction false} OnePriceNotional(g: seq<Fill>, price: real)
    requires AllPrice(g, price)
    ensures Sum(g, NotionalOf) == price * Sum(g, SizeOf)
  {
    if g != [] {
      OnePriceNotional(g[..|g| - 1], price);
    }
  }

  lemma Quotient(x: real, a: real, b: real)
    requires b > 0.0
    ensures x * b == a <==> x == a / b
  {
  }

  lemma StepAdding(p: Position, f: Fill)
    requires Adds(p.quantity, f.side)
    ensures var n := Step(p, f);
            && Abs(n.quantity) == Abs(p.quantity) + f.size
            && n.entry * Abs(n.quantity) == Abs(p.quantity) * p.entry + NotionalOf(f)
            && n.realized == p.realized
            && Adds(n.quantity, f.side)
  {
    var held := Abs(p.quantity);
    Quotient(Step(p, f).entry, held * p.entry + f.size * f.price, held + f.size);
  }

  lemma StepReducing(p: Position, f: Fill)
    requires !Adds(p.quantity, f.side) && f.size <= Abs(p.quantity)
    ensures var n := Step(p, f);
            && Abs(n.quantity) == Abs(p.quantity) - f.size
            && n.entry == (if n.quantity == 0.0 then 0.0 else p.entry)
            && n.realized == p.realized + ClosingGain(p.entry)(f) * Direction(p.quantity)
            && (n.quantity != 0.0 ==> !Adds(n.quantity, f.side) && Direction(n.quantity) == Direction(p.quantity))
  {
  }

  lemma StepCrossing(p: Position, f: Fill)
    requires !Adds(p.quantity, f.side) && f.size > Abs(p.quantity)
    ensures var n := Step(p, f);
            && Abs(n.quantity) == f.size - Abs(p.quantity)
            && n.entry == f.price
            && n.realized == p.realized + Abs(p.quantity) * (f.price - p.entry) * Direction(p.quantity)
            && Adds(n.quantity, f.side)
  {
  }

  /** Same-direction fills: the entry becomes the size-weighted average. */
  lemma {:induction false} AddingGroup(p: Position, g: seq<Fill>, side: Side)
    requires g != [] && AllSide(g, side) && Adds(p.quantity, side)
    ensures Run(p, g).realized == p.realized
    ensures Abs(Run(p, g).quantity) == Abs(p.quantity) + Sum(g, SizeOf)
    ensures Run(p, g).entry * Abs(Run(p, g).quantity) == Abs(p.quantity) * p.entry + Sum(g, NotionalOf)
    ensures Adds(Run(p, g).quantity, side)
  {
    hide Step;
    var a, f := g[..|g| - 1], g[|g| - 1];
    assert f in g;
    if a != [] {
      AddingGroup(p, a, side);
    }
    StepAdding(Run(p, a), f);
  }

  /** Opposite fills that do not exceed the position realize against a fixed entry. */
  lemma {:induction false} ReducingGroup(p: Position, g: seq<Fill>, side: Side)
    requires AllSide(g, side) && !Adds(p.quantity, side) && Sum(g, SizeOf) <= Abs(p.quantity)
    ensures var n := Run(p, g);
            && Abs(n.quantity) == Abs(p.quantity) - Sum(g, SizeOf)
            && n.entry == (if n.quantity == 0.0 then 0.0 else p.entry)
            && n.realized == p.realized + Sum(g, ClosingGain(p.entry)) * Direction(p.quantity)
            && (n.quantity != 0.0 ==> !Adds(n.quantity, side) && Direction(n.quantity) == Direction(p.quantity))
  {
    hide Step, ClosingGain;
    if g != [] {
      var a, f := g[..|g| - 1], g[|g| - 1];
      assert f in g;
      ReducingGroup(p, a, side);
      StepReducing(Run(p, a), f);
    }
  }

  /** Opposite fills at one price that exceed the position close it and reopen at that price. */
  lemma {:induction false} CrossingGroup(p: Position, g: seq<Fill>, side: Side, price: real)
    requires AllSide(g, side) && !Adds(p.quantity, side) && Sum(g, SizeOf) > Abs(p.quantity)
    requires AllPrice(g, price)
    ensures var n := Run(p, g);
            && n.entry == price
            && n.realized == p.realized + Abs(p.quantity) * (price - p.entry) * Direction(p.quantity)
            && Adds(n.quantity, side)
  {
    hide Step, Closing, Adds, Direction;
    var a, f := g[..|g| - 1], g[|g| - 1];
    var m := Run(p, a);
    assert f in g;
    if Sum(a, SizeOf) > Abs(p.quantity) {
      CrossingGroup(p, a, side, price);
      AddAtEntry(m, f);
    } else {
      OnePriceReducing(p, a, side, price);
      CrossOver(p, m, f);
    }
  }

  lemma {:induction false} OnePriceReducing(p: Position, g: seq<Fill>, side: Side, price: real)
    requires AllSide(g, side) && !Adds(p.quantity, side) && Sum(g, SizeOf) <= Abs(p.quantity)
    requires AllPrice(g, price)
    ensures Closing(p, Run(p, g), side, price)
    ensures Abs(Run(p, g).quantity) == Abs(p.quantity) - Sum(g, SizeOf)
  {
    hide Step;
    if g != [] {
      var a, f := g[..|g| - 1], g[|g| - 1];
      assert f in g;
      OnePriceReducing(p, a, side, price);
      CloseMore(p, Run(p, a), f);
    }
  }

  lemma CloseMore(p: Position, m: Position, f: Fill)
    requires Closing(p, m, f.side, f.price) && f.size <= Abs(m.quantity)
    ensures Closing(p, Step(m, f), f.side, f.price)
    ensures Abs(Step(m, f).quantity) == Abs(m.quantity) - f.size
  {
  }

  /** `m` is `p` partly or exactly closed at one price. */
  ghost predicate Closing(p: Position, m: Position, side: Side, price: real) {
    var held := Abs(p.quantity);
    var left := Abs(m.quantity);
    && left <= held
    && m.realized == p.realized + (held - left) * (price - p.entry) * Direction(p.quantity)
    && m.entry == (if m.quantity == 0.0 then 0.0 else p.entry)
    && (m.quantity != 0.0 ==> !Adds(m.quantity, side) && Direction(m.quantity) == Direction(p.quantity))
  }

  lemma CrossOver(p: Position, m: Position, f: Fill)
    requires Closing(p, m, f.side, f.price) && Abs(m.quantity) < f.size
    ensures var n := Step(m, f);
            && n.entry == f.price
            && n.realized == p.realized + Abs(p.quantity) * (f.price - p.entry) * Direction(p.quantity)
            && Adds(n.quantity, f.side)
  {
  }

  lemma AddAtEntry(p: Position, f: Fill)
    requires Adds(p.quantity, f.side) && p.entry == f.price
    ensures Step(p, f).entry == p.entry && Step(p, f).realized == p.realized && Adds(Step(p, f).quantity, f.side)
  {
  }
}
