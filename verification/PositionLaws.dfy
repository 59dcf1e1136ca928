/** Conservation, entry-price bounds and long/short symmetry of the accounting loop. */
module PositionLaws {
  import opened Sequences
  import opened Fills
  import opened Positions

  // ---------------------------------------------------------------- conservation

  /** What one fill has gained, valued at `mark`. */
  function GainAt(mark: real): Fill -> real { (f: Fill) => Signed(f) * (mark - f.price) }

  /** Realized PnL plus the unrealized PnL of the open quantity at `mark`. */
  function Worth(p: Position, mark: real): real {
    p.realized + p.quantity * (mark - p.entry)
  }

  lemma StepConserves(p: Position, f: Fill, mark: real)
    ensures Worth(Step(p, f), mark) == Worth(p, mark) + GainAt(mark)(f)
  {
  }

  /** No PnL is created or lost through adds, partial closes, exact closes or flips. */
  lemma {:induction false} RunConserves(p: Position, fs: seq<Fill>, mark: real)
    ensures Worth(Run(p, fs), mark) == Worth(p, mark) + Sum(fs, GainAt(mark))
  {
    hide Step, Worth;
    if fs != [] {
      var n := |fs| - 1;
      RunConserves(p, fs[..n], mark);
      StepConserves(Run(p, fs[..n]), fs[n], mark);
    }
  }

  // ---------------------------------------------------------------- entry price

  ghost predicate Within(p: Position, lo: real, hi: real) {
    p.quantity != 0.0 ==> lo <= p.entry <= hi
  }

  lemma AverageWithin(a: real, x: real, b: real, y: real, avg: real, lo: real, hi: real)
    requires a >= 0.0 && b > 0.0 && avg * (a + b) == a * x + b * y
    requires a != 0.0 ==> lo <= x <= hi
    requires lo <= y <= hi
    ensures lo <= avg <= hi
  {
    Scale(a, lo, x);
    Scale(a, x, hi);
    Scale(b, lo, y);
    Scale(b, y, hi);
    var k := a + b;
    assert k * lo == a * lo + b * lo;
    assert k * hi == a * hi + b * hi;
    assert k * avg == a * x + b * y;
    CancelBoth(k, lo, avg, hi, a * lo + b * lo, a * x + b * y, a * hi + b * hi);
  }

  lemma CancelBoth(k: real, lo: real, avg: real, hi: real, l: real, m: real, h: real)
    requires k > 0.0 && k * lo == l && k * avg == m && k * hi == h && l <= m <= h
    ensures lo <= avg <= hi
  {
    Cancel(k, lo, avg);
    Cancel(k, avg, hi);
  }

  lemma Cancel(k: real, x: real, y: real)
    requires k > 0.0 && k * x <= k * y
    ensures x <= y
  {
  }

  lemma Scale(a: real, x: real, y: real)
    requires a >= 0.0 && (a != 0.0 ==> x <= y)
    ensures a * x <= a * y
  {
    assert a * (y - x) >= 0.0;
  }

  lemma StepWithin(p: Position, f: Fill, lo: real, hi: real)
    requires Within(p, lo, hi) && lo <= f.price <= hi
    ensures Within(Step(p, f), lo, hi)
    ensures Step(p, f).quantity == 0.0 ==> Step(p, f).entry == 0.0
  {
    hide Step;
    if Adds(p.quantity, f.side) {
      StepAdding(p, f);
      AverageWithin(Abs(p.quantity), p.entry, f.size, f.price, Step(p, f).entry, lo, hi);
    } else if f.size <= Abs(p.quantity) {
      StepReducing(p, f);
    } else {
      StepCrossing(p, f);
    }
  }

  /**
   * After at least one fill a flat position has entry 0, and an open one has its entry
   * inside any range that holds the fill prices and a nonflat opening entry.
   */
  lemma {:induction false} EntryWithin(p: Position, fs: seq<Fill>, lo: real, hi: real)
    requires Within(p, lo, hi) && forall f | f in fs :: lo <= f.price <= hi
    ensures Within(Run(p, fs), lo, hi)
    ensures fs != [] && Run(p, fs).quantity == 0.0 ==> Run(p, fs).entry == 0.0
  {
    hide Step;
    if fs != [] {
      var n := |fs| - 1;
      EntryWithin(p, fs[..n], lo, hi);
      StepWithin(Run(p, fs[..n]), fs[n], lo, hi);
    }
  }

  /** An open position always has a positive entry price. */
  lemma {:induction false} EntryPositive(p: Position, fs: seq<Fill>)
    requires p.quantity != 0.0 ==> p.entry > 0.0
    ensures Run(p, fs).quantity != 0.0 ==> Run(p, fs).entry > 0.0
    ensures fs != [] && Run(p, fs).quantity == 0.0 ==> Run(p, fs).entry == 0.0
  {
    hide Step;
    if fs != [] {
      var n := |fs| - 1;
      var m, x := Run(p, fs[..n]), fs[n].price;
      EntryPositive(p, fs[..n]);
      var e := if m.quantity == 0.0 then x else m.entry;
      StepWithin(m, fs[n], Min(e, x), if e <= x then x else e);
    }
  }

  // ---------------------------------------------------------------- symmetry and shift

  function MirrorFill(f: Fill): Fill {
    f.(side := if f.side.Buy? then Sell else Buy)
  }

  function MirrorFills(fs: seq<Fill>): seq<Fill> {
    if fs == [] then [] else MirrorFills(fs[..|fs| - 1]) + [MirrorFill(fs[|fs| - 1])]
  }

  function MirrorPosition(p: Position): Position {
    Position(-p.quantity, p.entry, -p.realized)
  }

  /** Products are stated with a named factor so that the step's two branches line up. */
  lemma NegateProduct(c: real, x: real, d: real)
    ensures c * x * -d == -(c * x * d)
  {
  }

  lemma StepMirror(p: Position, f: Fill)
    ensures Step(MirrorPosition(p), MirrorFill(f)) == MirrorPosition(Step(p, f))
  {
    var n, m := Step(p, f), Step(MirrorPosition(p), MirrorFill(f));
    NegateProduct(Min(Abs(p.quantity), f.size), f.price - p.entry, Direction(p.quantity));
    assert m.quantity == -n.quantity;
    assert m.entry == n.entry;
    assert m.realized == -n.realized;
  }

  /** Swapping every side and negating the opening negates the outcome and keeps the entry. */
  lemma {:induction false} RunMirror(p: Position, fs: seq<Fill>)
    ensures Run(MirrorPosition(p), MirrorFills(fs)) == MirrorPosition(Run(p, fs))
  {
    hide Step;
    if fs != [] {
      var n := |fs| - 1;
      RunMirror(p, fs[..n]);
      StepMirror(Run(p, fs[..n]), fs[n]);
    }
  }

  function Shift(p: Position, amount: real): Position {
    p.(realized := p.realized + amount)
  }

  lemma StepShift(p: Position, f: Fill, amount: real)
    ensures Step(Shift(p, amount), f) == Shift(Step(p, f), amount)
  {
    var n, m := Step(p, f), Step(Shift(p, amount), f);
    var gain := Min(Abs(p.quantity), f.size) * (f.price - p.entry) * Direction(p.quantity);
    assert m.quantity == n.quantity && m.entry == n.entry;
    assert n.realized == p.realized + (if Adds(p.quantity, f.side) then 0.0 else gain);
    assert m.realized == n.realized + amount;
  }

  /** Realized PnL already booked rides along unchanged. */
  lemma {:induction false} RunShift(p: Position, fs: seq<Fill>, amount: real)
    ensures Run(Shift(p, amount), fs) == Shift(Run(p, fs), amount)
  {
    hide Step;
    if fs != [] {
      RunShift(p, fs[..|fs| - 1], amount);
      StepShift(Run(p, fs[..|fs| - 1]), fs[|fs| - 1], amount);
    }
  }
}
