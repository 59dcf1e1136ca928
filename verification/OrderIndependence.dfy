/**
 * The ambiguity test, and why passing it makes the accounting loop independent of the
 * unknown execution order inside a timestamp.
 */
module OrderIndependence {
  import opened Sequences
  import opened Fills
  import opened Positions

  ghost predicate TwoSided(g: seq<Fill>) {
    exists f, h | f in g && h in g :: f.side != h.side
  }

  ghost predicate ManyPrices(g: seq<Fill>) {
    exists f, h | f in g && h in g :: f.price != h.price
  }

  /** The group's net trade takes the inventory strictly through zero. */
  predicate Crosses(inventory: real, net: real) {
    inventory * net < 0.0 && Abs(net) > Abs(inventory)
  }

  ghost predicate GroupAmbiguous(inventory: real, g: seq<Fill>) {
    TwoSided(g) || (Crosses(inventory, Net(g)) && ManyPrices(g))
  }

  /** The group stamped `t` is ambiguous at the inventory held just before it. */
  ghost predicate FlaggedAt(quantity: real, fs: seq<Fill>, t: int) {
    GroupAmbiguous(quantity + Net(Before(fs, t)), At(fs, t))
  }

  ghost predicate Ambiguous(quantity: real, fs: seq<Fill>) {
    exists t: int :: FlaggedAt(quantity, fs, t)
  }

  // ---------------------------------------------------------------- one group

  lemma CrossesOneSided(quantity: real, g: seq<Fill>, side: Side)
    requires AllSide(g, side) && g != []
    ensures Crosses(quantity, Net(g)) <==> !Adds(quantity, side) && Sum(g, SizeOf) > Abs(quantity)
  {
    OneSidedNet(g, side);
    SignOfProduct(quantity, Net(g));
  }

  lemma SignOfProduct(x: real, y: real)
    requires y != 0.0
    ensures x * y < 0.0 <==> x != 0.0 && (x > 0.0) != (y > 0.0)
  {
  }

  /** The flag at one timestamp, fill by fill; crossing means that the inventory changes sign. */
  lemma FlaggedMeans(quantity: real, fs: seq<Fill>, t: int)
    ensures var held := quantity + Net(Before(fs, t));
            var left := held + Net(At(fs, t));
            FlaggedAt(quantity, fs, t) <==>
            || (exists f, h | f in fs && h in fs && f.time == h.time == t :: f.side != h.side)
            || (&& (held < 0.0 < left || left < 0.0 < held)
                && exists f, h | f in fs && h in fs && f.time == h.time == t :: f.price != h.price)
  {
    hide Filter, Sum;
    FilterMember(fs, IsAt(t));
    var held, net := quantity + Net(Before(fs, t)), Net(At(fs, t));
    CrossesMeans(held, net);
    hide Crosses;
    var g := At(fs, t);
    assert forall f :: f in g <==> f in fs && f.time == t;
  }

  lemma CrossesMeans(inventory: real, net: real)
    ensures Crosses(inventory, net) <==> inventory < 0.0 < inventory + net || inventory + net < 0.0 < inventory
  {
    if net != 0.0 {
      SignOfProduct(inventory, net);
    }
  }

  /** Every execution order of an unflagged group leads to the same position. */
  lemma GroupOrderFree(p: Position, g: seq<Fill>, h: seq<Fill>)
    requires multiset(g) == multiset(h)
    requires !GroupAmbiguous(p.quantity, g)
    ensures Run(p, g) == Run(p, h)
  {
    hide Run, Sum, Direction, ClosingGain;
    if g == [] {
      assert |multiset(h)| == 0;
    } else {
      SameElements(g, h);
      SumPermutation(g, h, SizeOf);
      SumPermutation(g, h, NotionalOf);
      SumPermutation(g, h, ClosingGain(p.entry));
      SumPermutation(g, h, Signed);
      RunQuantity(p, g);
      RunQuantity(p, h);
      var side, price := g[0].side, g[0].price;
      assert g[0] in g;
      CrossesOneSided(p.quantity, g, side);
      if Adds(p.quantity, side) {
        AddingGroup(p, g, side);
        AddingGroup(p, h, side);
        OneSidedNet(g, side);
        SameEntry(Run(p, g), Run(p, h));
      } else if Sum(g, SizeOf) <= Abs(p.quantity) {
        ReducingGroup(p, g, side);
        ReducingGroup(p, h, side);
      } else {
        CrossingGroup(p, g, side, price);
        CrossingGroup(p, h, side, price);
      }
    }
  }

  lemma SameEntry(a: Position, b: Position)
    requires a.quantity == b.quantity != 0.0
    requires a.entry * Abs(a.quantity) == b.entry * Abs(b.quantity)
    ensures a.entry == b.entry
  {
    Quotient(a.entry, b.entry * Abs(b.quantity), Abs(b.quantity));
    Quotient(b.entry, b.entry * Abs(b.quantity), Abs(b.quantity));
  }

  // ---------------------------------------------------------------- cutting a run at a time

  function IsBetween(t: int, u: int): Fill -> bool { (f: Fill) => t < f.time < u }

  /** What the two sides of a cut at `t` see at any timestamp `u`. */
  lemma CutGroups(fs: seq<Fill>, t: int, u: int)
    ensures u <= t ==> At(UpTo(fs, t), u) == At(fs, u) && Before(UpTo(fs, t), u) == Before(fs, u)
    ensures u <= t ==> At(After(fs, t), u) == []
    ensures u > t ==> At(UpTo(fs, t), u) == [] && At(After(fs, t), u) == At(fs, u)
    ensures u > t ==> Net(Before(fs, u)) == Net(UpTo(fs, t)) + Net(Before(After(fs, t), u))
  {
    FilterMember(fs, IsUpTo(t));
    FilterMember(fs, IsAfter(t));
    if u <= t {
      FilterTwice(fs, IsUpTo(t), IsAt(u), IsAt(u));
      FilterTwice(fs, IsUpTo(t), IsBefore(u), IsBefore(u));
      FilterNone(After(fs, t), IsAt(u));
    } else {
      FilterNone(UpTo(fs, t), IsAt(u));
      FilterTwice(fs, IsAfter(t), IsAt(u), IsAt(u));
      FilterTwice(fs, IsAfter(t), IsBefore(u), IsBetween(t, u));
      FilterSum(fs, IsUpTo(t), IsBetween(t, u), IsBefore(u), Signed);
    }
  }

  lemma EmptyGroup(inventory: real)
    ensures !GroupAmbiguous(inventory, [])
  {
  }

  lemma FlaggedCut(quantity: real, fs: seq<Fill>, t: int, u: int)
    ensures FlaggedAt(quantity, fs, u) <==>
            FlaggedAt(quantity, UpTo(fs, t), u) || FlaggedAt(quantity + Net(UpTo(fs, t)), After(fs, t), u)
  {
    hide Filter, Sum, GroupAmbiguous;
    CutGroups(fs, t, u);
    EmptyGroup(quantity + Net(Before(UpTo(fs, t), u)));
    EmptyGroup(quantity + Net(UpTo(fs, t)) + Net(Before(After(fs, t), u)));
  }

  /** A run is flagged exactly when the part up to `t` or the part after it is. */
  lemma AmbiguousCut(quantity: real, fs: seq<Fill>, t: int)
    ensures Ambiguous(quantity, fs) <==>
            Ambiguous(quantity, UpTo(fs, t)) || Ambiguous(quantity + Net(UpTo(fs, t)), After(fs, t))
  {
    hide FlaggedAt;
    var lo, hi, mid := UpTo(fs, t), After(fs, t), quantity + Net(UpTo(fs, t));
    if Ambiguous(quantity, fs) {
      var u :| FlaggedAt(quantity, fs, u);
      FlaggedCut(quantity, fs, t, u);
    }
    if Ambiguous(quantity, lo) {
      var u :| FlaggedAt(quantity, lo, u);
      FlaggedCut(quantity, fs, t, u);
    }
    if Ambiguous(mid, hi) {
      var u :| FlaggedAt(mid, hi, u);
      FlaggedCut(quantity, fs, t, u);
    }
  }

  lemma FlaggedPermutation(quantity: real, a: seq<Fill>, b: seq<Fill>, t: int)
    requires multiset(a) == multiset(b)
    ensures FlaggedAt(quantity, a, t) <==> FlaggedAt(quantity, b, t)
  {
    hide Filter, Sum;
    FilterPermutation(a, b, IsBefore(t));
    SumPermutation(Before(a, t), Before(b, t), Signed);
    FilterPermutation(a, b, IsAt(t));
    SumPermutation(At(a, t), At(b, t), Signed);
    SameElements(At(a, t), At(b, t));
  }

  /** The flag does not depend on the order in which the fills are listed. */
  lemma AmbiguousPermutation(quantity: real, a: seq<Fill>, b: seq<Fill>)
    requires multiset(a) == multiset(b)
    ensures Ambiguous(quantity, a) <==> Ambiguous(quantity, b)
  {
    hide FlaggedAt;
    forall t: int {
      FlaggedPermutation(quantity, a, b, t);
    }
  }

  // ---------------------------------------------------------------- the whole run

  lemma EmptySum()
    ensures Net([]) == 0.0
  {
  }

  lemma FirstGroupClear(quantity: real, a: seq<Fill>, t: int)
    requires !Ambiguous(quantity, a) && forall f | f in a :: t <= f.time
    ensures UpTo(a, t) == At(a, t)
    ensures !GroupAmbiguous(quantity, At(a, t))
    ensures !Ambiguous(quantity + Net(At(a, t)), After(a, t))
  {
    EmptySum();
    hide Filter, Sum, GroupAmbiguous;
    FilterEqual(a, IsUpTo(t), IsAt(t));
    AmbiguousCut(quantity, a, t);
    FilterNone(a, IsBefore(t));
    assert !FlaggedAt(quantity, a, t);
  }

  /**
   * When no group is flagged, every linear order of the fills that is consistent with
   * their timestamps gives the same quantity, entry price and realized PnL.
   */
  lemma {:induction false} OrderFree(p: Position, a: seq<Fill>, b: seq<Fill>)
    requires TimeSorted(a) && TimeOrderOf(b, a)
    requires !Ambiguous(p.quantity, a)
    ensures Run(p, a) == Run(p, b)
    decreases |a|
  {
    hide Run, Ambiguous, Filter, Sum;
    if a == [] {
      assert |multiset(b)| == 0;
    } else {
      var t := a[0].time;
      SameElements(a, b);
      FirstGroup(a, t);
      FirstGroup(b, t);
      FirstGroupClear(p.quantity, a, t);
      FilterPermutation(a, b, IsAt(t));
      FilterPermutation(a, b, IsAfter(t));
      FilterSorted(a, IsAfter(t));
      FilterSorted(b, IsAfter(t));
      GroupOrderFree(p, At(a, t), At(b, t));
      var next := Run(p, At(a, t));
      RunQuantity(p, At(a, t));
      assert |After(a, t)| < |a| by {
        FilterMember(a, IsAt(t));
        assert a[0] in At(a, t);
      }
      OrderFree(next, After(a, t), After(b, t));
      RunConcat(p, At(a, t), After(a, t));
      RunConcat(p, At(b, t), After(b, t));
    }
  }
}
