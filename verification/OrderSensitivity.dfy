/**
 * Exactly when the unknown order inside a timestamp matters, for one group and for whole
 * runs, and how the ambiguity flag compares with that.
 */
module OrderSensitivity {
  import opened Sequences
  import opened Fills
  import opened Positions
  import opened OrderIndependence
  import opened PositionLaws
  import opened AmbiguityTightness

  function SideOf(quantity: real): Side {
    if quantity > 0.0 then Buy else Sell
  }

  /** The position is open, on `side`. */
  predicate Holds(p: Position, side: Side) {
    p.quantity != 0.0 && SideOf(p.quantity) == side
  }

  /**
   * All lots on `side` share one price: the group's fills of that side, and the opening
   * entry if the opening is on that side.
   */
  ghost predicate OneLotPrice(p: Position, g: seq<Fill>, side: Side) {
    && (forall f, h | f in g && h in g && f.side == h.side == side :: f.price == h.price)
    && (Holds(p, side) ==> forall f | f in g && f.side == side :: f.price == p.entry)
  }

  /** The exact condition, checkable before the group is booked. */
  ghost predicate Contested(p: Position, g: seq<Fill>) {
    var net := p.quantity + Net(g);
    if TwoSided(g) then net != 0.0 && !OneLotPrice(p, g, SideOf(net))
    else Crosses(p.quantity, Net(g)) && ManyPrices(g)
  }

  /** Two orders of the group book different positions. */
  ghost predicate OrdersDiffer(p: Position, g: seq<Fill>) {
    exists h, k :: multiset(h) == multiset(g) && multiset(k) == multiset(g) && Run(p, h) != Run(p, k)
  }

  // ---------------------------------------------------------------- what any two orders share

  /** Two orders of the same fills end with the same quantity and the same basis. */
  lemma SameBasis(p: Position, h: seq<Fill>, k: seq<Fill>)
    requires multiset(h) == multiset(k)
    ensures Run(p, h).quantity == Run(p, k).quantity == p.quantity + Net(h)
    ensures var x, y := Run(p, h), Run(p, k);
            x.realized - x.quantity * x.entry == y.realized - y.quantity * y.entry
  {
    hide Run, Sum;
    RunQuantity(p, h);
    RunQuantity(p, k);
    SumPermutation(h, k, Signed);
    RunConserves(p, h, 0.0);
    RunConserves(p, k, 0.0);
    SumPermutation(h, k, GainAt(0.0));
    WorthAtZero(Run(p, h));
    WorthAtZero(Run(p, k));
  }

  lemma WorthAtZero(p: Position)
    ensures Worth(p, 0.0) == p.realized - p.quantity * p.entry
  {
  }

  /** So they agree exactly when they agree on the entry price, and otherwise on neither. */
  lemma EntryDecides(x: Position, y: Position)
    requires x.quantity == y.quantity
    requires x.realized - x.quantity * x.entry == y.realized - y.quantity * y.entry
    ensures x.entry == y.entry ==> x == y
    ensures x.quantity != 0.0 && x.entry != y.entry ==> x.realized != y.realized
  {
    if x.entry != y.entry && x.realized == y.realized {
      var q := x.quantity;
      assert q * x.entry == q * y.entry;
      assert q * (x.entry - y.entry) == 0.0;
    }
  }

  lemma FlatHasNoEntry(p: Position, h: seq<Fill>)
    requires h != [] && Run(p, h).quantity == 0.0
    ensures Run(p, h).entry == 0.0
  {
    hide Step;
    var n := |h| - 1;
    LastStep(Run(p, h[..n]), h[n]);
  }

  lemma LastStep(p: Position, f: Fill)
    ensures Step(p, f).quantity == 0.0 ==> Step(p, f).entry == 0.0
  {
    hide Step;
    if Adds(p.quantity, f.side) {
      StepAdding(p, f);
    } else if f.size <= Abs(p.quantity) {
      StepReducing(p, f);
    } else {
      StepCrossing(p, f);
    }
  }

  // ---------------------------------------------------------------- one lot price is enough

  lemma StepAtLotPrice(p: Position, f: Fill, side: Side, price: real)
    requires Holds(p, side) ==> p.entry == price
    requires f.side == side ==> f.price == price
    ensures Holds(Step(p, f), side) ==> Step(p, f).entry == price
  {
    hide Step;
    var n := Step(p, f);
    if Adds(p.quantity, f.side) {
      StepAdding(p, f);
      if f.side == side {
        assert n.entry * (Abs(p.quantity) + f.size) == price * (Abs(p.quantity) + f.size) by {
          assert Abs(p.quantity) * p.entry == Abs(p.quantity) * price;
        }
        CancelEqual(n.entry, price, Abs(p.quantity) + f.size);
      }
    } else if f.size <= Abs(p.quantity) {
      StepReducing(p, f);
    } else {
      StepCrossing(p, f);
    }
  }

  lemma CancelEqual(x: real, y: real, k: real)
    requires k > 0.0 && x * k == y * k
    ensures x == y
  {
    assert (x - y) * k == 0.0;
  }

  lemma {:induction false} RunAtLotPrice(p: Position, h: seq<Fill>, side: Side, price: real)
    requires Holds(p, side) ==> p.entry == price
    requires forall f | f in h && f.side == side :: f.price == price
    ensures Holds(Run(p, h), side) ==> Run(p, h).entry == price
  {
    hide Step, Holds;
    if h != [] {
      var n := |h| - 1;
      assert h[n] in h;
      RunAtLotPrice(p, h[..n], side, price);
      StepAtLotPrice(Run(p, h[..n]), h[n], side, price);
    }
  }

  /** An uncontested two-sided group books the same position in every order. */
  lemma UncontestedAgrees(p: Position, g: seq<Fill>, h: seq<Fill>)
    requires TwoSided(g) && !Contested(p, g) && multiset(h) == multiset(g)
    ensures Run(p, h) == Run(p, g)
  {
    hide Run, Sum;
    SameBasis(p, g, h);
    EntryDecides(Run(p, g), Run(p, h));
    SameElements(g, h);
    var net := p.quantity + Net(g);
    var some :| some in g;
    if net == 0.0 {
      assert some in h;
      FlatHasNoEntry(p, g);
      FlatHasNoEntry(p, h);
    } else {
      var side := SideOf(net);
      var lot :| lot in g && lot.side == side;
      RunAtLotPrice(p, g, side, lot.price);
      RunAtLotPrice(p, h, side, lot.price);
    }
  }

  // ---------------------------------------------------------------- several lot prices are too many

  function IsSide(side: Side): Fill -> bool { (f: Fill) => f.side == side }

  function Opposite(side: Side): Side {
    if side.Buy? then Sell else Buy
  }

  /** The two sides of a group, which it is a permutation of, with their totals. */
  lemma Sides(p: Position, g: seq<Fill>, side: Side) returns (own: seq<Fill>, opp: seq<Fill>)
    ensures multiset(own + opp) == multiset(g)
    ensures AllSide(own, side) && AllSide(opp, Opposite(side))
    ensures forall f :: f in own <==> f in g && f.side == side
    ensures TwoSided(g) ==> own != [] && opp != []
    ensures p.quantity + Net(g) == p.quantity + Net(own) + Net(opp)
  {
    hide Filter, Sum;
    own, opp := Filter(g, IsSide(side)), Filter(g, IsSide(Opposite(side)));
    FilterMember(g, IsSide(side));
    FilterMember(g, IsSide(Opposite(side)));
    FilterPartition(g, IsSide(side), IsSide(Opposite(side)));
    SumPermutation(own + opp, g, Signed);
    SumConcat(own, opp, Signed);
    if f, h :| f in g && h in g && f.side != h.side {
      assert f.side == side || h.side == side;
      assert f in own || h in own;
      assert f in opp || h in opp;
    }
  }

  /** Opening against the final side: book the opposite fills first, and the rest is a flagged one-sided group. */
  lemma AgainstTheSide(p: Position, own: seq<Fill>, opp: seq<Fill>, side: Side)
    returns (h: seq<Fill>, k: seq<Fill>)
    requires AllSide(own, side) && AllSide(opp, Opposite(side)) && own != [] && opp != []
    requires Holds(p, Opposite(side)) && Holds(Position(p.quantity + Net(own) + Net(opp), 0.0, 0.0), side)
    requires ManyPrices(own)
    ensures multiset(h) == multiset(own + opp) && multiset(k) == multiset(own + opp)
    ensures Run(p, h).realized != Run(p, k).realized
  {
    hide Run, Sum;
    var other := Opposite(side);
    AddingGroup(p, opp, other);
    RunQuantity(p, opp);
    OneSidedNet(own, side);
    OneSidedNet(opp, other);
    var m := Run(p, opp);
    CrossesOneSided(m.quantity, own, side);
    var h', k' := FlagIsNecessary(m, own);
    h, k := opp + h', opp + k';
    RunConcat(p, opp, h');
    RunConcat(p, opp, k');
  }

  lemma AverageIsEntry(p: Position, own: seq<Fill>, side: Side)
    requires own != [] && AllSide(own, side) && Adds(p.quantity, side) && p.quantity != 0.0
    requires AllPrice(own, Run(p, own).entry)
    ensures Run(p, own).entry == p.entry
  {
    hide Run, Sum;
    var average, held, size := Run(p, own).entry, Abs(p.quantity), Sum(own, SizeOf);
    AddingGroup(p, own, side);
    OnePriceNotional(own, average);
    MixedWithItself(average, p.entry, held, size, Abs(Run(p, own).quantity));
  }

  /** An average of two lots that equals the price of one is the price of the other. */
  lemma MixedWithItself(average: real, entry: real, held: real, size: real, total: real)
    requires held > 0.0 && total == held + size
    requires average * total == held * entry + average * size
    ensures average == entry
  {
    assert average * total == average * held + average * size;
    CancelEqual(average, entry, held);
  }

  /** Some fill is priced off the average of all the lots, if the lots have several prices. */
  lemma FindOff(p: Position, own: seq<Fill>, side: Side) returns (j: Fill)
    requires own != [] && AllSide(own, side) && Adds(p.quantity, side)
    requires ManyPrices(own) || (p.quantity != 0.0 && exists f | f in own :: f.price != p.entry)
    ensures j in own && j.price != Run(p, own).entry
  {
    hide Run, Sum;
    var average := Run(p, own).entry;
    if forall f | f in own :: f.price == average {
      if p.quantity != 0.0 {
        AverageIsEntry(p, own, side);
      }
      assert false;
    }
    j :| j in own && j.price != average;
  }

  /** Booking `j` before the opposite fills or after them ends at different entries. */
  lemma LateFill(r: Position, j: Fill, opp: seq<Fill>)
    requires Adds(r.quantity, j.side) && AllSide(opp, Opposite(j.side)) && opp != []
    requires Sum(opp, SizeOf) < Abs(r.quantity) + j.size
    requires Step(r, j).entry != j.price
    ensures Run(Step(r, j), opp).entry != Step(Run(r, opp), j).entry
  {
    hide Step, Run, Sum;
    EarlyEntry(r, j, opp);
    if r.quantity == 0.0 {
      StepAdding(r, j);
      CancelEqual(Step(r, j).entry, j.price, j.size);
      assert false;
    } else if Sum(opp, SizeOf) < Abs(r.quantity) {
      LateEntryMixed(r, j, opp);
    } else {
      LateEntryOwn(r, j, opp);
    }
  }

  lemma EarlyEntry(r: Position, j: Fill, opp: seq<Fill>)
    requires Adds(r.quantity, j.side) && AllSide(opp, Opposite(j.side))
    requires Sum(opp, SizeOf) < Abs(r.quantity) + j.size
    ensures Run(Step(r, j), opp).entry == Step(r, j).entry
  {
    hide Step, Run, Sum;
    StepAdding(r, j);
    ReducingGroup(Step(r, j), opp, Opposite(j.side));
  }

  lemma LateEntryMixed(r: Position, j: Fill, opp: seq<Fill>)
    requires Adds(r.quantity, j.side) && AllSide(opp, Opposite(j.side)) && opp != []
    requires r.quantity != 0.0 && Sum(opp, SizeOf) < Abs(r.quantity) && Step(r, j).entry != j.price
    ensures Step(Run(r, opp), j).entry != Step(r, j).entry
  {
    hide Step, Run, Sum;
    var m := Run(r, opp);
    var early, late := Step(r, j), Step(m, j);
    OneSidedNet(opp, Opposite(j.side));
    ReducingGroup(r, opp, Opposite(j.side));
    StepAdding(r, j);
    StepAdding(m, j);
    if late.entry == early.entry {
      LaterWeighsMore(
        Abs(r.quantity), r.entry, j.size, j.price, Abs(m.quantity),
        Abs(early.quantity), Abs(late.quantity), early.entry);
    }
  }

  lemma LateEntryOwn(r: Position, j: Fill, opp: seq<Fill>)
    requires Adds(r.quantity, j.side) && AllSide(opp, Opposite(j.side))
    requires r.quantity != 0.0 && Abs(r.quantity) <= Sum(opp, SizeOf) < Abs(r.quantity) + j.size
    ensures Step(Run(r, opp), j).entry == j.price
  {
    hide Step, Run, Sum;
    var m := Run(r, opp);
    OneSidedNet(opp, Opposite(j.side));
    RunQuantity(r, opp);
    if m.quantity == 0.0 {
      StepAdding(m, j);
      CancelEqual(Step(m, j).entry, j.price, j.size);
    } else {
      StepCrossing(m, j);
    }
  }

  /** The price mixed in later weighs more, so one average for both means no mix at all. */
  lemma LaterWeighsMore(q: real, e: real, s: real, x: real, r: real, n: real, m: real, average: real)
    requires 0.0 < r < q && s > 0.0 && n == q + s && m == r + s
    requires average * n == q * e + s * x
    requires average * m == r * e + s * x
    ensures average == x
  {
    var w := q - r;
    assert average * n == average * m + average * w;
    assert q * e == r * e + e * w;
    CancelEqual(average, e, w);
    assert average * n == average * q + average * s;
    CancelEqual(average, x, s);
  }

  /** Opening flat or with the final side: hold one off-average fill back until the opposite fills are done. */
  lemma WithTheSide(p: Position, own: seq<Fill>, opp: seq<Fill>, side: Side)
    returns (h: seq<Fill>, k: seq<Fill>)
    requires AllSide(own, side) && AllSide(opp, Opposite(side)) && own != [] && opp != []
    requires Adds(p.quantity, side) && Holds(Position(p.quantity + Net(own) + Net(opp), 0.0, 0.0), side)
    requires ManyPrices(own) || (p.quantity != 0.0 && exists f | f in own :: f.price != p.entry)
    ensures multiset(h) == multiset(own + opp) && multiset(k) == multiset(own + opp)
    ensures Run(p, h).entry != Run(p, k).entry
  {
    hide Run, Sum;
    var j := FindOff(p, own, side);
    var u, v := Extract(own, j);
    var rest := u + v;
    HeldBack(p, own, u, j, v, side);
    var r := Run(p, rest);
    OneSidedNet(own, side);
    OneSidedNet(opp, Opposite(side));
    LateFill(r, j, opp);
    h, k := rest + [j] + opp, rest + opp + [j];
    RunConcat(p, rest + [j], opp);
    RunConcat(p, rest, [j]);
    RunConcat(p, rest + opp, [j]);
    RunConcat(p, rest, opp);
    RunOne(r, j);
    RunOne(Run(r, opp), j);
    MoveBack(rest, [j], opp);
    MoveBack(u, [j], v);
  }

  lemma RunOne(p: Position, f: Fill)
    ensures Run(p, [f]) == Step(p, f)
  {
    hide Step;
    assert [f][..0] == [];
  }

  lemma HeldBack(p: Position, own: seq<Fill>, u: seq<Fill>, j: Fill, v: seq<Fill>, side: Side)
    requires own == u + [j] + v && AllSide(own, side) && Adds(p.quantity, side)
    ensures var r := Run(p, u + v);
            && Adds(r.quantity, side) && j.side == side
            && Abs(r.quantity) + j.size == Abs(p.quantity) + Sum(own, SizeOf)
            && Step(r, j) == Run(p, own)
  {
    hide Run, Sum, Step;
    var rest := u + v;
    assert j in own;
    assert AllSide(rest, side) by {
      forall f | f in rest ensures f in own { }
    }
    if rest != [] {
      AddingGroup(p, rest, side);
    } else {
      RunEmpty(p);
    }
    SumNothing(SizeOf);
    SumExtract(u, j, v, SizeOf);
    CrossesOneSided(p.quantity, own, side);
    MoveBack(u, [j], v);
    GroupOrderFree(p, own, rest + [j]);
    RunConcat(p, rest, [j]);
    RunOne(Run(p, rest), j);
  }

  lemma RunEmpty(p: Position)
    ensures Run(p, []) == p
  {
  }

  /** A contested group has two orders with different realized PnL, and the lemma builds them. */
  lemma ContestedDiffers(p: Position, g: seq<Fill>) returns (h: seq<Fill>, k: seq<Fill>)
    requires Contested(p, g)
    ensures multiset(h) == multiset(g) && multiset(k) == multiset(g)
    ensures Run(p, h).realized != Run(p, k).realized
  {
    hide Run, Sum;
    if !TwoSided(g) {
      h, k := FlagIsNecessary(p, g);
    } else {
      var net := p.quantity + Net(g);
      var side := SideOf(net);
      var own, opp := Sides(p, g, side);
      SeveralPrices(p, g, own, side);
      if Holds(p, Opposite(side)) {
        h, k := AgainstTheSide(p, own, opp, side);
      } else {
        h, k := WithTheSide(p, own, opp, side);
        SumPermutation(h, g, Signed);
        EntriesDiffer(p, h, k);
      }
    }
  }

  lemma EntriesDiffer(p: Position, h: seq<Fill>, k: seq<Fill>)
    requires multiset(h) == multiset(k) && p.quantity + Net(h) != 0.0
    requires Run(p, h).entry != Run(p, k).entry
    ensures Run(p, h).realized != Run(p, k).realized
  {
    hide Run, Sum;
    SameBasis(p, h, k);
    EntryDecides(Run(p, h), Run(p, k));
  }

  lemma SeveralPrices(p: Position, g: seq<Fill>, own: seq<Fill>, side: Side)
    requires !OneLotPrice(p, g, side)
    requires forall f :: f in own <==> f in g && f.side == side
    ensures ManyPrices(own) || (Holds(p, side) && exists f | f in own :: f.price != p.entry)
  {
    if f, h :| f in g && h in g && f.side == h.side == side && f.price != h.price {
      assert f in own && h in own;
    } else {
      var f :| f in g && f.side == side && f.price != p.entry;
      assert f in own;
    }
  }

  /**
   * The order inside a group matters exactly when it is contested. A one-sided group is
   * contested if it crosses zero at several prices; a two-sided one if it does not end flat
   * and the lots on the side it ends on, the opening's included, have several prices.
   */
  lemma OrderMattersExactlyWhenContested(p: Position, g: seq<Fill>)
    ensures OrdersDiffer(p, g) <==> Contested(p, g)
  {
    hide Run, Sum;
    if Contested(p, g) {
      var h, k := ContestedDiffers(p, g);
    }
    if OrdersDiffer(p, g) && !Contested(p, g) {
      var h, k :| multiset(h) == multiset(g) && multiset(k) == multiset(g) && Run(p, h) != Run(p, k);
      UncontestedOrder(p, g, h);
      UncontestedOrder(p, g, k);
      assert false;
    }
  }

  lemma UncontestedOrder(p: Position, g: seq<Fill>, h: seq<Fill>)
    requires !Contested(p, g) && multiset(h) == multiset(g)
    ensures Run(p, h) == Run(p, g)
  {
    hide Run, Sum;
    if TwoSided(g) {
      UncontestedAgrees(p, g, h);
    } else {
      GroupOrderFree(p, g, h);
    }
  }

  /** On a two-sided group the flag can be idle: this one is flagged and not contested. */
  lemma TwoSidedFlagCanBeIdle(f: Fill, h: Fill)
    requires f.side == Buy && h.side == Sell && f.size == h.size == 1.0 && f.price == h.price == 100.0
    ensures var p := Position(10.0, 100.0, 0.0);
            GroupAmbiguous(p.quantity, [f, h]) && !Contested(p, [f, h]) && !OrdersDiffer(p, [f, h])
  {
    var p := Position(10.0, 100.0, 0.0);
    assert f in [f, h] && h in [f, h];
    assert [f, h] == [f] + [h];
    SumConcat([f], [h], Signed);
    SumOne(f, Signed);
    SumOne(h, Signed);
    OrderMattersExactlyWhenContested(p, [f, h]);
  }

  // ---------------------------------------------------------------- whole runs

  /** The group stamped `t` is contested at the position the earlier fills lead to. */
  ghost predicate ContestedAt(p: Position, fs: seq<Fill>, t: int) {
    Contested(Run(p, Before(fs, t)), At(fs, t))
  }

  /** Up to some timestamp, the fills have two admissible orders with different realized PnL. */
  ghost predicate OrderMatters(p: Position, fs: seq<Fill>) {
    exists t: int, a, b :: DifferAt(p, fs, t, a, b)
  }

  ghost predicate DifferAt(p: Position, fs: seq<Fill>, t: int, a: seq<Fill>, b: seq<Fill>) {
    TimeOrderOf(a, UpTo(fs, t)) && TimeOrderOf(b, UpTo(fs, t)) && Run(p, a).realized != Run(p, b).realized
  }

  lemma ExtendOrder(fs: seq<Fill>, t: int, g: seq<Fill>)
    requires TimeSorted(fs) && multiset(g) == multiset(At(fs, t))
    ensures TimeOrderOf(Before(fs, t) + g, UpTo(fs, t))
  {
    hide Filter;
    FilterSorted(fs, IsUpTo(t));
    SortedSplit(UpTo(fs, t), t - 1);
    FilterTwice(fs, IsUpTo(t), IsUpTo(t - 1), IsBefore(t));
    FilterTwice(fs, IsUpTo(t), IsAfter(t - 1), IsAt(t));
    FilterSorted(fs, IsBefore(t));
    SameElements(g, At(fs, t));
    FilterMember(fs, IsAt(t));
    FilterMember(fs, IsBefore(t));
    var order := Before(fs, t) + g;
    forall i, j | 0 <= i < j < |order| ensures order[i].time <= order[j].time {
      assert i < |Before(fs, t)| ==> order[i] in Before(fs, t);
      assert j >= |Before(fs, t)| ==> order[j] in g;
      assert i >= |Before(fs, t)| ==> order[i] in g;
    }
  }

  /** Past the first group, the rest of a run sees each later group as the whole run does. */
  lemma LaterGroups(p: Position, a: seq<Fill>, t: int, u: int)
    requires TimeSorted(a) && forall f | f in a :: t <= f.time
    ensures ContestedAt(Run(p, At(a, t)), After(a, t), u) ==> ContestedAt(p, a, u)
  {
    hide Run, Filter, Contested;
    FilterMember(a, IsAfter(t));
    if u <= t {
      FilterNone(After(a, t), IsAt(u));
      NothingContested(Run(Run(p, At(a, t)), Before(After(a, t), u)));
    } else {
      FilterTwice(a, IsAfter(t), IsAt(u), IsAt(u));
      FilterTwice(a, IsAfter(t), IsBefore(u), IsBetween(t, u));
      FilterSorted(a, IsBefore(u));
      SortedSplit(Before(a, u), t);
      FilterTwice(a, IsBefore(u), IsUpTo(t), IsUpTo(t));
      FilterTwice(a, IsBefore(u), IsAfter(t), IsBetween(t, u));
      FilterEqual(a, IsUpTo(t), IsAt(t));
      RunConcat(p, At(a, t), Before(After(a, t), u));
    }
  }

  lemma NothingContested(p: Position)
    ensures !Contested(p, [])
  {
  }

  /** Without a contested group, every admissible order of the run books the same position. */
  lemma {:induction false} UncontestedRun(p: Position, a: seq<Fill>, b: seq<Fill>)
    requires TimeSorted(a) && TimeOrderOf(b, a)
    requires forall t: int :: !ContestedAt(p, a, t)
    ensures Run(p, a) == Run(p, b)
    decreases |a|
  {
    hide Run, Filter, Contested, ContestedAt;
    if a == [] {
      assert |multiset(b)| == 0;
    } else {
      var t := a[0].time;
      SameElements(a, b);
      FirstGroup(a, t);
      FirstGroup(b, t);
      FilterPermutation(a, b, IsAt(t));
      FilterPermutation(a, b, IsAfter(t));
      FilterSorted(a, IsAfter(t));
      FilterSorted(b, IsAfter(t));
      FirstUncontested(p, a, t);
      UncontestedOrder(p, At(a, t), At(b, t));
      var next := Run(p, At(a, t));
      forall u: int ensures !ContestedAt(next, After(a, t), u) {
        LaterGroups(p, a, t, u);
      }
      assert |After(a, t)| < |a| by {
        FilterMember(a, IsAt(t));
        assert a[0] in At(a, t);
      }
      UncontestedRun(next, After(a, t), After(b, t));
      RunConcat(p, At(a, t), After(a, t));
      RunConcat(p, At(b, t), After(b, t));
    }
  }

  lemma FirstUncontested(p: Position, a: seq<Fill>, t: int)
    requires !ContestedAt(p, a, t) && forall f | f in a :: t <= f.time
    ensures !Contested(p, At(a, t))
  {
    hide Filter, Contested;
    FilterNone(a, IsBefore(t));
    RunEmpty(p);
  }

  /** Cutting a run off after `t` leaves every group it keeps as it was. */
  lemma EarlierGroups(p: Position, fs: seq<Fill>, t: int, u: int)
    ensures ContestedAt(p, UpTo(fs, t), u) ==> ContestedAt(p, fs, u)
  {
    hide Run, Filter, Contested;
    CutGroups(fs, t, u);
    NothingContested(Run(p, Before(UpTo(fs, t), u)));
  }

  /**
   * For every run in time order: at some timestamp the order of the fills so far can change
   * realized PnL if and only if some group is contested where the listed order reaches it.
   */
  lemma RunOrderMattersExactlyWhenContested(p: Position, fs: seq<Fill>)
    requires TimeSorted(fs)
    ensures OrderMatters(p, fs) <==> exists t: int :: ContestedAt(p, fs, t)
  {
    hide Run, Filter, Sum, Contested;
    if t: int :| ContestedAt(p, fs, t) {
      var e := Before(fs, t);
      var h, k := ContestedDiffers(Run(p, e), At(fs, t));
      ExtendOrder(fs, t, h);
      ExtendOrder(fs, t, k);
      RunConcat(p, e, h);
      RunConcat(p, e, k);
      assert DifferAt(p, fs, t, e + h, e + k);
    }
    if OrderMatters(p, fs) && !exists t: int :: ContestedAt(p, fs, t) {
      var t: int, a, b :| DifferAt(p, fs, t, a, b);
      FilterSorted(fs, IsUpTo(t));
      forall u: int ensures !ContestedAt(p, UpTo(fs, t), u) {
        EarlierGroups(p, fs, t, u);
      }
      UncontestedRun(p, UpTo(fs, t), a);
      UncontestedRun(p, UpTo(fs, t), b);
      assert false;
    }
  }

  // ---------------------------------------------------------------- the flag against the truth

  ghost predicate OneSidedGroups(fs: seq<Fill>) {
    forall t: int :: !TwoSided(At(fs, t))
  }

  /** On one-sided groups the flag and the exact condition coincide. */
  lemma FlagMeetsCondition(p: Position, fs: seq<Fill>, t: int)
    ensures ContestedAt(p, fs, t) ==> FlaggedAt(p.quantity, fs, t)
    ensures !TwoSided(At(fs, t)) ==> (ContestedAt(p, fs, t) <==> FlaggedAt(p.quantity, fs, t))
  {
    hide Run, Filter, Sum;
    RunQuantity(p, Before(fs, t));
  }

  /**
   * The flag is raised whenever the order matters, and for runs whose groups are one-sided
   * it is raised only then.
   */
  lemma FlagIsSoundAndOneSidedExact(p: Position, fs: seq<Fill>)
    requires TimeSorted(fs)
    ensures OrderMatters(p, fs) ==> Ambiguous(p.quantity, fs)
    ensures OneSidedGroups(fs) ==> (Ambiguous(p.quantity, fs) <==> OrderMatters(p, fs))
  {
    hide ContestedAt, FlaggedAt, OrderMatters;
    RunOrderMattersExactlyWhenContested(p, fs);
    if t: int :| ContestedAt(p, fs, t) {
      FlagMeetsCondition(p, fs, t);
    }
    if OneSidedGroups(fs) && Ambiguous(p.quantity, fs) {
      var t :| FlaggedAt(p.quantity, fs, t);
      assert !TwoSided(At(fs, t));
      FlagMeetsCondition(p, fs, t);
    }
  }
}
