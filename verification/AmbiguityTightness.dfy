/**
 * The ambiguity flag is not merely cautious: a one-sided group that crosses zero at more
 * than one price really has two execution orders with different realized PnL.
 */
module AmbiguityTightness {
  import opened Sequences
  import opened Fills
  import opened Positions
  import opened OrderIndependence

  /**
   * Rearranges the fills so that two of them, at different prices, stand next to each
   * other just where the running total passes `held`.
   */
  lemma {:induction false} Straddle(front: seq<Fill>, rest: seq<Fill>, a: Fill, b: Fill, held: real)
    returns (before: seq<Fill>, x: Fill, y: Fill, behind: seq<Fill>)
    requires a.price != b.price
    requires Sum(front, SizeOf) < held < Sum(front, SizeOf) + Sum(rest, SizeOf) + a.size + b.size
    ensures multiset(before + [x, y] + behind) == multiset(front + rest + [a, b])
    ensures x.price != y.price
    ensures Sum(before, SizeOf) < held < Sum(before, SizeOf) + x.size + y.size
    decreases |rest|
  {
    hide Sum;
    SumNothing(SizeOf);
    if held < Sum(front, SizeOf) + a.size + b.size {
      before, x, y, behind := front, a, b, rest;
      MoveBack(front, [a, b], rest);
    } else {
      var f, r := rest[0], rest[1..];
      assert rest == [f] + r;
      SumConcat([f], r, SizeOf);
      SumOne(f, SizeOf);
      if Sum(front, SizeOf) + f.size >= held {
        if f.price != a.price {
          before, x, y, behind := front, f, a, r + [b];
          RegroupSwapped(front, f, r, a, b);
        } else {
          before, x, y, behind := front, f, b, r + [a];
          Regroup(front, f, r, b, a);
        }
      } else {
        SumConcat(front, [f], SizeOf);
        before, x, y, behind := Straddle(front + [f], r, a, b, held);
        assert front + [f] + r == front + rest;
      }
    }
  }

  /** What the two fills around the crossing point realize, in this order. */
  lemma PairRealizes(m: Position, x: Fill, y: Fill)
    requires x.side == y.side && !Adds(m.quantity, x.side) && Abs(m.quantity) < x.size + y.size
    ensures var n := Run(m, [x, y]);
            var first := Min(Abs(m.quantity), x.size);
            && n.realized == m.realized + first * (x.price - m.entry) * Direction(m.quantity)
                             + (Abs(m.quantity) - first) * (y.price - m.entry) * Direction(m.quantity)
            && Adds(n.quantity, x.side)
  {
    hide Step, Run;
    RunPair(m, x, y);
    var n := Step(m, x);
    if x.size <= Abs(m.quantity) {
      StepReducing(m, x);
      if x.size == Abs(m.quantity) {
        StepAdding(n, y);
      } else {
        StepCrossing(n, y);
        SameProduct(
          Abs(n.quantity), Abs(m.quantity) - x.size, y.price - n.entry, y.price - m.entry,
          Direction(n.quantity), Direction(m.quantity));
      }
    } else {
      StepCrossing(m, x);
      StepAdding(n, y);
    }
  }

  lemma SameProduct(a: real, a': real, b: real, b': real, c: real, c': real)
    requires a == a' && b == b' && c == c'
    ensures a * b * c == a' * b' * c'
  {
  }

  lemma SwapArithmetic(c: real, d: real, l: real, px: real, py: real, e: real, s: real)
    requires c + d > l && px != py && (s == 1.0 || s == -1.0)
    ensures c * (px - e) * s + (l - c) * (py - e) * s != d * (py - e) * s + (l - d) * (px - e) * s
  {
  }

  lemma SwapDiffers(p: Position, before: seq<Fill>, x: Fill, y: Fill, behind: seq<Fill>)
    requires AllSide(before + [x, y] + behind, x.side) && !Adds(p.quantity, x.side)
    requires x.price != y.price
    requires Sum(before, SizeOf) < Abs(p.quantity) < Sum(before, SizeOf) + x.size + y.size
    ensures Run(p, before + [x, y] + behind).realized != Run(p, before + [y, x] + behind).realized
  {
    var side := x.side;
    SplitSides(before, x, y, behind, side);
    hide Run, Sum, Direction;
    ReducingGroup(p, before, side);
    PairOrderMatters(Run(p, before), x, y);
    TailKeepsRealized(p, before, [x, y], behind, side);
    TailKeepsRealized(p, before, [y, x], behind, side);
  }

  lemma SplitSides(before: seq<Fill>, x: Fill, y: Fill, behind: seq<Fill>, side: Side)
    requires AllSide(before + [x, y] + behind, side)
    ensures AllSide(before, side) && y.side == side && AllSide(behind, side)
  {
    var all := before + [x, y] + behind;
    assert all[|before| + 1] == y;
    forall f | f in before || f in behind ensures f in all { }
  }

  lemma PairOrderMatters(m: Position, x: Fill, y: Fill)
    requires x.side == y.side && !Adds(m.quantity, x.side) && Abs(m.quantity) < x.size + y.size && x.price != y.price
    ensures Run(m, [x, y]).realized != Run(m, [y, x]).realized
    ensures Adds(Run(m, [x, y]).quantity, x.side) && Adds(Run(m, [y, x]).quantity, x.side)
  {
    hide Run, Direction;
    PairRealizes(m, x, y);
    PairRealizes(m, y, x);
    DirectionIsUnit(m.quantity);
    var held := Abs(m.quantity);
    SwapArithmetic(
      Min(held, x.size), Min(held, y.size), held, x.price, y.price, m.entry, Direction(m.quantity));
  }

  lemma DirectionIsUnit(q: real)
    ensures Direction(q) == 1.0 || Direction(q) == -1.0
  {
  }

  lemma TailKeepsRealized(p: Position, a: seq<Fill>, b: seq<Fill>, c: seq<Fill>, side: Side)
    requires AllSide(c, side) && Adds(Run(Run(p, a), b).quantity, side)
    ensures Run(p, a + b + c).realized == Run(Run(p, a), b).realized
  {
    hide Step;
    RunConcat(p, a + b, c);
    RunConcat(p, a, b);
    if c != [] {
      AddingGroup(Run(Run(p, a), b), c, side);
    }
  }

  lemma TakeTwo(g: seq<Fill>, a: Fill, b: Fill) returns (rest: seq<Fill>)
    requires a in g && b in g && a != b
    ensures multiset(g) == multiset(rest + [a, b])
    ensures Sum(g, SizeOf) == Sum(rest, SizeOf) + a.size + b.size
  {
    hide Sum;
    var u, v := Extract(g, a);
    assert b in u + v;
    var s, t := Extract(u + v, b);
    rest := s + t;
    SumExtract(u, a, v, SizeOf);
    SumExtract(s, b, t, SizeOf);
    assert rest + [a, b] == rest + [a] + [b];
  }

  /** Two orders of a flagged one-sided group that book different realized PnL. */
  lemma FlagIsNecessary(p: Position, g: seq<Fill>) returns (h: seq<Fill>, k: seq<Fill>)
    requires !TwoSided(g) && GroupAmbiguous(p.quantity, g)
    ensures multiset(h) == multiset(g) && multiset(k) == multiset(g)
    ensures Run(p, h).realized != Run(p, k).realized
  {
    hide Run, Sum;
    var a, b :| a in g && b in g && a.price != b.price;
    var side := a.side;
    assert g != [];
    CrossesOneSided(p.quantity, g, side);
    var rest := TakeTwo(g, a, b);
    SumNothing(SizeOf);
    var before, x, y, behind := Straddle([], rest, a, b, Abs(p.quantity));
    assert [] + rest == rest;
    h, k := before + [x, y] + behind, before + [y, x] + behind;
    SameElements(h, g);
    assert x in h;
    SwapDiffers(p, before, x, y, behind);
    SwapAdjacent(before, x, y, behind);
  }
}
