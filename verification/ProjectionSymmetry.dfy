/** Long and short are treated alike: mirroring every input mirrors the projection. */
module ProjectionSymmetry {
  import opened Wrappers
  import opened Sequences
  import opened Fills
  import opened Positions
  import opened OrderIndependence
  import opened PositionLaws
  import opened Projections

  lemma {:induction false} MirrorConcat(a: seq<Fill>, b: seq<Fill>)
    ensures MirrorFills(a + b) == MirrorFills(a) + MirrorFills(b)
  {
    if b == [] {
      assert a + b == a;
    } else {
      var n := |b| - 1;
      assert (a + b)[..|a + b| - 1] == a + b[..n];
      MirrorConcat(a, b[..n]);
    }
  }

  lemma MirrorOne(f: Fill)
    ensures MirrorFills([f]) == [MirrorFill(f)]
  {
    assert [f][..0] == [];
  }

  lemma {:induction false} MirrorAt(fs: seq<Fill>)
    ensures |MirrorFills(fs)| == |fs|
    ensures forall i | 0 <= i < |fs| :: MirrorFills(fs)[i] == MirrorFill(fs[i])
  {
    if fs != [] {
      MirrorAt(fs[..|fs| - 1]);
    }
  }

  lemma {:induction false} MirrorFilter(fs: seq<Fill>, keep: Fill -> bool)
    requires forall f | f in fs :: keep(MirrorFill(f)) == keep(f)
    ensures Filter(MirrorFills(fs), keep) == MirrorFills(Filter(fs, keep))
  {
    if fs != [] {
      var a, f := fs[..|fs| - 1], fs[|fs| - 1];
      MirrorFilter(a, keep);
      FilterLast(MirrorFills(a), MirrorFill(f), keep);
      MirrorConcat(Filter(a, keep), if keep(f) then [f] else []);
      MirrorOne(f);
    }
  }

  lemma {:induction false} MirrorSum(fs: seq<Fill>, w: Fill -> real)
    requires forall f | f in fs :: w(MirrorFill(f)) == w(f)
    ensures Sum(MirrorFills(fs), w) == Sum(fs, w)
  {
    if fs != [] {
      var a, f := fs[..|fs| - 1], fs[|fs| - 1];
      MirrorSum(a, w);
      SumLast(MirrorFills(a), MirrorFill(f), w);
    }
  }

  lemma {:induction false} MirrorInsert(s: seq<Fill>, f: Fill)
    ensures Insert(MirrorFills(s), MirrorFill(f)) == MirrorFills(Insert(s, f))
  {
    MirrorAt(s);
    MirrorConcat(s, [f]);
    MirrorOne(f);
    if s != [] {
      var a, z := s[..|s| - 1], s[|s| - 1];
      MirrorInsert(a, f);
      MirrorConcat(Insert(a, f), [z]);
      MirrorOne(z);
      assert MirrorFills(s)[..|s| - 1] == MirrorFills(a);
    }
  }

  lemma {:induction false} MirrorSorted(s: seq<Fill>)
    ensures Sorted(MirrorFills(s)) == MirrorFills(Sorted(s))
  {
    if s != [] {
      var a, z := s[..|s| - 1], s[|s| - 1];
      MirrorSorted(a);
      MirrorInsert(Sorted(a), z);
      MirrorAt(a);
      assert MirrorFills(s)[..|s| - 1] == MirrorFills(a);
    }
  }

  lemma {:induction false} MirrorNet(fs: seq<Fill>)
    ensures Net(MirrorFills(fs)) == -Net(fs)
  {
    if fs != [] {
      var a, f := fs[..|fs| - 1], fs[|fs| - 1];
      MirrorNet(a);
      SumLast(MirrorFills(a), MirrorFill(f), Signed);
    }
  }

  lemma MirrorGroup(inventory: real, g: seq<Fill>)
    ensures GroupAmbiguous(-inventory, MirrorFills(g)) <==> GroupAmbiguous(inventory, g)
  {
    hide Sum;
    MirrorNet(g);
    assert -inventory * -Net(g) == inventory * Net(g);
    MirrorChoices(g);
  }

  lemma MirrorChoices(g: seq<Fill>)
    ensures TwoSided(MirrorFills(g)) <==> TwoSided(g)
    ensures ManyPrices(MirrorFills(g)) <==> ManyPrices(g)
  {
    hide MirrorFills, TwoSided, ManyPrices;
    var m := MirrorFills(g);
    MirrorAt(g);
    Transfer(g, m);
    Transfer(m, g);
  }

  lemma Transfer(g: seq<Fill>, m: seq<Fill>)
    requires |g| == |m| && forall i | 0 <= i < |g| :: m[i] == MirrorFill(g[i])
    ensures TwoSided(g) ==> TwoSided(m)
    ensures ManyPrices(g) ==> ManyPrices(m)
  {
  }

  lemma MirrorFlagged(quantity: real, fs: seq<Fill>, t: int)
    ensures FlaggedAt(-quantity, MirrorFills(fs), t) <==> FlaggedAt(quantity, fs, t)
  {
    hide Sum, Filter, MirrorFills, GroupAmbiguous;
    MirrorFilter(fs, IsBefore(t));
    MirrorFilter(fs, IsAt(t));
    MirrorNet(Before(fs, t));
    MirrorGroup(quantity + Net(Before(fs, t)), At(fs, t));
  }

  lemma MirrorAmbiguous(quantity: real, fs: seq<Fill>)
    ensures Ambiguous(-quantity, MirrorFills(fs)) <==> Ambiguous(quantity, fs)
  {
    hide FlaggedAt;
    if Ambiguous(quantity, fs) {
      var t :| FlaggedAt(quantity, fs, t);
      MirrorFlagged(quantity, fs, t);
    }
    if Ambiguous(-quantity, MirrorFills(fs)) {
      var t :| FlaggedAt(-quantity, MirrorFills(fs), t);
      MirrorFlagged(quantity, fs, t);
    }
  }

  lemma MirrorFees(fs: seq<Fill>)
    ensures FeeTotals(MirrorFills(fs)) == FeeTotals(fs)
    ensures FeesCovered(MirrorFills(fs)) == FeesCovered(fs)
  {
    MirrorCovered(fs);
    hide Sum, MirrorFills, Currencies, FeesCovered;
    var m := MirrorFills(fs);
    MirrorCurrencies(fs);
    forall c | c in Currencies(fs) ensures FeeTotals(m)[c] == FeeTotals(fs)[c] {
      MirrorSum(fs, FeeIn(c));
    }
  }

  lemma MirrorCovered(fs: seq<Fill>)
    ensures FeesCovered(MirrorFills(fs)) == FeesCovered(fs)
  {
  }

  lemma {:induction false} MirrorCurrencies(fs: seq<Fill>)
    ensures Currencies(MirrorFills(fs)) == Currencies(fs)
  {
    if fs != [] {
      var a, f := fs[..|fs| - 1], fs[|fs| - 1];
      MirrorCurrencies(a);
      assert fs == a + [f];
      CurrenciesConcat(a, [f]);
      CurrenciesConcat(MirrorFills(a), [MirrorFill(f)]);
    }
  }

  function MirrorBaseline(b: Baseline): Baseline {
    BaselineRecord(b.symbol, b.effectiveAt, -b.quantity, b.entryPrice)
  }

  function MirrorProjection(r: Projection): Projection {
    r.(position := if r.position.Some? then Some(MirrorPosition(r.position.value)) else None)
  }

  /**
   * Swapping every side and negating the baseline negates quantity and realized PnL and
   * keeps the entry price, the reasons, the count and the fees.
   */
  lemma ProjectionMirror(symbol: string, fills: seq<Fill>, b: Baseline, coverage: seq<string>)
    ensures var r := Project(symbol, fills, Some(b), coverage);
            Project(symbol, MirrorFills(fills), Some(MirrorBaseline(b)), coverage)
            == if r.Success? then Success(MirrorProjection(r.value)) else r
  {
    hide Run, Ambiguous, FeeTotals, Relevant, FeesCovered, MirrorFills, SymbolMismatch, Opening;
    MirrorMismatch(symbol, fills, b);
    MirrorRelevant(fills, b);
    MirrorOpening(b);
    var rel := Relevant(fills, b);
    MirrorAmbiguous(b.quantity, rel);
    MirrorFees(rel);
    MirrorAt(rel);
    RunMirror(Opening(b), rel);
  }

  lemma MirrorRelevant(fills: seq<Fill>, b: Baseline)
    ensures Relevant(MirrorFills(fills), MirrorBaseline(b)) == MirrorFills(Relevant(fills, b))
  {
    hide Filter, Sorted, MirrorFills;
    MirrorFilter(fills, IsAfter(b.effectiveAt));
    MirrorSorted(After(fills, b.effectiveAt));
    assert After(MirrorFills(fills), b.effectiveAt) == MirrorFills(After(fills, b.effectiveAt));
  }

  lemma MirrorOpening(b: Baseline)
    ensures Opening(MirrorBaseline(b)) == MirrorPosition(Opening(b))
  {
    if b.entryPrice.Some? {
      assert Opening(b).entry == b.entryPrice.value;
    } else {
      assert Opening(b).entry == 0.0;
    }
  }

  lemma MirrorMismatch(symbol: string, fills: seq<Fill>, b: Baseline)
    ensures SymbolMismatch(symbol, MirrorFills(fills), Some(MirrorBaseline(b))) <==>
            SymbolMismatch(symbol, fills, Some(b))
  {
    hide MirrorFills;
    var m := MirrorFills(fills);
    MirrorAt(fills);
    if f :| f in fills && f.symbol != symbol {
      var i :| 0 <= i < |fills| && fills[i] == f;
      assert m[i] in m;
    }
    if f :| f in m && f.symbol != symbol {
      var i :| 0 <= i < |m| && m[i] == f;
      assert fills[i] in fills;
    }
  }
}
