/** Whole-projection theorems: order independence, conservation, checkpoint replay, symmetry. */
module ProjectionLaws {
  import opened Wrappers
  import opened Sequences
  import opened Fills
  import opened Positions
  import opened OrderIndependence
  import opened PositionLaws
  import opened Projections

  // ---------------------------------------------------------------- what a projection says

  /** It fails exactly when the baseline or some fill is for another symbol. */
  lemma FailsExactlyWhen(symbol: string, fills: seq<Fill>, baseline: Option<Baseline>, coverage: seq<string>)
    ensures var r := Project(symbol, fills, baseline, coverage);
            && (r.Failure? <==>
                || (baseline.Some? && baseline.value.symbol != symbol)
                || exists f | f in fills :: f.symbol != symbol)
            && (r.Failure? ==> r.error == "Projection input symbol mismatch")
  {
    hide Run, Ambiguous, FeeTotals, Sorted, Filter, FeesCovered;
  }

  /**
   * The reasons are the coverage reasons with at most one more: an unknown opening without a
   * baseline, and with one an unknown order if some timestamp after it is flagged (FlaggedMeans).
   */
  lemma ReasonsExactly(
    symbol: string, fills: seq<Fill>, baseline: Option<Baseline>, coverage: seq<string>, reason: string)
    requires Project(symbol, fills, baseline, coverage).Success?
    ensures reason in Project(symbol, fills, baseline, coverage).value.reasons <==>
            || reason in coverage
            || (baseline.None? && reason == "opening_inventory_unknown")
            || (&& baseline.Some? && reason == "execution_order_ambiguous"
                && exists t: int :: FlaggedAt(baseline.value.quantity, After(fills, baseline.value.effectiveAt), t))
  {
    hide Run, FeeTotals, Sorted, Filter, FeesCovered, SymbolMismatch, FlaggedAt;
    if baseline.Some? {
      var b := baseline.value;
      SortedSorts(After(fills, b.effectiveAt));
      AmbiguousPermutation(b.quantity, Relevant(fills, b), After(fills, b.effectiveAt));
      hide Ambiguous;
      assert reason in (set r | r in coverage) <==> reason in coverage;
    }
  }

  /**
   * The other fields, from the fills as listed. A position is given exactly when there is no
   * reason to withhold it; the count is of the fills after the baseline, or of all without one.
   */
  lemma ReportsExactly(symbol: string, fills: seq<Fill>, baseline: Option<Baseline>, coverage: seq<string>)
    requires Project(symbol, fills, baseline, coverage).Success?
    ensures var r := Project(symbol, fills, baseline, coverage).value;
            && r.symbol == symbol && (r.position.Some? <==> r.reasons == {})
            && (r.position.None? ==> r.fees == map[] && !r.feesCovered)
            && (baseline.None? ==> r.fillCount == |fills| && r.position.None?)
            && (baseline.Some? ==> r.fillCount == |After(fills, baseline.value.effectiveAt)|)
            && (r.position.Some? ==>
                  && r.fees == FeeTotals(After(fills, baseline.value.effectiveAt))
                  && (r.feesCovered <==>
                      forall f | f in fills && f.time > baseline.value.effectiveAt ::
                        f.fee.Some? && f.feeCurrency.Some? && |f.feeCurrency.value| > 0))
  {
    hide Run, Ambiguous, FeeTotals, Sorted, Filter, SymbolMismatch;
    if baseline.None? {
      NoBaselineNoResult(symbol, fills, coverage);
    } else {
      var after := After(fills, baseline.value.effectiveAt);
      var rel := Relevant(fills, baseline.value);
      SortedSorts(after);
      assert |rel| == |multiset(rel)| == |after|;
      FeesPermutation(rel, after);
      FilterMember(fills, IsAfter(baseline.value.effectiveAt));
    }
  }

  /** With no fill after the baseline, a complete projection is the baseline. */
  lemma NothingAfterBaseline(symbol: string, fills: seq<Fill>, b: Baseline)
    requires b.symbol == symbol && forall f | f in fills :: f.symbol == symbol && f.time <= b.effectiveAt
    ensures Project(symbol, fills, Some(b), []) ==
            Success(Projection(symbol,
              Some(Position(b.quantity, if b.entryPrice.Some? then b.entryPrice.value else 0.0, 0.0)),
              {}, 0, map[], true))
  {
    hide Run, FeeTotals, Ambiguous;
    FilterNone(fills, IsAfter(b.effectiveAt));
    assert Relevant(fills, b) == [];
    NothingBooked(Opening(b));
    NothingFlagged(b.quantity);
  }

  lemma NothingFlagged(quantity: real)
    ensures !Ambiguous(quantity, [])
  {
  }

  // ---------------------------------------------------------------- order independence

  lemma FeesPermutation(a: seq<Fill>, b: seq<Fill>)
    requires multiset(a) == multiset(b)
    ensures FeeTotals(a) == FeeTotals(b) && FeesCovered(a) == FeesCovered(b)
  {
    hide Sum;
    SameElements(a, b);
    assert Currencies(a) == Currencies(b);
    forall c | c in Currencies(a) ensures FeeTotals(a)[c] == FeeTotals(b)[c] {
      SumPermutation(a, b, FeeIn(c));
    }
  }

  /** Every admissible execution order books exactly what a complete projection reports. */
  lemma AnyTimeOrder(symbol: string, fills: seq<Fill>, b: Baseline, coverage: seq<string>, order: seq<Fill>)
    requires Project(symbol, fills, Some(b), coverage).Success?
    requires Project(symbol, fills, Some(b), coverage).value.Complete()
    requires TimeOrderOf(order, After(fills, b.effectiveAt))
    ensures var r := Project(symbol, fills, Some(b), coverage).value;
            r.position == Some(Run(Opening(b), order)) && r.fees == FeeTotals(order) && r.fillCount == |order|
  {
    hide Run, Ambiguous, FeeTotals, Sorted, After, FeesCovered, SymbolMismatch;
    SortedSorts(After(fills, b.effectiveAt));
    var rel := Relevant(fills, b);
    assert |rel| == |multiset(rel)| == |order|;
    OrderFree(Opening(b), rel, order);
    FeesPermutation(rel, order);
  }

  /** Listing the same fills in another order changes nothing: not the result, not the reasons. */
  lemma InputOrderIrrelevant(
    symbol: string, fills: seq<Fill>, again: seq<Fill>, baseline: Option<Baseline>, coverage: seq<string>)
    requires multiset(fills) == multiset(again)
    ensures Project(symbol, fills, baseline, coverage) == Project(symbol, again, baseline, coverage)
  {
    hide Run, Ambiguous, FeeTotals, Sorted, Filter, FeesCovered;
    SameElements(fills, again);
    assert |fills| == |multiset(fills)| == |again|;
    if baseline.Some? {
      var b := baseline.value;
      FilterPermutation(fills, again, IsAfter(b.effectiveAt));
      SortedSorts(After(fills, b.effectiveAt));
      SortedSorts(After(again, b.effectiveAt));
      var rel, rel' := Relevant(fills, b), Relevant(again, b);
      assert |rel| == |multiset(rel)| == |rel'|;
      AmbiguousPermutation(b.quantity, rel, rel');
      FeesPermutation(rel, rel');
      if !Ambiguous(b.quantity, rel) {
        OrderFree(Opening(b), rel, rel');
      }
    }
  }

  // ---------------------------------------------------------------- conservation

  /** For every mark, a complete projection is worth its opening plus what the fills gained. */
  lemma ProjectionConserves(symbol: string, fills: seq<Fill>, b: Baseline, coverage: seq<string>, mark: real)
    requires Project(symbol, fills, Some(b), coverage).Success?
    requires Project(symbol, fills, Some(b), coverage).value.Complete()
    ensures var p := Project(symbol, fills, Some(b), coverage).value.position;
            p.Some? &&
            p.value.realized + p.value.quantity * (mark - p.value.entry) ==
            b.quantity * (mark - Opening(b).entry) + Sum(After(fills, b.effectiveAt), GainAt(mark))
  {
    hide Run, Ambiguous, FeeTotals, Sorted, Sum, After, FeesCovered, SymbolMismatch;
    var rel := Relevant(fills, b);
    SortedSorts(After(fills, b.effectiveAt));
    SumPermutation(rel, After(fills, b.effectiveAt), GainAt(mark));
    RunConserves(Opening(b), rel, mark);
  }

  // ---------------------------------------------------------------- checkpoint replay

  ghost predicate IsComplete(r: Result<Projection>) {
    r.Success? && r.value.Complete()
  }

  /** The position can stand as an opening: an open quantity has a positive entry price. */
  predicate Recordable(p: Position) {
    if p.quantity != 0.0 then p.entry > 0.0 else p.entry >= 0.0
  }

  /** A complete result recorded as the opening inventory at `t`; nothing if it is not complete. */
  ghost function Checkpoint(symbol: string, t: int, r: Result<Projection>): Option<Baseline> {
    if IsComplete(r) && r.value.position.Some? && Recordable(r.value.position.value) then
      var p := r.value.position.value;
      Some(BaselineRecord(symbol, t, p.quantity, if p.entry == 0.0 then None else Some(p.entry)))
    else None
  }

  /** When a projection is complete, and what it then holds. */
  lemma CompleteForm(symbol: string, fills: seq<Fill>, b: Baseline, coverage: seq<string>)
    requires !SymbolMismatch(symbol, fills, Some(b))
    ensures var r := Project(symbol, fills, Some(b), coverage);
            var rel := Relevant(fills, b);
            && (IsComplete(r) <==> coverage == [] && !Ambiguous(b.quantity, rel))
            && (IsComplete(r) ==>
                  r.value ==
                  Projection(symbol, Some(Run(Opening(b), rel)), {}, |rel|, FeeTotals(rel), FeesCovered(rel)))
  {
    hide Run, Ambiguous, FeeTotals, Sorted, After, FeesCovered, SymbolMismatch;
    var given := set r | r in coverage;
    if coverage != [] {
      assert coverage[0] in given;
    }
    assert ORDER_AMBIGUOUS in given + {ORDER_AMBIGUOUS};
    assert given + {} == given;
  }

  lemma NoBaselineNoResult(symbol: string, fills: seq<Fill>, coverage: seq<string>)
    ensures !IsComplete(Project(symbol, fills, None, coverage))
  {
    hide SymbolMismatch;
    assert OPENING_UNKNOWN in (set r | r in coverage) + {OPENING_UNKNOWN};
  }

  lemma CompleteIsRecordable(symbol: string, fills: seq<Fill>, b: Baseline, coverage: seq<string>)
    requires IsComplete(Project(symbol, fills, Some(b), coverage))
    ensures var p := Project(symbol, fills, Some(b), coverage).value.position;
            p.Some? && Recordable(p.value)
  {
    hide Run, Ambiguous, FeeTotals, Sorted, After, FeesCovered, SymbolMismatch;
    EntryPositive(Opening(b), Relevant(fills, b));
    RunNothing(Opening(b));
  }

  lemma RunNothing(p: Position)
    ensures Run(p, []) == p
  {
  }

  lemma SplitRelevant(fills: seq<Fill>, b: Baseline, t: int)
    requires b.effectiveAt <= t
    ensures multiset(UpTo(Relevant(fills, b), t)) == multiset(Relevant(UpTo(fills, t), b))
    ensures multiset(After(Relevant(fills, b), t)) == multiset(Sorted(After(fills, t)))
    ensures TimeSorted(Relevant(fills, b)) && TimeSorted(Relevant(UpTo(fills, t), b))
    ensures TimeSorted(Sorted(After(fills, t)))
  {
    hide Filter, Sorted, TimeSorted;
    var s := b.effectiveAt;
    SortedSorts(After(fills, s));
    SortedSorts(After(UpTo(fills, t), s));
    SortedSorts(After(fills, t));
    FilterPermutation(Relevant(fills, b), After(fills, s), IsUpTo(t));
    FilterPermutation(Relevant(fills, b), After(fills, s), IsAfter(t));
    FilterTwice(fills, IsAfter(s), IsAfter(t), IsAfter(t));
    FilterTwice(fills, IsAfter(s), IsUpTo(t), IsBetween(s, t + 1));
    FilterTwice(fills, IsUpTo(t), IsAfter(s), IsBetween(s, t + 1));
  }

  /**
   * Cutting an unflagged run at `t`: accounting the early part, restarting from its result
   * with realized PnL at zero, and accounting the late part reaches the same position, with
   * the two realized amounts adding up.
   */
  lemma CutRun(p: Position, whole: seq<Fill>, early: seq<Fill>, late: seq<Fill>, t: int)
    requires TimeSorted(whole) && TimeSorted(early) && TimeSorted(late)
    requires multiset(UpTo(whole, t)) == multiset(early) && multiset(After(whole, t)) == multiset(late)
    ensures Ambiguous(p.quantity, whole) <==>
            Ambiguous(p.quantity, early) || Ambiguous(Run(p, early).quantity, late)
    ensures !Ambiguous(p.quantity, whole) ==>
              var mid := Run(p, early);
              Run(p, whole) == Shift(Run(mid.(realized := 0.0), late), mid.realized)
  {
    hide Run, Ambiguous, Filter, Sum, TimeSorted;
    var mid := Run(p, early);
    RunQuantity(p, early);
    SumPermutation(UpTo(whole, t), early, Signed);
    AmbiguousCut(p.quantity, whole, t);
    AmbiguousPermutation(p.quantity, UpTo(whole, t), early);
    AmbiguousPermutation(mid.quantity, After(whole, t), late);
    if !Ambiguous(p.quantity, whole) {
      CutBooks(p, whole, early, late, t);
      RunShift(mid.(realized := 0.0), late, mid.realized);
    }
  }

  lemma RunSplit(p: Position, whole: seq<Fill>, t: int)
    requires TimeSorted(whole)
    ensures Run(p, whole) == Run(Run(p, UpTo(whole, t)), After(whole, t))
  {
    hide Run, Filter, TimeSorted;
    SortedSplit(whole, t);
    RunConcat(p, UpTo(whole, t), After(whole, t));
  }

  lemma CutBooks(p: Position, whole: seq<Fill>, early: seq<Fill>, late: seq<Fill>, t: int)
    requires TimeSorted(whole) && TimeSorted(early) && TimeSorted(late)
    requires multiset(UpTo(whole, t)) == multiset(early) && multiset(After(whole, t)) == multiset(late)
    requires !Ambiguous(p.quantity, UpTo(whole, t)) && !Ambiguous(p.quantity + Net(UpTo(whole, t)), After(whole, t))
    ensures Run(p, whole) == Run(Run(p, early), late)
  {
    hide Run, Ambiguous, Filter, Sum, TimeSorted;
    FilterSorted(whole, IsUpTo(t));
    FilterSorted(whole, IsAfter(t));
    RunSplit(p, whole, t);
    RunQuantity(p, UpTo(whole, t));
    OrderFree(p, UpTo(whole, t), early);
    OrderFree(Run(p, early), After(whole, t), late);
  }

  /** The accounting and the flag of a projection, cut at `t`. */
  lemma CutRelevant(fills: seq<Fill>, b: Baseline, t: int)
    requires b.effectiveAt <= t
    ensures var whole, early, late := Relevant(fills, b), Relevant(UpTo(fills, t), b), Sorted(After(fills, t));
            var mid := Run(Opening(b), early);
            && (Ambiguous(b.quantity, whole) <==> Ambiguous(b.quantity, early) || Ambiguous(mid.quantity, late))
            && (!Ambiguous(b.quantity, whole) ==>
                  Run(Opening(b), whole) == Shift(Run(mid.(realized := 0.0), late), mid.realized))
            && FeeTotals(whole) == MergeFees(FeeTotals(early), FeeTotals(late))
            && |whole| == |early| + |late|
            && FeesCovered(whole) == (FeesCovered(early) && FeesCovered(late))
  {
    hide Run, Ambiguous, FeeTotals, Sorted, Filter, FeesCovered, MergeFees, TimeSorted;
    var whole, early, late := Relevant(fills, b), Relevant(UpTo(fills, t), b), Sorted(After(fills, t));
    SplitRelevant(fills, b, t);
    CutRun(Opening(b), whole, early, late, t);
    CutFees(whole, early, late, t);
  }

  /** Quantity and entry come from the late part; realized PnL, fees and counts add up. */
  ghost predicate AddsUp(whole: Projection, early: Projection, late: Projection) {
    && whole.position.Some? && early.position.Some? && late.position.Some?
    && whole.position.value.quantity == late.position.value.quantity
    && whole.position.value.entry == late.position.value.entry
    && whole.position.value.realized == early.position.value.realized + late.position.value.realized
    && whole.fees == MergeFees(early.fees, late.fees)
    && whole.fillCount == early.fillCount + late.fillCount
    && whole.feesCovered == (early.feesCovered && late.feesCovered)
  }

  /**
   * Checkpoint replay. Projecting to `t`, recording that result as the baseline at `t` and
   * projecting over it agrees with one projection, and the one projection is complete
   * exactly when both parts are.
   */
  lemma CheckpointReplay(symbol: string, fills: seq<Fill>, b: Baseline, coverage: seq<string>, t: int)
    requires b.effectiveAt <= t && !SymbolMismatch(symbol, fills, Some(b))
    ensures var whole := Project(symbol, fills, Some(b), coverage);
            var early := Project(symbol, UpTo(fills, t), Some(b), coverage);
            var late := Project(symbol, fills, Checkpoint(symbol, t, early), coverage);
            && (IsComplete(early) ==> Checkpoint(symbol, t, early).Some?)
            && (IsComplete(whole) <==> IsComplete(early) && IsComplete(late))
            && (IsComplete(whole) ==> AddsUp(whole.value, early.value, late.value))
  {
    hide IsComplete, AddsUp, Project, Checkpoint, SymbolMismatch, UpTo;
    var early := Project(symbol, UpTo(fills, t), Some(b), coverage);
    EarlyMatches(symbol, fills, b, t);
    if IsComplete(early) {
      CheckpointForm(symbol, fills, b, coverage, t);
      ReplayFrom(symbol, fills, b, coverage, t, Checkpoint(symbol, t, early).value);
    } else {
      NoCheckpoint(symbol, fills, coverage, t, early);
      WholeNeedsEarly(symbol, fills, b, coverage, t);
    }
  }

  lemma EarlyMatches(symbol: string, fills: seq<Fill>, b: Baseline, t: int)
    requires !SymbolMismatch(symbol, fills, Some(b))
    ensures !SymbolMismatch(symbol, UpTo(fills, t), Some(b))
  {
    FilterMember(fills, IsUpTo(t));
  }

  lemma WholeNeedsEarly(symbol: string, fills: seq<Fill>, b: Baseline, coverage: seq<string>, t: int)
    requires b.effectiveAt <= t
    requires !SymbolMismatch(symbol, fills, Some(b)) && !SymbolMismatch(symbol, UpTo(fills, t), Some(b))
    requires !IsComplete(Project(symbol, UpTo(fills, t), Some(b), coverage))
    ensures !IsComplete(Project(symbol, fills, Some(b), coverage))
  {
    hide Run, Ambiguous, FeeTotals, Relevant, Filter, FeesCovered, SymbolMismatch, Project, MergeFees, Opening, Sorted;
    CutRelevant(fills, b, t);
    CompleteForm(symbol, fills, b, coverage);
    CompleteForm(symbol, UpTo(fills, t), b, coverage);
  }

  lemma ReplayFrom(symbol: string, fills: seq<Fill>, b: Baseline, coverage: seq<string>, t: int, c: Baseline)
    requires b.effectiveAt <= t
    requires !SymbolMismatch(symbol, fills, Some(b)) && !SymbolMismatch(symbol, UpTo(fills, t), Some(b))
    requires !SymbolMismatch(symbol, fills, Some(c))
    requires IsComplete(Project(symbol, UpTo(fills, t), Some(b), coverage))
    requires Opening(c) == Run(Opening(b), Relevant(UpTo(fills, t), b)).(realized := 0.0)
    requires c.quantity == Run(Opening(b), Relevant(UpTo(fills, t), b)).quantity
    requires Relevant(fills, c) == Sorted(After(fills, t))
    ensures var whole := Project(symbol, fills, Some(b), coverage);
            var early := Project(symbol, UpTo(fills, t), Some(b), coverage);
            var late := Project(symbol, fills, Some(c), coverage);
            && (IsComplete(whole) <==> IsComplete(late))
            && (IsComplete(whole) ==> AddsUp(whole.value, early.value, late.value))
  {
    hide Run, Ambiguous, FeeTotals, Relevant, Filter, FeesCovered, SymbolMismatch, Project, MergeFees, Opening, Sorted;
    CutRelevant(fills, b, t);
    CompleteForm(symbol, fills, b, coverage);
    CompleteForm(symbol, UpTo(fills, t), b, coverage);
    CompleteForm(symbol, fills, c, coverage);
  }

  /** The checkpoint of a complete early part opens where that part ended, with nothing realized. */
  lemma CheckpointForm(symbol: string, fills: seq<Fill>, b: Baseline, coverage: seq<string>, t: int)
    requires !SymbolMismatch(symbol, fills, Some(b)) && !SymbolMismatch(symbol, UpTo(fills, t), Some(b))
    requires IsComplete(Project(symbol, UpTo(fills, t), Some(b), coverage))
    ensures var c := Checkpoint(symbol, t, Project(symbol, UpTo(fills, t), Some(b), coverage));
            var mid := Run(Opening(b), Relevant(UpTo(fills, t), b));
            && c.Some? && !SymbolMismatch(symbol, fills, c)
            && Opening(c.value) == mid.(realized := 0.0) && c.value.quantity == mid.quantity
            && Relevant(fills, c.value) == Sorted(After(fills, t))
  {
    hide Run, Ambiguous, FeeTotals, Sorted, Filter, FeesCovered, SymbolMismatch, Project;
    CompleteForm(symbol, UpTo(fills, t), b, coverage);
    CompleteIsRecordable(symbol, UpTo(fills, t), b, coverage);
    NoMismatch(symbol, fills, b, Checkpoint(symbol, t, Project(symbol, UpTo(fills, t), Some(b), coverage)).value);
  }

  lemma NoCheckpoint(symbol: string, fills: seq<Fill>, coverage: seq<string>, t: int, early: Result<Projection>)
    requires !IsComplete(early)
    ensures !IsComplete(Project(symbol, fills, Checkpoint(symbol, t, early), coverage))
  {
    NoBaselineNoResult(symbol, fills, coverage);
  }

  lemma NoMismatch(symbol: string, fills: seq<Fill>, b: Baseline, c: Baseline)
    requires !SymbolMismatch(symbol, fills, Some(b)) && c.symbol == symbol
    ensures !SymbolMismatch(symbol, fills, Some(c))
  {
  }

  lemma CutFees(whole: seq<Fill>, early: seq<Fill>, late: seq<Fill>, t: int)
    requires TimeSorted(whole)
    requires multiset(UpTo(whole, t)) == multiset(early) && multiset(After(whole, t)) == multiset(late)
    ensures FeeTotals(whole) == MergeFees(FeeTotals(early), FeeTotals(late))
    ensures |whole| == |early| + |late|
    ensures FeesCovered(whole) == (FeesCovered(early) && FeesCovered(late))
  {
    hide FeeTotals, Filter;
    SortedSplit(whole, t);
    FeesConcat(UpTo(whole, t), After(whole, t));
    FeesPermutation(UpTo(whole, t), early);
    FeesPermutation(After(whole, t), late);
    assert |UpTo(whole, t)| == |multiset(UpTo(whole, t))| == |early|;
    assert |After(whole, t)| == |multiset(After(whole, t))| == |late|;
  }
}
