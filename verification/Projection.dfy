/**
 * `project_position`: fills over an opening baseline become a position, or a list of
 * reasons why none can be stated. The source's sorted, deduplicated reason and fee
 * tuples are represented by the set and the map they spell out.
 */
module Projections {
  import opened Wrappers
  import opened Sequences
  import opened Fills
  import opened Positions
  import opened OrderIndependence

  const OPENING_UNKNOWN := "opening_inventory_unknown"
  const ORDER_AMBIGUOUS := "execution_order_ambiguous"
  const SYMBOL_MISMATCH := "Projection input symbol mismatch"

  datatype BaselineRecord = BaselineRecord(symbol: string, effectiveAt: int, quantity: real, entryPrice: Option<real>)

  /** A baseline that passed construction: a held quantity has a price, and any price is positive. */
  type Baseline = b: BaselineRecord |
      (b.quantity != 0.0 ==> b.entryPrice.Some?) && (b.entryPrice.Some? ==> b.entryPrice.value > 0.0)
    witness BaselineRecord("s", 0, 0.0, None)

  datatype Projection = Projection(
    symbol: string, position: Option<Position>, reasons: set<string>, fillCount: nat,
    fees: map<string, real>, feesCovered: bool)
  {
    predicate Complete() { reasons == {} }
  }

  function Opening(b: Baseline): Position {
    Position(b.quantity, if b.entryPrice.Some? then b.entryPrice.value else 0.0, 0.0)
  }

  // ---------------------------------------------------------------- sorting

  predicate TextLess(a: string, b: string) {
    b != [] && (a == [] || a[0] < b[0] || (a[0] == b[0] && TextLess(a[1..], b[1..])))
  }

  /** The sort key (time, order id, fill id) of `a` is strictly below that of `b`. */
  predicate KeyLess(a: Fill, b: Fill) {
    || a.time < b.time
    || (a.time == b.time && TextLess(a.orderId, b.orderId))
    || (a.time == b.time && a.orderId == b.orderId && TextLess(a.fillId, b.fillId))
  }

  function SameKey(x: Fill): Fill -> bool {
    (f: Fill) => f.time == x.time && f.orderId == x.orderId && f.fillId == x.fillId
  }

  ghost predicate KeySorted(s: seq<Fill>) {
    forall i, j | 0 <= i < j < |s| :: !KeyLess(s[j], s[i])
  }

  function Insert(s: seq<Fill>, f: Fill): seq<Fill> {
    if s == [] || !KeyLess(f, s[|s| - 1]) then s + [f]
    else Insert(s[..|s| - 1], f) + [s[|s| - 1]]
  }

  /** A stable sort by key. */
  function Sorted(s: seq<Fill>): seq<Fill> {
    if s == [] then [] else Insert(Sorted(s[..|s| - 1]), s[|s| - 1])
  }

  lemma {:induction false} InsertMembers(s: seq<Fill>, f: Fill)
    ensures multiset(Insert(s, f)) == multiset(s) + multiset{f}
  {
    if s != [] && KeyLess(f, s[|s| - 1]) {
      InsertMembers(s[..|s| - 1], f);
      assert s == s[..|s| - 1] + [s[|s| - 1]];
    }
  }

  lemma {:induction false} InsertMember(s: seq<Fill>, f: Fill, x: Fill)
    requires x in Insert(s, f)
    ensures x in s || x == f
  {
    if s != [] && KeyLess(f, s[|s| - 1]) && x != s[|s| - 1] {
      InsertMember(s[..|s| - 1], f, x);
    }
  }

  // Exactly one of the three comparisons holds of two texts.
  lemma {:induction false} TextTotal(a: string, b: string)
    ensures TextLess(a, b) || TextLess(b, a) || a == b
    ensures !(TextLess(a, b) && TextLess(b, a)) && !TextLess(a, a)
    decreases |a|
  {
    if a != [] {
      TextTotal(a[1..], if b != [] then b[1..] else []);
      if b != [] && a[0] == b[0] && a[1..] == b[1..] {
        assert a == [a[0]] + a[1..] && b == [b[0]] + b[1..];
      }
    }
  }

  lemma {:induction false} TextTransitive(a: string, b: string, c: string)
    requires TextLess(a, b) && TextLess(b, c)
    ensures TextLess(a, c)
  {
    if a != [] && a[0] == b[0] && b[0] == c[0] {
      TextTransitive(a[1..], b[1..], c[1..]);
    }
  }

  /** Texts are linearly ordered, so "not below" is transitive. */
  lemma TextNotBelow(a: string, b: string, c: string)
    requires !TextLess(a, b) && !TextLess(b, c)
    ensures !TextLess(a, c) && (a == c ==> a == b)
  {
    hide TextLess;
    TextTotal(a, b);
    TextTotal(b, c);
    TextTotal(a, c);
    if a != b && b != c {
      TextTransitive(c, b, a);
    }
  }

  lemma KeyNotBelow(a: Fill, b: Fill, c: Fill)
    requires !KeyLess(a, b) && !KeyLess(b, c)
    ensures !KeyLess(a, c)
  {
    hide TextLess;
    if a.time == b.time == c.time {
      TextNotBelow(a.orderId, b.orderId, c.orderId);
      if a.orderId == b.orderId == c.orderId {
        TextNotBelow(a.fillId, b.fillId, c.fillId);
      }
    }
  }

  lemma KeyAsymmetric(a: Fill, b: Fill)
    requires KeyLess(a, b)
    ensures !KeyLess(b, a) && !SameKey(b)(a)
  {
    hide TextLess;
    TextTotal(a.orderId, b.orderId);
    TextTotal(a.fillId, b.fillId);
  }

  lemma {:induction false} InsertSorts(s: seq<Fill>, f: Fill)
    requires KeySorted(s)
    ensures KeySorted(Insert(s, f))
  {
    hide KeyLess;
    if s != [] {
      var a, z := s[..|s| - 1], s[|s| - 1];
      if KeyLess(f, z) {
        InsertSorts(a, f);
        KeyAsymmetric(f, z);
        var r := Insert(a, f);
        forall i | 0 <= i < |r| ensures !KeyLess(z, r[i]) {
          InsertMember(a, f, r[i]);
        }
      } else {
        forall i | 0 <= i < |s| ensures !KeyLess(f, s[i]) {
          if i < |s| - 1 {
            KeyNotBelow(f, z, s[i]);
          }
        }
      }
    }
  }

  lemma {:induction false} InsertIsStable(s: seq<Fill>, f: Fill, x: Fill)
    ensures Filter(Insert(s, f), SameKey(x)) == Filter(s + [f], SameKey(x))
  {
    hide KeyLess, Filter;
    if s != [] && KeyLess(f, s[|s| - 1]) {
      var a, z := s[..|s| - 1], s[|s| - 1];
      assert s == a + [z];
      InsertIsStable(a, f, x);
      FilterLast(Insert(a, f), z, SameKey(x));
      KeyAsymmetric(f, z);
      SwapApart(a, f, z, SameKey(x));
    }
  }

  lemma SwapApart(a: seq<Fill>, f: Fill, z: Fill, keep: Fill -> bool)
    requires !(keep(f) && keep(z))
    ensures Filter(a + [f], keep) + (if keep(z) then [z] else []) == Filter(a + [z] + [f], keep)
  {
    hide Filter;
    FilterLast(a, f, keep);
    FilterLast(a, z, keep);
    FilterLast(a + [z], f, keep);
  }

  /** The sort permutes the fills into key order, and so into time order. */
  lemma {:induction false} SortedSorts(s: seq<Fill>)
    ensures TimeOrderOf(Sorted(s), s) && KeySorted(Sorted(s))
  {
    if s != [] {
      SortedSorts(s[..|s| - 1]);
      InsertSorts(Sorted(s[..|s| - 1]), s[|s| - 1]);
      InsertMembers(Sorted(s[..|s| - 1]), s[|s| - 1]);
      assert s == s[..|s| - 1] + [s[|s| - 1]];
    }
  }

  /** Fills with one key stay in the order in which they were listed. */
  lemma {:induction false} SortIsStable(s: seq<Fill>, x: Fill)
    ensures Filter(Sorted(s), SameKey(x)) == Filter(s, SameKey(x))
  {
    if s != [] {
      var a, z := s[..|s| - 1], s[|s| - 1];
      SortIsStable(a, x);
      InsertIsStable(Sorted(a), z, x);
      FilterLast(Sorted(a), z, SameKey(x));
    }
  }

  /** Fills after the baseline's inclusive timestamp, in key order. */
  function Relevant(fills: seq<Fill>, b: Baseline): seq<Fill> {
    Sorted(After(fills, b.effectiveAt))
  }

  // ---------------------------------------------------------------- fees

  function FeeCurrency(f: Fill): string {
    if f.feeCurrency.Some? && f.feeCurrency.value != "" then f.feeCurrency.value else "unknown"
  }

  function FeeIn(currency: string): Fill -> real {
    (f: Fill) => if f.fee.Some? && FeeCurrency(f) == currency then f.fee.value else 0.0
  }

  function Currencies(fs: seq<Fill>): set<string> {
    set f | f in fs && f.fee.Some? :: FeeCurrency(f)
  }

  /** Every currency some fee was paid in, with the total paid in it. */
  function FeeTotals(fs: seq<Fill>): map<string, real> {
    map c | c in Currencies(fs) :: Sum(fs, FeeIn(c))
  }

  function AddFee(fees: map<string, real>, f: Fill): map<string, real> {
    if f.fee.None? then fees
    else
      var c := FeeCurrency(f);
      fees[c := (if c in fees then fees[c] else 0.0) + f.fee.value]
  }

  predicate FeesCovered(fs: seq<Fill>) {
    forall f | f in fs :: f.fee.Some? && f.feeCurrency.Some? && f.feeCurrency.value != ""
  }

  lemma {:induction false} NoFeeIn(fs: seq<Fill>, c: string)
    requires c !in Currencies(fs)
    ensures Sum(fs, FeeIn(c)) == 0.0
  {
    if fs != [] {
      var n := |fs| - 1;
      assert fs[n] in fs;
      assert c !in Currencies(fs[..n]) by {
        forall f | f in fs[..n] ensures f in fs { }
      }
      NoFeeIn(fs[..n], c);
    }
  }

  lemma CurrenciesConcat(a: seq<Fill>, b: seq<Fill>)
    ensures Currencies(a + b) == Currencies(a) + Currencies(b)
  {
  }

  /** Fees of two batches, currency by currency. */
  function MergeFees(a: map<string, real>, b: map<string, real>): map<string, real> {
    map c | c in a.Keys + b.Keys :: (if c in a then a[c] else 0.0) + (if c in b then b[c] else 0.0)
  }

  lemma FeesConcat(a: seq<Fill>, b: seq<Fill>)
    ensures FeeTotals(a + b) == MergeFees(FeeTotals(a), FeeTotals(b))
  {
    hide Sum, Currencies;
    CurrenciesConcat(a, b);
    forall c | c in Currencies(a + b)
      ensures FeeTotals(a + b)[c] == MergeFees(FeeTotals(a), FeeTotals(b))[c]
    {
      SumConcat(a, b, FeeIn(c));
      if c !in Currencies(a) { NoFeeIn(a, c); }
      if c !in Currencies(b) { NoFeeIn(b, c); }
    }
  }

  /** One fill's fee counts in its own currency, or as unknown if it names none. */
  lemma OneFee(f: Fill)
    ensures FeeTotals([f]) ==
            if f.fee.None? then map[]
            else if f.feeCurrency.Some? && |f.feeCurrency.value| > 0 then map[f.feeCurrency.value := f.fee.value]
            else map["unknown" := f.fee.value]
  {
    hide Sum;
    SumOne(f, FeeIn(FeeCurrency(f)));
    assert Currencies([f]) == if f.fee.Some? then {FeeCurrency(f)} else {} by {
      assert f in [f];
    }
  }

  lemma FeeStep(fs: seq<Fill>, f: Fill)
    ensures FeeTotals(fs + [f]) == AddFee(FeeTotals(fs), f)
  {
    hide FeeTotals;
    FeesConcat(fs, [f]);
    OneFee(f);
  }

  // ---------------------------------------------------------------- the projection

  predicate SymbolMismatch(symbol: string, fills: seq<Fill>, baseline: Option<Baseline>) {
    (baseline.Some? && baseline.value.symbol != symbol) || exists f | f in fills :: f.symbol != symbol
  }

  function Withheld(symbol: string, reasons: set<string>, count: nat): Projection {
    Projection(symbol, None, reasons, count, map[], false)
  }

  /** What the projection of `fills` over `baseline` is, stated without loops or groups. */
  ghost function Project(
    symbol: string, fills: seq<Fill>, baseline: Option<Baseline>, coverage: seq<string>
  ): Result<Projection>
  {
    var given := set r | r in coverage;
    if SymbolMismatch(symbol, fills, baseline) then Failure(SYMBOL_MISMATCH)
    else if baseline.None? then Success(Withheld(symbol, given + {OPENING_UNKNOWN}, |fills|))
    else
      var rel := Relevant(fills, baseline.value);
      var reasons := given + if Ambiguous(baseline.value.quantity, rel) then {ORDER_AMBIGUOUS} else {};
      if reasons != {} then Success(Withheld(symbol, reasons, |rel|))
      else
        var position := Run(Opening(baseline.value), rel);
        Success(Projection(symbol, Some(position), {}, |rel|, FeeTotals(rel), FeesCovered(rel)))
  }

  // ---------------------------------------------------------------- the loops

  lemma TwoValues<T>(s: set<T>)
    ensures |s| > 1 <==> exists x, y | x in s && y in s :: x != y
  {
    if |s| > 1 {
      var x :| x in s;
      assert |s - {x}| > 0;
      var y :| y in s - {x};
      assert x in s && y in s && x != y;
    }
    if x, y :| x in s && y in s && x != y {
      assert {x, y} <= s;
      assert s == {x, y} + (s - {x, y});
    }
  }

  /** The test the first loop applies to one group. */
  method GroupTest(inventory: real, group: seq<Fill>) returns (flagged: bool, signed: real)
    ensures signed == Net(group)
    ensures flagged <==> GroupAmbiguous(inventory, group)
  {
    var sides := set f | f in group :: f.side;
    var prices := set f | f in group :: f.price;
    signed := 0.0;
    for i := 0 to |group|
      invariant signed == Net(group[..i])
    {
      assert group[..i + 1][..i] == group[..i];
      signed := signed + (if group[i].side.Buy? then group[i].size else -group[i].size);
    }
    assert group[..|group|] == group;
    flagged := |sides| > 1 || (inventory * signed < 0.0 && Abs(signed) > Abs(inventory) && |prices| > 1);
    assert |sides| > 1 <==> TwoSided(group) by {
      TwoValues(sides);
      if TwoSided(group) {
        var f, h :| f in group && h in group && f.side != h.side;
        assert f.side in sides && h.side in sides;
      }
    }
    assert |prices| > 1 <==> ManyPrices(group) by {
      TwoValues(prices);
      if ManyPrices(group) {
        var f, h :| f in group && h in group && f.price != h.price;
        assert f.price in prices && h.price in prices;
      }
    }
  }

  ghost predicate HasTime(fs: seq<Fill>, t: int) {
    exists f | f in fs :: f.time == t
  }

  /** `times` lists, ascending and once each, the timestamps at which `fs` has a group. */
  ghost predicate Stamps(fs: seq<Fill>, times: seq<int>) {
    && (forall i, j | 0 <= i < j < |times| :: times[i] < times[j])
    && (forall f | f in fs :: f.time in times)
    && (forall t | t in times :: HasTime(fs, t))
  }

  ghost predicate Grouped(fs: seq<Fill>, times: seq<int>, byTime: map<int, seq<Fill>>) {
    && Stamps(fs, times)
    && (forall t :: t in byTime <==> t in times)
    && (forall t | t in byTime :: byTime[t] == At(fs, t))
  }

  /** The first loop's dictionary: one entry per timestamp, in order of first appearance. */
  method GroupByTime(relevant: seq<Fill>) returns (times: seq<int>, byTime: map<int, seq<Fill>>)
    requires TimeSorted(relevant)
    ensures Grouped(relevant, times, byTime)
  {
    times, byTime := [], map[];
    for i := 0 to |relevant|
      invariant Grouped(relevant[..i], times, byTime)
    {
      hide Grouped, At;
      var f := relevant[i];
      assert relevant[..i + 1] == relevant[..i] + [f];
      GroupedStep(relevant[..i], f, times, byTime);
      var group := if f.time in byTime then byTime[f.time] else [];
      times := if f.time in byTime then times else times + [f.time];
      byTime := byTime[f.time := group + [f]];
    }
    assert relevant[..|relevant|] == relevant;
  }

  lemma GroupedStep(done: seq<Fill>, f: Fill, times: seq<int>, byTime: map<int, seq<Fill>>)
    requires Grouped(done, times, byTime) && forall h | h in done :: h.time <= f.time
    ensures Grouped(
              done + [f],
              if f.time in byTime then times else times + [f.time],
              byTime[f.time := (if f.time in byTime then byTime[f.time] else []) + [f]])
  {
    hide At, Stamps;
    GroupsStep(done, f);
    if f.time in byTime {
      StampsKeep(done, f, times);
    } else {
      StampsAppend(done, f, times);
      NoGroupYet(done, f.time, times);
    }
  }

  lemma GroupsStep(done: seq<Fill>, f: Fill)
    ensures forall t: int :: At(done + [f], t) == At(done, t) + if f.time == t then [f] else []
  {
  }

  lemma NoGroupYet(done: seq<Fill>, t: int, times: seq<int>)
    requires Stamps(done, times) && t !in times
    ensures At(done, t) == []
  {
    hide Filter;
    FilterNone(done, IsAt(t));
  }

  lemma TimeKept(done: seq<Fill>, f: Fill, t: int)
    ensures HasTime(done, t) ==> HasTime(done + [f], t)
    ensures HasTime(done + [f], f.time)
  {
  }

  lemma StampsAppend(done: seq<Fill>, f: Fill, times: seq<int>)
    requires Stamps(done, times) && f.time !in times && forall h | h in done :: h.time <= f.time
    ensures Stamps(done + [f], times + [f.time])
  {
    var stamps := times + [f.time];
    forall t | t in stamps ensures HasTime(done + [f], t) && (t == f.time || t < f.time) {
      TimeKept(done, f, t);
    }
    hide HasTime;
    forall i, j | 0 <= i < j < |stamps| ensures stamps[i] < stamps[j] {
      assert stamps[i] in times;
    }
  }

  lemma StampsKeep(done: seq<Fill>, f: Fill, times: seq<int>)
    requires Stamps(done, times) && f.time in times
    ensures Stamps(done + [f], times)
  {
  }

  lemma FirstInventory(fs: seq<Fill>, times: seq<int>)
    requires Stamps(fs, times) && times != []
    ensures Net(Before(fs, times[0])) == 0.0
  {
    forall f | f in fs ensures times[0] <= f.time {
      var j :| 0 <= j < |times| && times[j] == f.time;
    }
    FilterNone(fs, IsBefore(times[0]));
  }

  /** The inventory the loop carries is what the earlier timestamps left. */
  lemma NextInventory(fs: seq<Fill>, times: seq<int>, k: nat)
    requires Stamps(fs, times) && k + 1 < |times|
    ensures Net(Before(fs, times[k + 1])) == Net(Before(fs, times[k])) + Net(At(fs, times[k]))
  {
    hide Sum, Filter;
    forall f | f in fs ensures !(times[k] < f.time < times[k + 1]) {
      var j :| 0 <= j < |times| && times[j] == f.time;
    }
    FilterSum(fs, IsBefore(times[k]), IsAt(times[k]), IsBefore(times[k + 1]), Signed);
  }

  lemma NothingElseFlagged(quantity: real, fs: seq<Fill>, times: seq<int>, t: int)
    requires Stamps(fs, times) && t !in times
    ensures !FlaggedAt(quantity, fs, t)
  {
    FilterNone(fs, IsAt(t));
    EmptyGroup(quantity + Net(Before(fs, t)));
  }

  ghost predicate FlaggedAmong(quantity: real, fs: seq<Fill>, times: seq<int>) {
    exists j | 0 <= j < |times| :: FlaggedAt(quantity, fs, times[j])
  }

  lemma FlaggedAmongStamps(quantity: real, fs: seq<Fill>, times: seq<int>)
    requires Stamps(fs, times)
    ensures FlaggedAmong(quantity, fs, times) <==> Ambiguous(quantity, fs)
  {
    hide FlaggedAt;
    if Ambiguous(quantity, fs) {
      var t :| FlaggedAt(quantity, fs, t);
      if t !in times {
        NothingElseFlagged(quantity, fs, times, t);
      }
    }
  }

  lemma FlaggedAmongNext(quantity: real, fs: seq<Fill>, times: seq<int>, k: nat)
    requires k < |times|
    ensures FlaggedAmong(quantity, fs, times[..k + 1]) <==>
            FlaggedAmong(quantity, fs, times[..k]) || FlaggedAt(quantity, fs, times[k])
  {
  }

  /** The first loop: does any timestamp's group depend on its unknown order? */
  method AnyAmbiguous(quantity: real, relevant: seq<Fill>) returns (flagged: bool)
    requires TimeSorted(relevant)
    ensures flagged <==> Ambiguous(quantity, relevant)
  {
    hide Stamps, Net, At, Before, GroupAmbiguous, FlaggedAmong;
    var times, byTime := GroupByTime(relevant);
    var inventory := quantity;
    flagged := false;
    if times != [] {
      FirstInventory(relevant, times);
    }
    NoneFlaggedYet(quantity, relevant);
    for k := 0 to |times|
      invariant k < |times| ==> inventory == quantity + Net(Before(relevant, times[k]))
      invariant flagged <==> FlaggedAmong(quantity, relevant, times[..k])
    {
      assert times[k] in times;
      var one, signed := GroupTest(inventory, byTime[times[k]]);
      FlaggedAmongNext(quantity, relevant, times, k);
      flagged := flagged || one;
      inventory := inventory + signed;
      if k + 1 < |times| {
        NextInventory(relevant, times, k);
      }
    }
    assert times[..|times|] == times;
    FlaggedAmongStamps(quantity, relevant, times);
  }

  lemma NoneFlaggedYet(quantity: real, fs: seq<Fill>)
    ensures !FlaggedAmong(quantity, fs, [])
  {
  }

  lemma RunLast(p: Position, fs: seq<Fill>, f: Fill)
    ensures Run(p, fs + [f]) == Step(Run(p, fs), f)
  {
    hide Step;
    assert (fs + [f])[..|fs|] == fs;
  }

  /** The branches of the second loop's body. */
  method Book(quantity: real, entry: real, realized: real, f: Fill)
    returns (quantity': real, entry': real, realized': real)
    ensures Position(quantity', entry', realized') == Step(Position(quantity, entry, realized), f)
  {
    entry', realized' := entry, realized;
    var signed := if f.side.Buy? then f.size else -f.size;
    if quantity == 0.0 || (quantity > 0.0) == (signed > 0.0) {
      entry' := (Abs(quantity) * entry + f.size * f.price) / (Abs(quantity) + f.size);
    } else {
      var closed := Min(Abs(quantity), f.size);
      var sign := if quantity > 0.0 then 1.0 else -1.0;
      realized' := realized + closed * (f.price - entry) * sign;
      assert sign == Direction(quantity);
      if f.size > Abs(quantity) {
        entry' := f.price;
      } else if f.size == Abs(quantity) {
        entry' := 0.0;
      }
    }
    quantity' := quantity + signed;
    var n := Step(Position(quantity, entry, realized), f);
    assert quantity' == n.quantity;
    assert realized' == n.realized;
    assert entry' == n.entry;
  }

  method BookFee(fees: map<string, real>, f: Fill) returns (fees': map<string, real>)
    ensures fees' == AddFee(fees, f)
  {
    fees' := fees;
    if f.fee.Some? {
      var currency := FeeCurrency(f);
      fees' := fees[currency := (if currency in fees then fees[currency] else 0.0) + f.fee.value];
    }
  }

  lemma NothingBooked(p: Position)
    ensures Run(p, []) == p && FeeTotals([]) == map[]
  {
  }

  /** The second loop: quantity, entry, realized PnL and fees, one fill at a time. */
  method Account(opening: Position, relevant: seq<Fill>)
    returns (quantity: real, entry: real, realized: real, fees: map<string, real>)
    ensures Position(quantity, entry, realized) == Run(opening, relevant)
    ensures fees == FeeTotals(relevant)
  {
    hide FeeTotals, Run, Step, AddFee;
    quantity, entry, realized := opening.quantity, opening.entry, opening.realized;
    fees := map[];
    NothingBooked(opening);
    assert relevant[..0] == [];
    for i := 0 to |relevant|
      invariant Position(quantity, entry, realized) == Run(opening, relevant[..i])
      invariant fees == FeeTotals(relevant[..i])
    {
      var f := relevant[i];
      assert relevant[..i + 1] == relevant[..i] + [f];
      FeeStep(relevant[..i], f);
      RunLast(opening, relevant[..i], f);
      quantity, entry, realized := Book(quantity, entry, realized, f);
      fees := BookFee(fees, f);
    }
    assert relevant[..|relevant|] == relevant;
  }

  /** `project_position` with its two loops. */
  method ProjectPosition(symbol: string, fills: seq<Fill>, baseline: Option<Baseline>, coverage: seq<string>)
    returns (r: Result<Projection>)
    ensures r == Project(symbol, fills, baseline, coverage)
  {
    hide Run, Sorted, Ambiguous, FeeTotals, FeesCovered;
    if SymbolMismatch(symbol, fills, baseline) {
      return Failure(SYMBOL_MISMATCH);
    }
    var reasons := set x | x in coverage;
    if baseline.None? {
      return Success(Withheld(symbol, reasons + {OPENING_UNKNOWN}, |fills|));
    }
    var relevant := Relevant(fills, baseline.value);
    SortedSorts(After(fills, baseline.value.effectiveAt));
    var flagged := AnyAmbiguous(baseline.value.quantity, relevant);
    if flagged {
      reasons := reasons + {ORDER_AMBIGUOUS};
    } else {
      assert reasons == reasons + {};
    }
    if reasons != {} {
      return Success(Withheld(symbol, reasons, |relevant|));
    }
    var quantity, entry, realized, fees := Account(Opening(baseline.value), relevant);
    var position := Position(quantity, entry, realized);
    return Success(Projection(symbol, Some(position), {}, |relevant|, fees, FeesCovered(relevant)));
  }
}
