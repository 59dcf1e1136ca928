/** Construction of fill facts from text, and what their canonical texts may stand for. */
module FillFacts {
  import opened Wrappers
  import opened Decimals
  import opened Fills
  import OrderIndependence
  import Projections

  datatype FillFact = FillFact(
    fillId: string, orderId: string, symbol: string, side: string,
    quantity: string, price: string, time: int,
    fee: Option<string>, feeCurrency: Option<string>)

  /** `decimal_value`. */
  function DecimalValue(text: string, positive: bool): Result<Decimal> {
    var d := Parse(text);
    if d.None? || (positive && Value(d.value) <= 0.0) then Failure("Invalid accounting decimal") else Success(d.value)
  }

  /** `FillFact.__post_init__`: reject bad identity or numbers, respell the numbers canonically. */
  function Construct(raw: FillFact): Result<FillFact> {
    if raw.fillId == "" || raw.orderId == "" || raw.symbol == "" || raw.side !in {"buy", "sell"} then
      Failure("Fill requires identity, symbol and explicit side")
    else
      var quantity, price := DecimalValue(raw.quantity, true), DecimalValue(raw.price, true);
      var fee := if raw.fee.Some? then DecimalValue(raw.fee.value, false) else Success(Decimal(false, 0, 0));
      if quantity.Failure? then Failure(quantity.error)
      else if price.Failure? then Failure(price.error)
      else if fee.Failure? then Failure(fee.error)
      else Success(raw.(
        quantity := Text(quantity.value),
        price := Text(price.value),
        fee := if raw.fee.Some? then Some(Text(fee.value)) else None))
  }

  ghost predicate Constructed(f: FillFact) {
    exists raw :: Construct(raw) == Success(f)
  }

  lemma CanonicalAgain(d: Decimal, positive: bool)
    requires positive ==> Value(d) > 0.0
    ensures var r := DecimalValue(Text(d), positive);
            r.Success? && Text(r.value) == Text(d) && Value(r.value) == Value(d)
  {
    hide Text, Value, Parse;
    RoundTrip(d);
    NormaliseAgain(d);
  }

  /** Constructing a fact again from its own texts is the identity. */
  lemma ConstructAgain(f: FillFact)
    requires Constructed(f)
    ensures Construct(f) == Success(f)
  {
    hide Text, Value, Parse;
    var raw :| Construct(raw) == Success(f);
    CanonicalAgain(DecimalValue(raw.quantity, true).value, true);
    CanonicalAgain(DecimalValue(raw.price, true).value, true);
    if raw.fee.Some? {
      CanonicalAgain(DecimalValue(raw.fee.value, false).value, false);
    }
  }

  /** The text spells a finite decimal, and a positive one where that is asked for. */
  predicate Spells(text: string, positive: bool) {
    Parse(text).Some? && (positive ==> Value(Parse(text).value) > 0.0)
  }

  /**
   * Construction succeeds exactly for named fills with a side and numbers that spell what they
   * should; it keeps everything but the spelling, and every number keeps its value.
   */
  lemma ConstructExactlyWhen(raw: FillFact)
    ensures Construct(raw).Success? <==>
            && |raw.fillId| > 0 && |raw.orderId| > 0 && |raw.symbol| > 0
            && (raw.side == "buy" || raw.side == "sell")
            && Spells(raw.quantity, true) && Spells(raw.price, true)
            && (raw.fee.Some? ==> Spells(raw.fee.value, false))
    ensures Construct(raw).Success? ==>
              var f := Construct(raw).value;
              && f == raw.(quantity := f.quantity, price := f.price, fee := f.fee)
              && Amount(f.quantity) == Amount(raw.quantity) && Amount(f.price) == Amount(raw.price)
              && f.fee.Some? == raw.fee.Some?
              && (f.fee.Some? ==> Amount(f.fee.value) == Amount(raw.fee.value))
  {
    hide Text, Value, Parse;
    if Construct(raw).Success? {
      CanonicalAgain(DecimalValue(raw.quantity, true).value, true);
      CanonicalAgain(DecimalValue(raw.price, true).value, true);
      if raw.fee.Some? {
        CanonicalAgain(DecimalValue(raw.fee.value, false).value, false);
      }
    }
  }

  function Amount(text: string): real {
    var d := Parse(text);
    if d.Some? then Value(d.value) else 0.0
  }

  /** The numbers a constructed fact spells. */
  ghost function Decode(f: FillFact): Fill
    requires Constructed(f)
  {
    ConstructedPositive(f);
    FillRecord(f.fillId, f.orderId, f.symbol, if f.side == "buy" then Buy else Sell,
      Amount(f.quantity), Amount(f.price), f.time,
      if f.fee.Some? then Some(Amount(f.fee.value)) else None, f.feeCurrency)
  }

  lemma ConstructedPositive(f: FillFact)
    requires Constructed(f)
    ensures Amount(f.quantity) > 0.0 && Amount(f.price) > 0.0
  {
    hide Text, Value, Parse;
    ConstructAgain(f);
  }

  /** A constructed price text is the canonical text of its own value. */
  lemma PriceIsCanonical(f: FillFact) returns (d: Decimal)
    requires Constructed(f)
    ensures f.price == Text(d) && Amount(f.price) == Value(d)
  {
    hide Text, Value, Parse;
    ConstructAgain(f);
    d := DecimalValue(f.price, true).value;
  }

  /** Comparing constructed price texts is comparing prices. */
  lemma PriceTextsDecide(f: FillFact, h: FillFact)
    requires Constructed(f) && Constructed(h)
    ensures f.price == h.price <==> Decode(f).price == Decode(h).price
  {
    hide Text, Value, Parse;
    var a := PriceIsCanonical(f);
    var b := PriceIsCanonical(h);
    TextIdentifiesValue(a, b);
  }

  ghost function DecodeAll(g: seq<FillFact>): seq<Fill>
    requires forall f | f in g :: Constructed(f)
  {
    seq(|g|, i requires 0 <= i < |g| => Decode(g[i]))
  }

  /** The source's test on the set of price texts decides whether the group has several prices. */
  lemma PriceSetTest(g: seq<FillFact>)
    requires forall f | f in g :: Constructed(f)
    ensures |set f | f in g :: f.price| > 1 <==> OrderIndependence.ManyPrices(DecodeAll(g))
  {
    hide Constructed, Decode;
    var prices, fills := set f | f in g :: f.price, DecodeAll(g);
    Projections.TwoValues(prices);
    if x, y :| x in prices && y in prices && x != y {
      var i :| 0 <= i < |g| && g[i].price == x;
      var j :| 0 <= j < |g| && g[j].price == y;
      PriceTextsDecide(g[i], g[j]);
      assert fills[i] in fills && fills[j] in fills;
    }
    if f, h :| f in fills && h in fills && f.price != h.price {
      var i :| 0 <= i < |fills| && fills[i] == f;
      var j :| 0 <= j < |fills| && fills[j] == h;
      PriceTextsDecide(g[i], g[j]);
      assert g[i].price in prices && g[j].price in prices;
    }
  }

  /** The source's signed sum over a group, from the texts. */
  function SignedTotal(g: seq<FillFact>): real {
    if g == [] then 0.0
    else
      var f := g[|g| - 1];
      SignedTotal(g[..|g| - 1]) + Amount(f.quantity) * (if f.side == "buy" then 1.0 else -1.0)
  }

  lemma {:induction false} SignedTotalIsNet(g: seq<FillFact>)
    requires forall f | f in g :: Constructed(f)
    ensures SignedTotal(g) == Net(DecodeAll(g))
  {
    hide Constructed, Amount;
    if g != [] {
      var n := |g| - 1;
      SignedTotalIsNet(g[..n]);
      assert DecodeAll(g)[..n] == DecodeAll(g[..n]);
      assert g[n] in g;
    }
  }

  lemma SideSetTest(g: seq<FillFact>)
    requires forall f | f in g :: Constructed(f)
    ensures |set f | f in g :: f.side| > 1 <==> OrderIndependence.TwoSided(DecodeAll(g))
  {
    hide Constructed, Decode;
    var sides, fills := set f | f in g :: f.side, DecodeAll(g);
    Projections.TwoValues(sides);
    if x, y :| x in sides && y in sides && x != y {
      var i :| 0 <= i < |g| && g[i].side == x;
      var j :| 0 <= j < |g| && g[j].side == y;
      SideTextsDecide(g[i], g[j]);
      assert fills[i] in fills && fills[j] in fills;
    }
    if f, h :| f in fills && h in fills && f.side != h.side {
      var i :| 0 <= i < |fills| && fills[i] == f;
      var j :| 0 <= j < |fills| && fills[j] == h;
      SideTextsDecide(g[i], g[j]);
      assert g[i].side in sides && g[j].side in sides;
    }
  }

  lemma SideTextsDecide(f: FillFact, h: FillFact)
    requires Constructed(f) && Constructed(h)
    ensures f.side == h.side <==> Decode(f).side == Decode(h).side
  {
    hide Text, Value, Parse, Amount;
  }

  /** The source's ambiguity test, on the texts of a group, decides the test on what they spell. */
  lemma TextGroupTest(inventory: real, g: seq<FillFact>)
    requires forall f | f in g :: Constructed(f)
    ensures var sides, signed, prices := set f | f in g :: f.side, SignedTotal(g), set f | f in g :: f.price;
            |sides| > 1 || (inventory * signed < 0.0 && Abs(signed) > Abs(inventory) && |prices| > 1) <==>
            OrderIndependence.GroupAmbiguous(inventory, DecodeAll(g))
  {
    hide Constructed, Decode;
    SideSetTest(g);
    SignedTotalIsNet(g);
    PriceSetTest(g);
  }
}
