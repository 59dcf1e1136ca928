/** Execution facts and the groups that share a timestamp. */
module Fills {
  import opened Wrappers
  import opened Sequences

  datatype Side = Buy | Sell

  datatype FillRecord = FillRecord(
    fillId: string, orderId: string, symbol: string, side: Side,
    size: real, price: real, time: int,
    fee: Option<real>, feeCurrency: Option<string>)

  /** A fill that passed construction: quantity and price are positive. */
  type Fill = f: FillRecord | f.size > 0.0 && f.price > 0.0
    witness FillRecord("f", "o", "s", Buy, 1.0, 1.0, 0, None, None)

  function Abs(x: real): real {
    if x < 0.0 then -x else x
  }

  function Signed(f: Fill): real {
    if f.side.Buy? then f.size else -f.size
  }

  function SizeOf(f: Fill): real {
    f.size
  }

  function NotionalOf(f: Fill): real {
    f.size * f.price
  }

  function Net(fs: seq<Fill>): real {
    Sum(fs, Signed)
  }

  // ---------------------------------------------------------------- groups by time

  function IsAt(t: int): Fill -> bool { (f: Fill) => f.time == t }
  function IsBefore(t: int): Fill -> bool { (f: Fill) => f.time < t }
  function IsUpTo(t: int): Fill -> bool { (f: Fill) => f.time <= t }
  function IsAfter(t: int): Fill -> bool { (f: Fill) => f.time > t }

  /** The fills stamped exactly `t`: one group of the source's `by_time`. */
  function At(fs: seq<Fill>, t: int): seq<Fill> { Filter(fs, IsAt(t)) }
  function Before(fs: seq<Fill>, t: int): seq<Fill> { Filter(fs, IsBefore(t)) }
  function UpTo(fs: seq<Fill>, t: int): seq<Fill> { Filter(fs, IsUpTo(t)) }
  function After(fs: seq<Fill>, t: int): seq<Fill> { Filter(fs, IsAfter(t)) }

  // ---------------------------------------------------------------- time order

  ghost predicate TimeSorted(fs: seq<Fill>) {
    forall i, j | 0 <= i < j < |fs| :: fs[i].time <= fs[j].time
  }

  /** A linear order of the fills in `fs` that respects their timestamps. */
  ghost predicate TimeOrderOf(order: seq<Fill>, fs: seq<Fill>) {
    TimeSorted(order) && multiset(order) == multiset(fs)
  }

  lemma SameElements(a: seq<Fill>, b: seq<Fill>)
    requires multiset(a) == multiset(b)
    ensures forall f :: f in a <==> f in b
  {
    forall f ensures f in a <==> f in b {
      assert f in a <==> f in multiset(a);
      assert f in b <==> f in multiset(b);
    }
  }

  lemma {:induction false} FilterSorted(fs: seq<Fill>, keep: Fill -> bool)
    requires TimeSorted(fs)
    ensures TimeSorted(Filter(fs, keep))
  {
    if fs != [] {
      var n := |fs| - 1;
      FilterSorted(fs[..n], keep);
      FilterMember(fs[..n], keep);
      var r := Filter(fs[..n], keep);
      forall i | 0 <= i < |r| ensures r[i].time <= fs[n].time {
        assert r[i] in r;
      }
    }
  }

  lemma SortedSplit(fs: seq<Fill>, t: int)
    requires TimeSorted(fs)
    ensures fs == UpTo(fs, t) + After(fs, t)
  {
    var k := 0;
    while k < |fs| && fs[k].time <= t
      invariant k <= |fs|
      invariant forall i | 0 <= i < k :: fs[i].time <= t
    {
      k := k + 1;
    }
    var a, b := fs[..k], fs[k..];
    assert fs == a + b;
    FilterParts(a, b, IsUpTo(t), IsAfter(t));
  }

  /** In time order, the earliest group comes first and everything later follows. */
  lemma FirstGroup(fs: seq<Fill>, t: int)
    requires TimeSorted(fs) && forall f | f in fs :: t <= f.time
    ensures fs == At(fs, t) + After(fs, t)
  {
    SortedSplit(fs, t);
    FilterEqual(fs, IsUpTo(t), IsAt(t));
  }
}
