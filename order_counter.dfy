/** The quantity panel of script.js: per dish a count and a minus button that may be
    disabled, a fixed unit price, and the displayed total. The plus, minus and submit
    click handlers and `calculateTotal` change this state in place. Prices and the total
    are integer cents. */
module OrderCounter {

  /** The sum of count times price over all dishes, accumulated first to last as
      `calculateTotal` does. */
  function OrderTotal(counts: seq<int>, prices: seq<int>): int
    requires |counts| == |prices|
    decreases |counts|
  {
    if counts == [] then 0
    else OrderTotal(counts[..|counts| - 1], prices[..|prices| - 1]) + counts[|counts| - 1] * prices[|prices| - 1]
  }

  /** Changing one count to `v` moves the total by `(v - old count)` times that dish's price. */
  lemma {:induction false} OrderTotalUpdate(counts: seq<int>, prices: seq<int>, i: int, v: int)
    requires |counts| == |prices| && 0 <= i < |counts|
    ensures OrderTotal(counts[i := v], prices) == OrderTotal(counts, prices) + (v - counts[i]) * prices[i]
    decreases |counts|
  {
    var n := |counts|;
    var c' := counts[i := v];
    if i == n - 1 {
      assert c'[..n - 1] == counts[..n - 1];
    } else {
      assert c'[..n - 1] == counts[..n - 1][i := v];
      OrderTotalUpdate(counts[..n - 1], prices[..n - 1], i, v);
    }
  }

  /** With every count at zero the total is zero. */
  lemma {:induction false} OrderTotalOfZeros(counts: seq<int>, prices: seq<int>)
    requires |counts| == |prices|
    requires forall k :: 0 <= k < |counts| ==> counts[k] == 0
    ensures OrderTotal(counts, prices) == 0
    decreases |counts|
  {
    if counts != [] {
      OrderTotalOfZeros(counts[..|counts| - 1], prices[..|prices| - 1]);
    }
  }

  /** With positive prices and counts that are not negative, the total is zero exactly
      when nothing is ordered, so submit refuses exactly the empty order. */
  lemma {:induction false} ZeroTotalIffNothingOrdered(counts: seq<int>, prices: seq<int>)
    requires |counts| == |prices|
    requires forall k :: 0 <= k < |counts| ==> counts[k] >= 0 && prices[k] > 0
    ensures OrderTotal(counts, prices) >= 0
    ensures OrderTotal(counts, prices) == 0 <==> forall k :: 0 <= k < |counts| ==> counts[k] == 0
    decreases |counts|
  {
    if counts != [] {
      var n := |counts|;
      ZeroTotalIffNothingOrdered(counts[..n - 1], prices[..n - 1]);
      assert counts[n - 1] * prices[n - 1] >= 0;
      if counts[n - 1] == 0 {
        assert forall k :: 0 <= k < n - 1 ==> counts[..n - 1][k] == counts[k];
      } else {
        assert counts[n - 1] * prices[n - 1] > 0;
      }
    }
  }

  /** Two of the 88.00 dish and one of the 38.00 dish come to 214.00. */
  lemma TotalExample()
    ensures OrderTotal([2, 1], [8800, 3800]) == 21400
  {
    assert [2, 1][..1] == [2] && [8800, 3800][..1] == [8800];
    assert [2][..0] == [] && [8800][..0] == [];
  }

  class OrderPanel {
    /** The unit price of each dish, read from its `.dish-price` input. */
    const prices: seq<int>
    /** The number in each dish's `.count` element. */
    const counts: array<int>
    /** Whether each dish's minus button is disabled. */
    const minusDisabled: array<bool>
    /** The amount shown in `#total-price`. */
    var total: int

    ghost predicate Shaped()
      reads this
    {
      counts.Length == |prices| && minusDisabled.Length == |prices|
    }

    /** The panel's invariant: counts are not negative, a minus button is disabled
        exactly when its count is zero, and the total shown is the order's total. */
    ghost predicate Valid()
      reads this, counts, minusDisabled
    {
      && Shaped()
      && (forall k :: 0 <= k < counts.Length ==> counts[k] >= 0 && (minusDisabled[k] <==> counts[k] == 0))
      && total == OrderTotal(counts[..], prices)
    }

    /** Page load: the counts and the total are what the markup shows, and every minus
        button starts disabled. The invariant holds from the start when the markup
        shows no dish ordered and a total of zero. */
    constructor (prices: seq<int>, initialCounts: seq<int>, shownTotal: int)
      requires |initialCounts| == |prices|
      ensures this.prices == prices && Shaped() && fresh(counts) && fresh(minusDisabled)
      ensures counts[..] == initialCounts && total == shownTotal
      ensures forall k :: 0 <= k < minusDisabled.Length ==> minusDisabled[k]
      ensures (forall k :: 0 <= k < |initialCounts| ==> initialCounts[k] == 0) && shownTotal == 0 ==> Valid()
    {
      var n := |prices|;
      var disabled := new bool[n];
      for i := 0 to n
        invariant forall k :: 0 <= k < i ==> disabled[k]
      {
        disabled[i] := true;
      }
      var c := new int[n](k requires 0 <= k < n => initialCounts[k]);
      this.prices := prices;
      counts := c;
      minusDisabled := disabled;
      total := shownTotal;
      new;
      assert counts[..] == initialCounts;
      if (forall k :: 0 <= k < |initialCounts| ==> initialCounts[k] == 0) && shownTotal == 0 {
        OrderTotalOfZeros(counts[..], prices);
      }
    }

    /** The loop of `calculateTotal`: the sum of count times price over all dishes. */
    method SumTotal() returns (t: int)
      requires Shaped()
      ensures t == OrderTotal(counts[..], prices)
    {
      t := 0;
      for i := 0 to counts.Length
        invariant t == OrderTotal(counts[..i], prices[..i])
      {
        assert counts[..i + 1][..i] == counts[..i] && prices[..i + 1][..i] == prices[..i];
        t := t + counts[i] * prices[i];
      }
      assert counts[..counts.Length] == counts[..] && prices[..counts.Length] == prices;
    }

    /** `calculateTotal()`: shows the order's total. */
    method CalculateTotal()
      requires Shaped()
      modifies this
      ensures total == OrderTotal(counts[..], prices)
    {
      total := SumTotal();
    }

    /** The plus handler of dish `i`: its count goes up by one, its minus button is
        enabled, and the total is recomputed. */
    method Plus(i: nat)
      requires Shaped() && i < |prices|
      modifies this, counts, minusDisabled
      ensures counts[..] == old(counts[..])[i := old(counts[i]) + 1]
      ensures minusDisabled[..] == old(minusDisabled[..])[i := false]
      ensures total == OrderTotal(counts[..], prices)
      ensures old(Valid()) ==> Valid() && total == old(total) + prices[i]
    {
      ghost var before := counts[..];
      var count := counts[i];
      count := count + 1;
      counts[i] := count;
      minusDisabled[i] := false;
      CalculateTotal();
      assert counts[..] == before[i := before[i] + 1];
      OrderTotalUpdate(before, prices, i, before[i] + 1);
    }

    /** The minus handler of dish `i`: nothing happens at a count of zero or below;
        otherwise the count goes down by one, the minus button is disabled when it
        reaches zero, and the total is recomputed. */
    method Minus(i: nat)
      requires Shaped() && i < |prices|
      modifies this, counts, minusDisabled
      ensures old(counts[i]) <= 0 ==>
        counts[..] == old(counts[..]) && minusDisabled[..] == old(minusDisabled[..]) && total == old(total)
      ensures old(counts[i]) > 0 ==>
        && counts[..] == old(counts[..])[i := old(counts[i]) - 1]
        && minusDisabled[..] == old(minusDisabled[..])[i := old(counts[i]) == 1 || old(minusDisabled[i])]
        && total == OrderTotal(counts[..], prices)
      ensures old(Valid()) ==> Valid()
      ensures old(Valid()) && old(counts[i]) > 0 ==> total == old(total) - prices[i]
    {
      ghost var before := counts[..];
      var count := counts[i];
      if count > 0 {
        count := count - 1;
        counts[i] := count;
        if count == 0 {
          minusDisabled[i] := true;
        }
        CalculateTotal();
        assert counts[..] == before[i := before[i] - 1];
        OrderTotalUpdate(before, prices, i, before[i] - 1);
      }
    }

    /** The submit handler: a total of zero is refused and nothing changes; otherwise
        every count is set to zero, every minus button disabled and the total shown as
        zero. */
    method Submit() returns (accepted: bool)
      requires Shaped()
      modifies this, counts, minusDisabled
      ensures accepted <==> old(total) != 0
      ensures !accepted ==>
        counts[..] == old(counts[..]) && minusDisabled[..] == old(minusDisabled[..]) && total == old(total)
      ensures accepted ==>
        (forall k :: 0 <= k < counts.Length ==> counts[k] == 0 && minusDisabled[k]) && total == 0
      ensures accepted ==> Valid()
      ensures old(Valid()) ==> Valid()
    {
      if total == 0 {
        return false;
      }
      for i := 0 to counts.Length
        invariant forall k :: 0 <= k < i ==> counts[k] == 0 && minusDisabled[k]
      {
        counts[i] := 0;
        minusDisabled[i] := true;
      }
      total := 0;
      OrderTotalOfZeros(counts[..], prices);
      accepted := true;
    }
  }
}
