/**
 * The stock-number service of the client: the next free number is one more
 * than the largest number found after a final `-` in the listed stock ids
 * (the regular expression `-(\d+)$`).
 */
module StockNumbers {
  import opened Common
  import opened Text
  import opened InventoryRoutes

  /** The longest suffix of decimal digits. */
  function TrailingDigits(s: string): (r: string)
    ensures AllDigits(r) && |r| <= |s| && r == s[|s| - |r|..]
    ensures |r| == |s| || !IsDigit(s[|s| - |r| - 1])
    decreases |s|
  {
    if s != [] && IsDigit(s[|s| - 1]) then
      var r := TrailingDigits(s[..|s| - 1]) + [s[|s| - 1]];
      assert s == s[..|s| - 1] + [s[|s| - 1]];
      r
    else []
  }

  /** The number `-(\d+)$` captures in a stock id, read by parseInt; absent when the id does not match. */
  function SuffixNumber(stockId: string): Option<nat> {
    var d := TrailingDigits(stockId);
    if d != [] && |d| < |stockId| && stockId[|stockId| - |d| - 1] == '-' then Some(DecimalValue(d))
    else None
  }

  /** Only the digits after the final hyphen count, read as decimal with leading zeros ignored. */
  lemma {:induction false} SuffixNumberOf(prefix: string, digits: string)
    requires digits != [] && AllDigits(digits)
    ensures SuffixNumber(prefix + "-" + digits) == Some(DecimalValue(digits))
    decreases |digits|
  {
    var s := prefix + "-" + digits;
    TrailingDigitsOfDigitsSuffix(prefix + "-", digits);
  }

  lemma {:induction false} TrailingDigitsOfDigitsSuffix(front: string, digits: string)
    requires front != [] && !IsDigit(front[|front| - 1]) && AllDigits(digits)
    ensures TrailingDigits(front + digits) == digits
    decreases |digits|
  {
    var s := front + digits;
    if digits == [] {
      assert s == front;
    } else {
      var shorter := digits[..|digits| - 1];
      assert s[..|s| - 1] == front + shorter;
      assert IsDigit(s[|s| - 1]);
      TrailingDigitsOfDigitsSuffix(front, shorter);
      calc {
        TrailingDigits(s);
        TrailingDigits(front + shorter) + [s[|s| - 1]];
        shorter + [digits[|digits| - 1]];
        digits;
      }
    }
  }

  /** An id whose last character is not a digit, or whose final digits do not follow a `-`, does not match. */
  lemma NoSuffixNumber(stockId: string)
    requires stockId == [] || !IsDigit(stockId[|stockId| - 1])
    ensures SuffixNumber(stockId).None?
  {
  }

  /** The largest suffix number over some stock ids, 0 when none matches. */
  function MaxSuffix(ids: seq<string>): (m: nat)
    ensures forall k :: 0 <= k < |ids| && SuffixNumber(ids[k]).Some? ==> SuffixNumber(ids[k]).value <= m
    ensures m == 0 || exists k :: 0 <= k < |ids| && SuffixNumber(ids[k]) == Some(m)
  {
    if ids == [] then 0
    else
      var init := ids[..|ids| - 1];
      var rest := MaxSuffix(init);
      var last := ids[|ids| - 1];
      assert forall k :: 0 <= k < |init| ==> init[k] == ids[k];
      match SuffixNumber(last)
      case None => rest
      case Some(n) => if n > rest then n else rest
  }

  /** Which stock ids are listed, not their order or repetition, decides the next number. */
  lemma MaxSuffixOrderIndependent(a: seq<string>, b: seq<string>)
    requires forall x :: x in a <==> x in b
    ensures MaxSuffix(a) == MaxSuffix(b)
  {
    MaxSuffixMonotone(a, b);
    MaxSuffixMonotone(b, a);
  }

  /** Listing more stock ids never lowers the maximum. */
  lemma MaxSuffixMonotone(a: seq<string>, b: seq<string>)
    requires forall x :: x in a ==> x in b
    ensures MaxSuffix(a) <= MaxSuffix(b)
  {
    var ma := MaxSuffix(a);
    if ma != 0 {
      var k :| 0 <= k < |a| && SuffixNumber(a[k]) == Some(ma);
      assert a[k] in b;
      var j :| 0 <= j < |b| && b[j] == a[k];
      assert SuffixNumber(b[j]) == Some(ma);
    }
  }

  /** One more id folds into the maximum like one step of the loop. */
  lemma MaxSuffixStep(ids: seq<string>, i: nat)
    requires i < |ids|
    ensures MaxSuffix(ids[..i + 1]) ==
      match SuffixNumber(ids[i])
      case None => MaxSuffix(ids[..i])
      case Some(n) => if n > MaxSuffix(ids[..i]) then n else MaxSuffix(ids[..i])
  {
    assert ids[..i + 1][..i] == ids[..i];
  }

  function StockIds(stocks: seq<ListingRow>): (ids: seq<string>)
    ensures |ids| == |stocks| && forall k :: 0 <= k < |stocks| ==> ids[k] == stocks[k].stockId
  {
    seq(|stocks|, k requires 0 <= k < |stocks| => stocks[k].stockId)
  }

  /**
   * `getNextStockNumber` over the listed stocks: a running maximum of the
   * suffix numbers, plus one.
   */
  method NextStockNumber(stocks: seq<ListingRow>) returns (next: nat)
    ensures next == MaxSuffix(StockIds(stocks)) + 1
  {
    ghost var ids := StockIds(stocks);
    var maxNumber := 0;
    var i := 0;
    while i < |stocks|
      invariant 0 <= i <= |stocks|
      invariant maxNumber == MaxSuffix(ids[..i])
    {
      MaxSuffixStep(ids, i);
      var found := SuffixNumber(stocks[i].stockId);
      if found.Some? {
        maxNumber := if found.value > maxNumber then found.value else maxNumber;
      }
      i := i + 1;
    }
    assert ids[..i] == ids;
    next := maxNumber + 1;
  }

  /** The next number is at least 1, above every parsed suffix, and one more than the largest when any matches. */
  lemma NextStockNumberBounds(stocks: seq<ListingRow>)
    ensures var next := MaxSuffix(StockIds(stocks)) + 1;
      && next >= 1
      && (forall k :: 0 <= k < |stocks| && SuffixNumber(stocks[k].stockId).Some? ==> SuffixNumber(stocks[k].stockId).value < next)
      && ((forall k :: 0 <= k < |stocks| ==> SuffixNumber(stocks[k].stockId).None?) ==> next == 1)
  {
    var ids := StockIds(stocks);
    var m := MaxSuffix(ids);
    if m != 0 {
      var k :| 0 <= k < |ids| && SuffixNumber(ids[k]) == Some(m);
    }
  }
}
