/**
 * The totals engine (`compute_totals`) over integer cents. Each line's gross
 * is split into net and VAT and accumulated in a bucket per VAT rate; the
 * delivery fee is added to, and the discount taken from, only the bucket with
 * the highest rate; the buckets are then summed.
 *
 * The floating-point rounding `int(round(gross / (1 + rate)))` is the
 * parameter `netPart`: every property here holds whatever that function returns.
 */
module Totals {
  import opened Seqs

  /** How the source derives the net part of a gross amount at a VAT rate (integer percent). */
  type NetPart = (int, int) -> int

  /** One order line: its gross amount in cents and its VAT rate in percent. */
  datatype Line = Line(gross: int, rate: int)

  /** The accumulated amounts of one VAT rate. */
  datatype Bucket = Bucket(rate: int, gross: int, net: int, vat: int)

  /**
   * The result of `compute_totals`: the buckets in the order their rates first
   * occur (the insertion order of the source's dict), the three sums, and the
   * discount and delivery fee as read from the order.
   */
  datatype Totals = Totals(
    byVat: seq<Bucket>,
    netTotal: int,
    vatTotal: int,
    grossTotal: int,
    discount: int,
    deliveryFee: int)

  function BucketGross(b: Bucket): int { b.gross }
  function BucketNet(b: Bucket): int { b.net }
  function BucketVat(b: Bucket): int { b.vat }
  function LineGross(l: Line): int { l.gross }

  /** A bucket whose net and VAT parts add up to its gross amount exactly. */
  predicate Balanced(b: Bucket) {
    b.net + b.vat == b.gross
  }

  predicate AllBalanced(bs: seq<Bucket>) {
    forall i :: 0 <= i < |bs| ==> Balanced(bs[i])
  }

  /** No VAT rate has two buckets. */
  predicate DistinctRates(bs: seq<Bucket>) {
    forall i, j :: 0 <= i < j < |bs| ==> bs[i].rate != bs[j].rate
  }

  function RatesOf(bs: seq<Bucket>): set<int> {
    set i | 0 <= i < |bs| :: bs[i].rate
  }

  function LineRates(lines: seq<Line>): set<int> {
    set i | 0 <= i < |lines| :: lines[i].rate
  }

  // ---------------------------------------------------------------------------
  // Reference definitions, stated over the lines alone
  // ---------------------------------------------------------------------------

  /** Sum of the gross amounts of the lines at `rate`. */
  function GrossAt(lines: seq<Line>, rate: int): int
  {
    if |lines| == 0 then 0
    else GrossAt(lines[..|lines| - 1], rate) + (if lines[|lines| - 1].rate == rate then lines[|lines| - 1].gross else 0)
  }

  /** Sum of the per-line net parts of the lines at `rate`. */
  function NetAt(lines: seq<Line>, rate: int, netPart: NetPart): int
  {
    if |lines| == 0 then 0
    else
      var l := lines[|lines| - 1];
      NetAt(lines[..|lines| - 1], rate, netPart) + (if l.rate == rate then netPart(l.gross, l.rate) else 0)
  }

  /** Sum of the per-line net parts over all lines. */
  function NetSum(lines: seq<Line>, netPart: NetPart): int
  {
    if |lines| == 0 then 0
    else
      var l := lines[|lines| - 1];
      NetSum(lines[..|lines| - 1], netPart) + netPart(l.gross, l.rate)
  }

  /** The highest VAT rate among the lines. */
  function MaxLineRate(lines: seq<Line>): (r: int)
    requires |lines| > 0
    ensures r in LineRates(lines)
    ensures forall i :: 0 <= i < |lines| ==> lines[i].rate <= r
  {
    var last := lines[|lines| - 1].rate;
    if |lines| == 1 then last
    else
      var m := MaxLineRate(lines[..|lines| - 1]);
      assert m in LineRates(lines) by {
        var k :| 0 <= k < |lines| - 1 && lines[..|lines| - 1][k].rate == m;
        assert lines[k].rate == m;
      }
      if last > m then last else m
  }

  // ---------------------------------------------------------------------------
  // The algorithm
  // ---------------------------------------------------------------------------

  /** Position of the bucket for `rate`, or `|bs|` when there is none. */
  function IndexOfRate(bs: seq<Bucket>, rate: int): (k: nat)
    ensures k <= |bs|
    ensures k < |bs| ==> bs[k].rate == rate
    ensures forall j :: 0 <= j < k ==> bs[j].rate != rate
  {
    if |bs| == 0 then 0
    else if bs[0].rate == rate then 0
    else 1 + IndexOfRate(bs[1..], rate)
  }

  /** One iteration of the source's loop: split the line and add it to the bucket of its rate (`setdefault`). */
  function AddLine(bs: seq<Bucket>, l: Line, netPart: NetPart): seq<Bucket>
  {
    var k := IndexOfRate(bs, l.rate);
    var n := netPart(l.gross, l.rate);
    if k < |bs| then bs[k := Bucket(l.rate, bs[k].gross + l.gross, bs[k].net + n, bs[k].vat + (l.gross - n))]
    else bs + [Bucket(l.rate, l.gross, n, l.gross - n)]
  }

  /** The buckets after the loop over all lines. */
  function Accumulate(lines: seq<Line>, netPart: NetPart): seq<Bucket>
  {
    if |lines| == 0 then [] else AddLine(Accumulate(lines[..|lines| - 1], netPart), lines[|lines| - 1], netPart)
  }

  /** The highest rate that has a bucket (`max(by_vat.keys())`). */
  function MaxRate(bs: seq<Bucket>): (r: int)
    requires |bs| > 0
    ensures r in RatesOf(bs)
    ensures forall i :: 0 <= i < |bs| ==> bs[i].rate <= r
  {
    if |bs| == 1 then bs[0].rate
    else
      var m := MaxRate(bs[1..]);
      assert m in RatesOf(bs) by {
        var k :| 0 <= k < |bs| - 1 && bs[1..][k].rate == m;
        assert bs[k + 1].rate == m;
      }
      assert forall i :: 1 <= i < |bs| ==> bs[i] == bs[1..][i - 1];
      if bs[0].rate > m then bs[0].rate else m
  }

  /** Adds the delivery fee to, and takes the discount from, the bucket of the highest rate; both are split at that rate. */
  function Adjust(bs: seq<Bucket>, deliveryFee: int, discount: int, netPart: NetPart): seq<Bucket>
    requires |bs| > 0
  {
    var r := MaxRate(bs);
    var k := IndexOfRate(bs, r);
    assert k < |bs| by {
      var j :| 0 <= j < |bs| && bs[j].rate == r;
    }
    var addNet := netPart(deliveryFee, r);
    var subNet := netPart(discount, r);
    var b := bs[k];
    bs[k := Bucket(r, b.gross + deliveryFee - discount, b.net + addNet - subNet, b.vat + (deliveryFee - addNet) - (discount - subNet))]
  }

  /** `compute_totals` on an order's lines, discount and delivery fee. */
  function ComputeTotals(lines: seq<Line>, discount: int, deliveryFee: int, netPart: NetPart): (t: Totals)
    ensures AllBalanced(t.byVat)
    ensures DistinctRates(t.byVat)
    ensures RatesOf(t.byVat) == LineRates(lines)
    ensures t.netTotal + t.vatTotal == t.grossTotal
    ensures t.discount == discount && t.deliveryFee == deliveryFee
    ensures |lines| == 0 ==> t.byVat == [] && t.netTotal == 0 && t.vatTotal == 0 && t.grossTotal == 0
    ensures |lines| > 0 ==> t.grossTotal == SumOf(lines, LineGross) + deliveryFee - discount
  {
    var acc := Accumulate(lines, netPart);
    AccumulateBuckets(lines, netPart);
    AccumulateGrossSum(lines, netPart);
    var bs :=
      if |acc| == 0 then acc
      else (AdjustKeepsBuckets(acc, deliveryFee, discount, netPart); Adjust(acc, deliveryFee, discount, netPart));
    BalancedSums(bs);
    Totals(bs, SumOf(bs, BucketNet), SumOf(bs, BucketVat), SumOf(bs, BucketGross), discount, deliveryFee)
  }

  // ---------------------------------------------------------------------------
  // Proofs
  // ---------------------------------------------------------------------------

  /** The lines before the last one contribute everything but the last line. */
  lemma GrossAtAbsent(lines: seq<Line>, rate: int)
    requires rate !in LineRates(lines)
    ensures GrossAt(lines, rate) == 0
    ensures forall netPart: NetPart :: NetAt(lines, rate, netPart) == 0
  {
    if |lines| > 0 {
      var p := lines[..|lines| - 1];
      assert LineRates(p) <= LineRates(lines);
      GrossAtAbsent(p, rate);
      assert lines[|lines| - 1].rate in LineRates(lines);
    }
  }

  /** The rates of some lines are those of all but the last line plus the last line's rate. */
  lemma LineRatesSnoc(lines: seq<Line>)
    requires |lines| > 0
    ensures LineRates(lines) == LineRates(lines[..|lines| - 1]) + {lines[|lines| - 1].rate}
  {
    var p := lines[..|lines| - 1];
    forall r | r in LineRates(lines) ensures r in LineRates(p) + {lines[|lines| - 1].rate} {
      var i :| 0 <= i < |lines| && lines[i].rate == r;
      if i < |lines| - 1 {
        assert p[i].rate == r;
      }
    }
    forall r | r in LineRates(p) ensures r in LineRates(lines) {
      var i :| 0 <= i < |p| && p[i].rate == r;
      assert lines[i].rate == r;
    }
  }

  /** Adding a line leaves one bucket per rate and adds the line's rate to the rates present. */
  lemma AddLineRates(bs: seq<Bucket>, l: Line, netPart: NetPart)
    requires DistinctRates(bs)
    ensures DistinctRates(AddLine(bs, l, netPart))
    ensures RatesOf(AddLine(bs, l, netPart)) == RatesOf(bs) + {l.rate}
  {
    var out := AddLine(bs, l, netPart);
    var k := IndexOfRate(bs, l.rate);
    if k < |bs| {
      assert forall i :: 0 <= i < |bs| ==> out[i].rate == bs[i].rate;
      forall r | r in RatesOf(bs) ensures r in RatesOf(out) {
        var i :| 0 <= i < |bs| && bs[i].rate == r;
        assert out[i].rate == r;
      }
      assert l.rate in RatesOf(bs);
    } else {
      forall r | r in RatesOf(out) ensures r in RatesOf(bs) + {l.rate} {
        var i :| 0 <= i < |out| && out[i].rate == r;
        if i < |bs| {
          assert bs[i].rate == r;
        }
      }
      forall r | r in RatesOf(bs) ensures r in RatesOf(out) {
        var i :| 0 <= i < |bs| && bs[i].rate == r;
        assert out[i].rate == r;
      }
      assert out[|bs|].rate == l.rate;
    }
  }

  /** Every bucket holds exactly the sums of the lines at its rate, and is balanced. */
  predicate TracksLines(bs: seq<Bucket>, lines: seq<Line>, netPart: NetPart) {
    forall i :: 0 <= i < |bs| ==>
      bs[i].gross == GrossAt(lines, bs[i].rate) && bs[i].net == NetAt(lines, bs[i].rate, netPart) && Balanced(bs[i])
  }

  /** Adding the last line to the buckets of the lines before it gives buckets that track all lines. */
  lemma AddLineTracks(lines: seq<Line>, bs: seq<Bucket>, netPart: NetPart)
    requires |lines| > 0
    requires DistinctRates(bs)
    requires RatesOf(bs) == LineRates(lines[..|lines| - 1])
    requires TracksLines(bs, lines[..|lines| - 1], netPart)
    ensures TracksLines(AddLine(bs, lines[|lines| - 1], netPart), lines, netPart)
  {
    var p := lines[..|lines| - 1];
    var l := lines[|lines| - 1];
    var out := AddLine(bs, l, netPart);
    var k := IndexOfRate(bs, l.rate);
    if k == |bs| {
      assert l.rate !in RatesOf(bs);
      GrossAtAbsent(p, l.rate);
      assert NetAt(p, l.rate, netPart) == 0;
    }
    forall i | 0 <= i < |out|
      ensures out[i].gross == GrossAt(lines, out[i].rate) && out[i].net == NetAt(lines, out[i].rate, netPart) && Balanced(out[i])
    {
      var r := out[i].rate;
      assert GrossAt(lines, r) == GrossAt(p, r) + (if l.rate == r then l.gross else 0);
      assert NetAt(lines, r, netPart) == NetAt(p, r, netPart) + (if l.rate == r then netPart(l.gross, l.rate) else 0);
      if i < |bs| {
        assert bs[i].rate == r;
      }
    }
  }

  /**
   * After the loop there is exactly one bucket per distinct rate of the lines,
   * and each bucket holds exactly the sums of its own lines, net plus VAT
   * equal to gross.
   */
  lemma {:induction false} AccumulateBuckets(lines: seq<Line>, netPart: NetPart)
    ensures DistinctRates(Accumulate(lines, netPart))
    ensures RatesOf(Accumulate(lines, netPart)) == LineRates(lines)
    ensures forall i :: 0 <= i < |Accumulate(lines, netPart)| ==>
      var b := Accumulate(lines, netPart)[i];
      b.gross == GrossAt(lines, b.rate) && b.net == NetAt(lines, b.rate, netPart) && Balanced(b)
  {
    if |lines| > 0 {
      var p := lines[..|lines| - 1];
      var l := lines[|lines| - 1];
      AccumulateBuckets(p, netPart);
      var bs := Accumulate(p, netPart);
      assert TracksLines(bs, p, netPart);
      assert AddLine(bs, l, netPart) == Accumulate(lines, netPart);
      LineRatesSnoc(lines);
      AddLineRates(bs, l, netPart);
      AddLineTracks(lines, bs, netPart);
    }
  }

  /** The gross amounts of the buckets add up to the gross amounts of the lines. */
  lemma {:induction false} AccumulateGrossSum(lines: seq<Line>, netPart: NetPart)
    ensures SumOf(Accumulate(lines, netPart), BucketGross) == SumOf(lines, LineGross)
  {
    if |lines| > 0 {
      var p := lines[..|lines| - 1];
      var l := lines[|lines| - 1];
      AccumulateGrossSum(p, netPart);
      var bs := Accumulate(p, netPart);
      var k := IndexOfRate(bs, l.rate);
      var n := netPart(l.gross, l.rate);
      if k < |bs| {
        SumOfUpdate(bs, k, Bucket(l.rate, bs[k].gross + l.gross, bs[k].net + n, bs[k].vat + (l.gross - n)), BucketGross);
      } else {
        SumOfAppend(bs, [Bucket(l.rate, l.gross, n, l.gross - n)], BucketGross);
        assert SumOf([Bucket(l.rate, l.gross, n, l.gross - n)], BucketGross) == l.gross by {
          assert [Bucket(l.rate, l.gross, n, l.gross - n)][..0] == [];
        }
      }
    }
  }

  /** The adjustment changes only amounts: rates, their order and the balance of every bucket stay, and the gross sum moves by fee minus discount. */
  lemma AdjustKeepsBuckets(bs: seq<Bucket>, deliveryFee: int, discount: int, netPart: NetPart)
    requires |bs| > 0
    requires AllBalanced(bs)
    ensures var out := Adjust(bs, deliveryFee, discount, netPart);
      && |out| == |bs|
      && (forall i :: 0 <= i < |bs| ==> out[i].rate == bs[i].rate)
      && AllBalanced(out)
      && SumOf(out, BucketGross) == SumOf(bs, BucketGross) + deliveryFee - discount
  {
    var r := MaxRate(bs);
    var k := IndexOfRate(bs, r);
    var j :| 0 <= j < |bs| && bs[j].rate == r;
    var out := Adjust(bs, deliveryFee, discount, netPart);
    SumOfUpdate(bs, k, out[k], BucketGross);
  }

  /** Summing balanced buckets: the net and VAT sums add up to the gross sum. */
  lemma {:induction false} BalancedSums(bs: seq<Bucket>)
    requires AllBalanced(bs)
    ensures SumOf(bs, BucketNet) + SumOf(bs, BucketVat) == SumOf(bs, BucketGross)
  {
    if |bs| > 0 {
      BalancedSums(bs[..|bs| - 1]);
    }
  }

  /** The gross and net amounts of the buckets add up to those of the lines. */
  lemma {:induction false} AccumulateNetSum(lines: seq<Line>, netPart: NetPart)
    ensures SumOf(Accumulate(lines, netPart), BucketNet) == NetSum(lines, netPart)
  {
    if |lines| > 0 {
      var p := lines[..|lines| - 1];
      var l := lines[|lines| - 1];
      AccumulateNetSum(p, netPart);
      var bs := Accumulate(p, netPart);
      var k := IndexOfRate(bs, l.rate);
      var n := netPart(l.gross, l.rate);
      if k < |bs| {
        SumOfUpdate(bs, k, Bucket(l.rate, bs[k].gross + l.gross, bs[k].net + n, bs[k].vat + (l.gross - n)), BucketNet);
      } else {
        SumOfAppend(bs, [Bucket(l.rate, l.gross, n, l.gross - n)], BucketNet);
        assert SumOf([Bucket(l.rate, l.gross, n, l.gross - n)], BucketNet) == n by {
          assert [Bucket(l.rate, l.gross, n, l.gross - n)][..0] == [];
        }
      }
    }
  }

  /** The highest rate with a bucket is the highest rate among the lines. */
  lemma TopRateOfLines(lines: seq<Line>, netPart: NetPart)
    requires |lines| > 0
    ensures |Accumulate(lines, netPart)| > 0
    ensures MaxRate(Accumulate(lines, netPart)) == MaxLineRate(lines)
  {
    var acc := Accumulate(lines, netPart);
    AccumulateBuckets(lines, netPart);
    var m := MaxLineRate(lines);
    assert m in RatesOf(acc);
    var i :| 0 <= i < |acc| && acc[i].rate == m;
    var r := MaxRate(acc);
    assert r in LineRates(lines);
    var j :| 0 <= j < |lines| && lines[j].rate == r;
  }

  /** A sequence of buckets with distinct rates has as many buckets as rates. */
  lemma {:induction false} DistinctRatesCount(bs: seq<Bucket>)
    requires DistinctRates(bs)
    ensures |RatesOf(bs)| == |bs|
  {
    if |bs| > 0 {
      var p := bs[..|bs| - 1];
      DistinctRatesCount(p);
      assert RatesOf(bs) == RatesOf(p) + {bs[|bs| - 1].rate} by {
        forall r | r in RatesOf(bs) ensures r in RatesOf(p) + {bs[|bs| - 1].rate} {
          var i :| 0 <= i < |bs| && bs[i].rate == r;
          if i < |bs| - 1 {
            assert p[i].rate == r;
          }
        }
        forall r | r in RatesOf(p) ensures r in RatesOf(bs) {
          var i :| 0 <= i < |p| && p[i].rate == r;
          assert bs[i].rate == r;
        }
      }
      assert bs[|bs| - 1].rate !in RatesOf(p);
    }
  }

  /** Lines with equal VAT rate share one bucket: there is one bucket per distinct rate. */
  lemma OneBucketPerRate(lines: seq<Line>, discount: int, deliveryFee: int, netPart: NetPart)
    ensures |ComputeTotals(lines, discount, deliveryFee, netPart).byVat| == |LineRates(lines)|
  {
    var t := ComputeTotals(lines, discount, deliveryFee, netPart);
    DistinctRatesCount(t.byVat);
  }

  /**
   * The delivery fee and the discount land only in the bucket of the highest
   * rate, split at that rate; every other bucket holds exactly the sums of its
   * own lines.
   */
  lemma AdjustmentOnlyAtTopRate(lines: seq<Line>, discount: int, deliveryFee: int, netPart: NetPart)
    requires |lines| > 0
    ensures var t := ComputeTotals(lines, discount, deliveryFee, netPart);
      var top := MaxLineRate(lines);
      forall i :: 0 <= i < |t.byVat| ==>
        var b := t.byVat[i];
        if b.rate == top then
          && b.gross == GrossAt(lines, top) + deliveryFee - discount
          && b.net == NetAt(lines, top, netPart) + netPart(deliveryFee, top) - netPart(discount, top)
        else
          b.gross == GrossAt(lines, b.rate) && b.net == NetAt(lines, b.rate, netPart)
  {
    var acc := Accumulate(lines, netPart);
    AccumulateBuckets(lines, netPart);
    TopRateOfLines(lines, netPart);
    var top := MaxLineRate(lines);
    var k := IndexOfRate(acc, top);
    var j :| 0 <= j < |acc| && acc[j].rate == top;
    assert k < |acc|;
  }

  /**
   * With at least one line, the net total is the sum of the rounded line nets
   * plus the rounded net of the delivery fee minus that of the discount, both
   * taken at the highest rate; the VAT total is the rest of the gross total.
   */
  lemma NetTotalOfParts(lines: seq<Line>, discount: int, deliveryFee: int, netPart: NetPart)
    requires |lines| > 0
    ensures var t := ComputeTotals(lines, discount, deliveryFee, netPart);
      var top := MaxLineRate(lines);
      && t.netTotal == NetSum(lines, netPart) + netPart(deliveryFee, top) - netPart(discount, top)
      && t.vatTotal == t.grossTotal - t.netTotal
  {
    var acc := Accumulate(lines, netPart);
    AccumulateBuckets(lines, netPart);
    AccumulateNetSum(lines, netPart);
    TopRateOfLines(lines, netPart);
    var top := MaxLineRate(lines);
    var k := IndexOfRate(acc, top);
    var j :| 0 <= j < |acc| && acc[j].rate == top;
    var out := Adjust(acc, deliveryFee, discount, netPart);
    SumOfUpdate(acc, k, out[k], BucketNet);
  }

  /**
   * Round-half-up value of `gross / (1 + rate / 100)` in exact arithmetic, one
   * concrete `NetPart` for illustration (the source rounds a float instead).
   */
  function RoundedNet(gross: int, rate: int): int {
    if 100 + rate > 0 then (200 * gross + 100 + rate) / (2 * (100 + rate)) else gross
  }

  /**
   * One line of 20.00 gross at 19 %, delivery 5.00, discount 2.00: one bucket of
   * gross 23.00, net 19.33 (16.81 + 4.20 - 1.68 from the three separate
   * roundings) and VAT 3.67.
   */
  lemma WorkedExample()
    ensures ComputeTotals([Line(2000, 19)], 200, 500, RoundedNet)
      == Totals([Bucket(19, 2300, 1933, 367)], 1933, 367, 2300, 200, 500)
  {
    var lines := [Line(2000, 19)];
    assert lines[..0] == [];
    var acc := Accumulate(lines, RoundedNet);
    assert acc == [Bucket(19, 2000, 1681, 319)];
    assert MaxRate(acc) == 19;
    var out := Adjust(acc, 500, 200, RoundedNet);
    assert out == [Bucket(19, 2300, 1933, 367)];
    assert out[..0] == [];
  }
}
