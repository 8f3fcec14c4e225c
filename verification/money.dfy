/**
 * German rendering of a cent amount as euro text (`cent_zu_euro_text`), which
 * both the invoice and the order form use: an optional minus sign, the whole
 * euros, a comma, and exactly two digits of cents, with no thousands separator.
 */
module Money {
  import opened Wrappers
  import opened Decimal

  /** Two decimal digits of `n < 100`, zero-padded. */
  function TwoDigits(n: nat): (r: string)
    requires n < 100
    ensures |r| == 2 && AllDigits(r) && DigitsValue(r) == n
  {
    var r := [DigitChar(n / 10), DigitChar(n % 10)];
    assert r[..1] == [r[0]];
    assert DigitsValue(r[..1]) == n / 10 by {
      assert r[..1][..0] == [];
    }
    r
  }

  function Abs(c: int): nat {
    if c < 0 then -c else c
  }

  /** `f"{cent / 100:.2f}".replace(".", ",")` on an integer number of cents. */
  function CentToEuroText(cent: int): (r: string)
    ensures |r| >= 4
    ensures r[0] == '-' <==> cent < 0
    ensures r[|r| - 3] == ','
    ensures AllDigits(r[|r| - 2..]) && DigitsValue(r[|r| - 2..]) == Abs(cent) % 100
    ensures forall i :: (if cent < 0 then 1 else 0) <= i < |r| - 3 ==> IsDigit(r[i])
    ensures cent < 0 ==> |r| >= 5
    ensures var euros := r[(if cent < 0 then 1 else 0)..|r| - 3];
      && |euros| > 0 && AllDigits(euros) && DigitsValue(euros) == Abs(cent) / 100
      && (|euros| > 1 ==> euros[0] != '0')
  {
    var sign := if cent < 0 then "-" else "";
    var euros := NatToDecimal(Abs(cent) / 100);
    var cents := TwoDigits(Abs(cent) % 100);
    var r := sign + euros + "," + cents;
    assert r[|r| - 2..] == cents;
    assert forall i :: |sign| <= i < |r| - 3 ==> r[i] == euros[i - |sign|];
    assert r[|sign|..|r| - 3] == euros;
    DigitsValueOfNat(Abs(cent) / 100);
    r
  }

  /** Reads euro text of the form `CentToEuroText` produces back into cents. */
  function ParseEuroText(t: string): Option<int>
  {
    var neg := |t| > 0 && t[0] == '-';
    var body := if neg then t[1..] else t;
    if |body| >= 4 && body[|body| - 3] == ','
       && AllDigits(body[..|body| - 3]) && AllDigits(body[|body| - 2..])
    then
      var v := DigitsValue(body[..|body| - 3]) * 100 + DigitsValue(body[|body| - 2..]);
      Some(if neg then -v else v)
    else None
  }

  /** The euro text loses nothing: it reads back as the exact cent amount. */
  lemma EuroTextRoundTrip(cent: int)
    ensures ParseEuroText(CentToEuroText(cent)) == Some(cent)
  {
    var r := CentToEuroText(cent);
    var euros := NatToDecimal(Abs(cent) / 100);
    var cents := TwoDigits(Abs(cent) % 100);
    var body := euros + "," + cents;
    if cent < 0 {
      assert r == "-" + body;
      assert r[1..] == body;
    } else {
      assert r == body;
    }
    assert body[..|body| - 3] == euros;
    assert body[|body| - 2..] == cents;
    DigitsValueOfNat(Abs(cent) / 100);
  }
}
