/** `int_to_db_string`: a DrugBank identifier, "DB" followed by the number
    zero-padded to five characters. */
module DbId {
  import opened Wrappers
  import opened Decimal

  /** Python's `str(n)` for any integer: the digits of `n`, after a minus
      sign when it is negative. */
  function Str(n: int): (r: string)
    ensures |r| >= 1
    ensures n >= 0 ==> AllDigits(r) && FromDecimal(r) == n && (r[0] == '0' ==> n == 0)
    ensures n < 0 ==> |r| >= 2 && r[0] == '-' && AllDigits(r[1..]) && FromDecimal(r[1..]) == -n && r[1] != '0'
  {
    if n < 0 then
      FromToDecimal(-n);
      assert ("-" + ToDecimal(-n))[1..] == ToDecimal(-n);
      "-" + ToDecimal(-n)
    else
      FromToDecimal(n);
      ToDecimal(n)
  }

  /** A leading sign character. */
  predicate IsSign(c: char)
  {
    c == '+' || c == '-'
  }

  /** Python's `s.zfill(width)`: zeros are inserted after a leading sign
      until the text is `width` long; a text that is long enough is kept. */
  function ZFill(s: string, width: int): (r: string)
    ensures |s| >= width ==> r == s
    ensures |s| < width ==> |r| == width
  {
    if |s| >= width then s
    else if |s| > 0 && IsSign(s[0]) then [s[0]] + Zeros(width - |s|) + s[1..]
    else Zeros(width - |s|) + s
  }

  /** What `ZFill` inserts is zeros, after the sign if there is one, and the
      rest of the text follows unchanged. */
  lemma ZFillPads(s: string, width: int)
    requires |s| < width
    ensures |s| > 0 && IsSign(s[0]) ==>
              var r := ZFill(s, width);
              r[0] == s[0] && AllZeros(r[1..width - |s| + 1]) && r[width - |s| + 1..] == s[1..]
    ensures |s| == 0 || !IsSign(s[0]) ==>
              var r := ZFill(s, width);
              AllZeros(r[..width - |s|]) && r[width - |s|..] == s
  {
    var r := ZFill(s, width);
    var z := Zeros(width - |s|);
    if |s| > 0 && IsSign(s[0]) {
      assert r == [s[0]] + z + s[1..];
      assert r[1..width - |s| + 1] == z;
      assert r[width - |s| + 1..] == s[1..];
    } else {
      assert r == z + s;
      assert r[..width - |s|] == z;
      assert r[width - |s|..] == s;
    }
  }

  predicate AllZeros(s: string)
  {
    forall i :: 0 <= i < |s| ==> s[i] == '0'
  }

  /** The identifier for `n`: always "DB" first; seven characters, all digits
      after the prefix, for `0 <= n < 100000`; larger numbers are written out
      unpadded. */
  function IntToDbString(n: int): (r: string)
    ensures |r| >= 7 && r[..2] == "DB"
    ensures 0 <= n < 100000 ==> |r| == 7 && AllDigits(r[2..])
    ensures n >= 100000 ==> r[2..] == ToDecimal(n)
  {
    var d := if n < 0 then -n else n;
    ToDecimalLength(d, 5);
    var r := "DB" + ZFill(Str(n), 5);
    assert r[2..] == ZFill(Str(n), 5);
    r
  }

  /** For a natural number, the identifier is "DB", then zeros up to five
      characters in all, then the number's digits, none of them cut off. */
  lemma IntToDbStringNatural(n: nat)
    ensures |ToDecimal(n)| >= 5 ==> IntToDbString(n) == "DB" + ToDecimal(n)
    ensures |ToDecimal(n)| < 5 ==> IntToDbString(n) == "DB" + Zeros(5 - |ToDecimal(n)|) + ToDecimal(n)
  {
    var d := ToDecimal(n);
    assert Str(n) == d;
    assert !IsSign(d[0]);
    if |d| < 5 {
      assert ZFill(d, 5) == Zeros(5 - |d|) + d;
    } else {
      assert ZFill(d, 5) == d;
    }
  }

  /** Reads the part after "DB" back: an optional minus sign and at least
      one digit. */
  function ParseNumber(body: string): (r: Option<int>)
    ensures r.Some? ==> |body| >= 1
  {
    if |body| >= 2 && body[0] == '-' && AllDigits(body[1..]) then
      var v: int := FromDecimal(body[1..]);
      Some(-v)
    else if |body| >= 1 && AllDigits(body) then Some(FromDecimal(body))
    else None
  }

  /** Reads an identifier back: "DB" and then a number. */
  function ParseDbString(s: string): (r: Option<int>)
    ensures r.Some? ==> |s| >= 3 && s[..2] == "DB"
  {
    if |s| < 3 || s[..2] != "DB" then None else ParseNumber(s[2..])
  }

  lemma {:induction false} ParsePaddedNatural(n: nat)
    ensures ParseNumber(ZFill(Str(n), 5)) == Some(n)
  {
    var d := ToDecimal(n);
    FromToDecimal(n);
    if |d| < 5 {
      var z := Zeros(5 - |d|);
      assert ZFill(Str(n), 5) == z + d;
      FromDecimalLeadingZeros(5 - |d|, d);
      assert AllDigits(z + d);
    }
  }

  lemma {:induction false} ParsePaddedNegative(n: int)
    requires n < 0
    ensures ParseNumber(ZFill(Str(n), 5)) == Some(n)
  {
    var d := ToDecimal(-n);
    var body := ZFill(Str(n), 5);
    FromToDecimal(-n);
    if |d| + 1 >= 5 {
      assert body == "-" + d;
      assert body[1..] == d;
    } else {
      var z := Zeros(5 - |d| - 1);
      assert body == "-" + z + d;
      assert body[1..] == z + d;
      assert AllDigits(z + d);
      FromDecimalLeadingZeros(5 - |d| - 1, d);
    }
  }

  /** Every integer's identifier reads back as that integer. */
  lemma ParseIntToDbString(n: int)
    ensures ParseDbString(IntToDbString(n)) == Some(n)
  {
    var s := IntToDbString(n);
    assert s[2..] == ZFill(Str(n), 5);
    if n < 0 {
      ParsePaddedNegative(n);
    } else {
      ParsePaddedNatural(n);
    }
  }

  /** Distinct integers get distinct identifiers. */
  lemma IntToDbStringInjective(m: int, n: int)
    ensures IntToDbString(m) == IntToDbString(n) ==> m == n
  {
    ParseIntToDbString(m);
    ParseIntToDbString(n);
  }

  lemma IntToDbStringSmallExamples()
    ensures IntToDbString(0) == "DB00000"
    ensures IntToDbString(1) == "DB00001"
    ensures IntToDbString(2) == "DB00002"
  {
    assert Zeros(4) == "0000";
    assert ToDecimal(0) == "0" && ToDecimal(1) == "1" && ToDecimal(2) == "2";
  }

  lemma IntToDbStringExample123()
    ensures IntToDbString(123) == "DB00123"
  {
    assert Zeros(2) == "00";
    assert ToDecimal(1) == "1";
    assert ToDecimal(12) == "12";
    assert ToDecimal(123) == "123";
  }

  lemma IntToDbStringExample20000()
    ensures IntToDbString(20000) == "DB20000"
  {
    assert ToDecimal(2) == "2";
    assert ToDecimal(20) == "20";
    assert ToDecimal(200) == "200";
    assert ToDecimal(2000) == "2000";
    assert ToDecimal(20000) == "20000";
  }
}
