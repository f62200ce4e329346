/**
  The `Rational` value type of exif_data_types.go: a numerator and a
  denominator (Go `int`s) read from and written as the text "N/D".
*/
module ExifDataTypes {
  import opened Wrappers
  import opened GoStrings
  import opened GoStrconv

  datatype Rational = Rational(numerator: Int64, denominator: Int64)

  const ZeroRational := Rational(0, 0)

  datatype RationalError =
    | InvalidFormat(text: string)   // not exactly two '/'-separated parts
    | InvalidInteger(part: string)  // a part that strconv.Atoi rejects

  /** `NewRational(s)`: split on "/" into exactly two parts, each read by `strconv.Atoi`. */
  function NewRational(s: string): (r: Result<Rational, RationalError>)
    ensures r.Success? <==>
              && Count('/', s) == 1
              && ParseInt(Split(s, '/')[0]).Some?
              && ParseInt(Split(s, '/')[1]).Some?
    ensures r.Success? ==> r.value == Rational(ParseInt(Split(s, '/')[0]).value,
                                               ParseInt(Split(s, '/')[1]).value)
  {
    var parts := Split(s, '/');
    if |parts| != 2 then Failure(InvalidFormat(s))
    else match (ParseInt(parts[0]), ParseInt(parts[1]))
      case (None, _) => Failure(InvalidInteger(parts[0]))
      case (_, None) => Failure(InvalidInteger(parts[1]))
      case (Some(n), Some(d)) => Success(Rational(n, d))
  }

  /** `Rational.String()`: `fmt.Sprintf("%d/%d", numerator, denominator)`. */
  function String(r: Rational): string
  {
    FormatInt(r.numerator) + "/" + FormatInt(r.denominator)
  }

  lemma FormatIntHasNoSlash(n: int)
    ensures '/' !in FormatInt(n)
  {
    var digits := FormatNat(if n < 0 then -n else n);
    assert forall i :: 0 <= i < |digits| ==> IsDigit(digits[i]);
    if n < 0 {
      assert FormatInt(n) == "-" + digits;
    }
  }

  /** `String` splits back into exactly the two decimal renderings. */
  lemma SplitString(r: Rational)
    ensures Split(String(r), '/') == [FormatInt(r.numerator), FormatInt(r.denominator)]
  {
    FormatIntHasNoSlash(r.numerator);
    FormatIntHasNoSlash(r.denominator);
    SplitAfterPiece(FormatInt(r.numerator), '/', FormatInt(r.denominator));
    SplitWithoutSeparator(FormatInt(r.denominator), '/');
    assert String(r) == FormatInt(r.numerator) + ['/'] + FormatInt(r.denominator);
  }

  /** Round trip: every Rational, zero denominators included, survives String then NewRational. */
  lemma NewRationalOfString(r: Rational)
    ensures NewRational(String(r)) == Success(r)
  {
    SplitString(r);
    ParseFormatInt(r.numerator);
    ParseFormatInt(r.denominator);
  }

  /** Round trip the other way: text whose two parts are canonical decimals prints back unchanged. */
  lemma StringOfNewRational(s: string)
    requires NewRational(s).Success?
    requires Canonical(Split(s, '/')[0]) && Canonical(Split(s, '/')[1])
    ensures String(NewRational(s).value) == s
  {
    var parts := Split(s, '/');
    FormatParseInt(parts[0]);
    FormatParseInt(parts[1]);
    assert s == Join(parts, '/') == parts[0] + ['/'] + parts[1];
  }

  /** The format errors: "", "5" and "1/2/3" do not have exactly two parts. */
  lemma RejectsPartCount()
    ensures NewRational("") == Failure(InvalidFormat(""))
    ensures NewRational("5") == Failure(InvalidFormat("5"))
    ensures NewRational("1/2/3") == Failure(InvalidFormat("1/2/3"))
  {
    assert Count('/', "") == 0;
    assert Count('/', "5") == 0;
    assert Count('/', "1/2/3") == 2;
  }

  /** A numerator that `strconv.Atoi` rejects is reported, whatever the denominator. */
  lemma RejectsNumerator(a: string, b: string)
    requires '/' !in a && '/' !in b && ParseInt(a).None?
    ensures NewRational(a + "/" + b) == Failure(InvalidInteger(a))
  {
    SplitTwo(a, '/', b);
  }

  /** A readable numerator over a denominator that `strconv.Atoi` rejects
      reports the denominator. */
  lemma RejectsDenominator(a: string, b: string)
    requires '/' !in a && '/' !in b && ParseInt(a).Some? && ParseInt(b).None?
    ensures NewRational(a + "/" + b) == Failure(InvalidInteger(b))
  {
    SplitTwo(a, '/', b);
  }

  /** Spaces are not trimmed: " 1/2" fails on its first part. */
  lemma RejectsSpace()
    ensures NewRational(" 1/2") == Failure(InvalidInteger(" 1"))
  {
    assert Unsigned(" 1") == " 1" && !IsDigit(' ');
    RejectsNumerator(" 1", "2");
    assert " 1" + "/" + "2" == " 1/2";
  }

  /** A zero denominator is accepted without complaint: "1/0". */
  lemma AcceptsZeroDenominator()
    ensures NewRational("1/0") == Success(Rational(1, 0))
  {
    SplitAfterPiece("1", '/', "0");
    SplitWithoutSeparator("0", '/');
    assert "1/0" == "1" + ['/'] + "0";
    ParseSigned("", "1");
    ParseSigned("", "0");
    assert "" + "1" == "1" && "" + "0" == "0";
  }

  /** An explicit plus sign on the numerator is accepted: "+5/1" reads as 5/1,
      which `String` writes back without the sign. */
  lemma AcceptsPlusSign(n: Int64, d: Int64)
    requires n >= 0
    ensures NewRational("+" + FormatInt(n) + "/" + FormatInt(d)) == Success(Rational(n, d))
  {
    var num := "+" + FormatInt(n);
    FormatIntHasNoSlash(n);
    FormatIntHasNoSlash(d);
    assert '/' !in num by {
      assert forall i :: 1 <= i < |num| ==> num[i] == FormatInt(n)[i - 1];
    }
    SplitAfterPiece(num, '/', FormatInt(d));
    SplitWithoutSeparator(FormatInt(d), '/');
    assert num + "/" + FormatInt(d) == num + ['/'] + FormatInt(d);
    ParseSigned("+", FormatNat(n));
    ParseFormatInt(d);
  }
}
