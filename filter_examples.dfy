/** Concrete evaluations of the filter engine on the record used by the service tests. */
module FilterExamples {
  import opened Model
  import opened Text
  import opened FilterEngine

  /** The record of the service tests. Its image is never set there and so is null; records
      here have no null text attributes, and the empty text stands in for it. */
  const Ball := Product(Some(1), "Balon Blanco", "", "Balon de futbol", 10000.0, 5.0, "Prueba")

  /** The one-criterion filter over the one-record collection. */
  lemma FilterBallBy(c: Filter)
    ensures FilterList([Ball], [c]) == match Evaluate(Ball, c)
                                       case Err(e) => Err(e)
                                       case Ok(b) => Ok(if b then [Ball] else [])
  {
    FilterSingleRecord(Ball, [c]);
    MatchesSingleCriterion(Ball, c);
  }

  /** A numeric attribute matches only a value equal to it: "10000" does, "10000.5" does not. */
  lemma NumericMatchIsExact()
    ensures FilterList([Ball], [Filter("price", "10000")]) == Ok([Ball])
    ensures FilterList([Ball], [Filter("price", "10000.5")]) == Ok([])
  {
    WholeParse();
    PriceMatches("10000", 10000.0);
    HalfParse();
    PriceMatches("10000.5", 10000.5);
  }

  /** A price criterion whose value parses to `x` keeps the record exactly when its price is `x`. */
  lemma PriceMatches(v: string, x: real)
    requires v != [] && ParseNumber(v) == Some(x)
    ensures FilterList([Ball], [Filter("price", v)]) == Ok(if x == 10000.0 then [Ball] else [])
  {
    NumericCriterionIsEquality(Ball, "price", v);
    FilterBallBy(Filter("price", v));
  }

  /** The digits of the test price have the value 10000. */
  lemma TenThousand()
    ensures DigitsValue("10000") == 10000
  {
    assert "10000"[..4] == "1000" && "1000"[..3] == "100" && "100"[..2] == "10" && "10"[..1] == "1";
  }

  /** The test price written without a fraction parses to itself. */
  lemma WholeParse()
    ensures ParseNumber("10000") == Some(10000.0)
  {
    ParseDigits("10000");
    TenThousand();
  }

  /** A fraction of one half above the test price parses exactly. */
  lemma HalfParse()
    ensures ParseNumber("10000.5") == Some(10000.5)
  {
    assert "10000" + "." + "5" == "10000.5";
    ParseFractionLiteral("10000", "5");
    TenThousand();
    assert DigitsValue("5") == 5 by { assert "5"[..0] == ""; }
  }

  /** The record's name lower-cased. */
  lemma BallNameLowered()
    ensures ToLower(Ball.name) == "balon blanco"
  {
    LowersTo(Ball.name, "balon blanco");
  }

  /** A name criterion whose lower-cased value occurs in the lower-cased name keeps the record. */
  lemma NameMatches(v: string, i: int)
    requires v != [] && OccursAt("balon blanco", ToLower(v), i)
    ensures FilterList([Ball], [Filter("name", v)]) == Ok([Ball])
  {
    BallNameLowered();
    NameCriterionHolds(Ball, "balon blanco", v, i);
    FilterBallBy(Filter("name", v));
  }

  /** A name criterion holds of a record whose lower-cased name `n` contains the
      lower-cased value. */
  lemma NameCriterionHolds(p: Product, n: string, v: string, i: int)
    requires ToLower(p.name) == n && v != [] && OccursAt(n, ToLower(v), i)
    ensures Evaluate(p, Filter("name", v)) == Ok(true)
  {
    assert LookupField("name") == Some(Name);
    TextCriterionIsSubstring(p, "name", v);
  }

  /** A search by part of the name keeps the record: the value of the service tests. */
  lemma NameSearchFindsBall()
    ensures FilterList([Ball], [Filter("name", "Blanco")]) == Ok([Ball])
  {
    assert "balon blanco"[6..12] == "blanco";
    LowersTo("Blanco", "blanco");
    NameMatches("Blanco", 6);
  }

  /** The same search in small letters keeps the record too. */
  lemma NameSearchInSmallLetters()
    ensures FilterList([Ball], [Filter("name", "blanco")]) == Ok([Ball])
  {
    assert "balon blanco"[6..12] == "blanco";
    LowersTo("blanco", "blanco");
    NameMatches("blanco", 6);
  }

  /** A search in capitals for the start of the name keeps the record. */
  lemma NameSearchInCapitals()
    ensures FilterList([Ball], [Filter("name", "BALON")]) == Ok([Ball])
  {
    assert "balon blanco"[0..5] == "balon";
    LowersTo("BALON", "balon");
    NameMatches("BALON", 0);
  }

  /** A key that names no attribute is rejected with the key in the error. */
  lemma UnknownColumnRejected()
    ensures FilterList([Ball], [Filter("columnaInvalida", "valor")]) == Err(InvalidColumn("columnaInvalida"))
  {
    assert LookupField("columnaInvalida") == None;
    FilterBallBy(Filter("columnaInvalida", "valor"));
  }

  /** An empty value is rejected before the key is looked up. */
  lemma EmptyValueRejected()
    ensures FilterList([Ball], [Filter("columnaInvalida", "")]) == Err(EmptyFilter)
  {
    FilterBallBy(Filter("columnaInvalida", ""));
  }

  /** Evaluation of a record stops at the first criterion that does not hold, so an
      unknown key after it goes unreported. */
  lemma UnknownColumnAfterMismatchUnreported()
    ensures FilterList([Ball], [Filter("price", "1"), Filter("columnaInvalida", "valor")]) == Ok([])
  {
    var fs := [Filter("price", "1"), Filter("columnaInvalida", "valor")];
    assert LookupField("price") == Some(Price);
    ParseDigits("1");
    assert DigitsValue("1") == 1 by { assert "1"[..0] == ""; }
    assert Evaluate(Ball, fs[0]) == Ok(false);
    assert MatchesAll(Ball, fs) == Ok(false);
    FilterSingleRecord(Ball, fs);
  }

  /** A malformed number compared with a numeric attribute raises the parse failure, which
      is not a rejected request. */
  lemma MalformedNumberIsParseFailure()
    ensures FilterList([Ball], [Filter("price", "abc")]) == Err(NumberFormat("abc"))
    ensures !IsBadRequest(NumberFormat("abc"))
  {
    assert LookupField("price") == Some(Price);
    assert DigitRun("abc") == 0;
    assert ParseNumber("abc") == None;
    assert Evaluate(Ball, Filter("price", "abc")) == Err(NumberFormat("abc"));
    FilterBallBy(Filter("price", "abc"));
  }
}
