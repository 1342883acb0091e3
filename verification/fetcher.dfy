/**
 * The numeric-field cleaner of the market-data reader
 * (`JisiluLOFFetcher.safe_decimal` in jisilu_profit_calculator.py). The
 * network fetch around it is not modelled; only this coercion of one
 * field's text into a decimal is.
 */
module Fetcher {
  import opened Wrappers
  import opened DecimalText

  /**
   * The text handed to `Decimal`: every `%` and `,` removed, then trimmed.
   * Every other character between the leading and trailing whitespace is
   * kept.
   */
  function Cleaned(text: string): (r: string)
    ensures '%' !in r && ',' !in r
    ensures Trim(r) == r
    ensures forall x :: x != '%' && x != ',' && !IsSpace(x) ==> multiset(r)[x] == multiset(text)[x]
    ensures IsMiddle(r, RemoveAll(RemoveAll(text, '%'), ','))
  {
    var noPercent := RemoveAll(text, '%');
    var stripped := RemoveAll(noPercent, ',');
    assert multiset(noPercent)['%'] == 0;
    assert '%' !in stripped by {
      assert multiset(stripped)['%'] == 0;
    }
    TrimKeepsAbsent(stripped, '%');
    TrimKeepsAbsent(stripped, ',');
    TrimIdempotent(stripped);
    TrimKeepsCount(stripped);
    TrimIsMiddle(stripped);
    Trim(stripped)
  }

  /** The value of already-cleaned text, or `default` when it is empty or not a decimal literal. */
  function ReadCleaned(cleaned: string, default: real): (r: real)
    ensures cleaned == "" ==> r == default
    ensures cleaned != "" && ParseDecimal(cleaned).Some? ==> r == ParseDecimal(cleaned).value
    ensures ParseDecimal(cleaned).None? ==> r == default
  {
    if cleaned == "" then default else ParseDecimal(cleaned).GetOr(default)
  }

  /**
   * `safe_decimal`: a missing field (`None`), `-` or the empty string give
   * `default`; otherwise the cleaned text's value, or `default` when the
   * cleaned text is empty or not a decimal literal. Never fails.
   */
  function SafeDecimal(value: Option<string>, default: real): (r: real)
    ensures value.None? ==> r == default
    ensures value == Some("-") || value == Some("") ==> r == default
  {
    match value
    case None => default
    case Some(text) =>
      if text == "-" || text == "" then default
      else ReadCleaned(Cleaned(text), default)
  }

  /** The lone `-` is not a number. */
  lemma DashDoesNotParse()
    ensures ParseDecimal("-") == None
  {
    assert Trim("-") == "-" by {
      TrimOfTrimmed("-");
    }
    var lit := LiteralOf("-");
    assert lit.sign == Minus by {
      assert SplitSign("-").0 == Minus;
    }
    assert lit.whole == "" && lit.frac == None by {
      assert SplitSign("-").1 == "";
    }
  }

  /** Removing one `%` or `,` from the text changes only what cleaning would remove anyway. */
  lemma CleanedIgnoresMark(a: string, b: string, mark: char)
    requires mark == '%' || mark == ','
    ensures Cleaned(a + [mark] + b) == Cleaned(a + b)
  {
    RemoveAllConcat(a + [mark], b, '%');
    RemoveAllConcat(a, [mark], '%');
    RemoveAllConcat(a, b, '%');
    var pa, pm, pb := RemoveAll(a, '%'), RemoveAll([mark], '%'), RemoveAll(b, '%');
    RemoveAllConcat(pa + pm, pb, ',');
    RemoveAllConcat(pa, pm, ',');
    RemoveAllConcat(pa, pb, ',');
    if mark == '%' {
      assert pm == [];
      assert pa + pm == pa;
    } else {
      assert pm == [','];
      assert RemoveAll(pm, ',') == [];
      assert RemoveAll(pa, ',') + RemoveAll(pm, ',') == RemoveAll(pa, ',');
    }
  }

  /** The cleaned text of the lone `-` is `-` itself, which reads as `default`. */
  lemma DashReadsAsDefault(default: real)
    ensures Cleaned("-") == "-"
    ensures ReadCleaned("-", default) == default
  {
    RemoveAllAbsent("-", '%');
    RemoveAllAbsent("-", ',');
    TrimOfTrimmed("-");
    DashDoesNotParse();
  }

  /** Present text reads as its cleaned text does. */
  lemma SafeDecimalReadsCleaned(text: string, default: real)
    ensures SafeDecimal(Some(text), default) == ReadCleaned(Cleaned(text), default)
  {
    if text == "-" {
      DashReadsAsDefault(default);
    } else if text == "" {
      assert RemoveAll("", '%') == "";
      assert RemoveAll("", ',') == "";
    }
  }

  /**
   * Percent signs and thousands separators are ignored, wherever they
   * stand: `"12.5%"` reads as 12.5 and `"1,234"` as 1234. Unlike the
   * subscription-fee reader, a percent sign does not divide by 100.
   */
  lemma SafeDecimalIgnoresMarks(a: string, b: string, mark: char, default: real)
    requires mark == '%' || mark == ','
    ensures SafeDecimal(Some(a + [mark] + b), default) == SafeDecimal(Some(a + b), default)
  {
    CleanedIgnoresMark(a, b, mark);
    SafeDecimalReadsCleaned(a + [mark] + b, default);
    SafeDecimalReadsCleaned(a + b, default);
  }

  /** Cleaning leaves the text of a well-formed literal as it is. */
  lemma CleanedLiteral(lit: Literal)
    requires WellFormed(lit)
    ensures Cleaned(Render(lit)) == Render(lit)
  {
    var t := Render(lit);
    RenderAlphabet(lit, '%');
    RenderAlphabet(lit, ',');
    RemoveAllAbsent(t, '%');
    RemoveAllAbsent(t, ',');
    RenderIsTrimmed(lit);
  }

  /** The text of a well-formed literal reads as its value. */
  lemma SafeDecimalOfLiteral(lit: Literal, default: real)
    requires WellFormed(lit)
    ensures SafeDecimal(Some(Render(lit)), default) == Value(lit)
  {
    var t := Render(lit);
    CleanedLiteral(lit);
    RenderParses(lit);
    assert t != "";
    SafeDecimalReadsCleaned(t, default);
  }

  /**
   * Every present field falls in one of two cases: its cleaned text is a
   * decimal literal, and the field reads as that literal's value; or it is
   * not, and the field reads as `default`.
   */
  lemma SafeDecimalCases(text: string, default: real)
    ensures (forall lit :: WellFormed(lit) ==> Render(lit) != Cleaned(text)) ==> SafeDecimal(Some(text), default) == default
    ensures forall lit :: WellFormed(lit) && Render(lit) == Cleaned(text) ==> SafeDecimal(Some(text), default) == Value(lit)
  {
    var c := Cleaned(text);
    SafeDecimalReadsCleaned(text, default);
    ParseMatchesGrammar(c);
    TrimIdempotent(RemoveAll(RemoveAll(text, '%'), ','));
    assert Trim(c) == c;
  }
}
