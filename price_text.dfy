/** The price text parser (`parsePrice` in analyzer.go): turns display text
    such as "£435,000" into a whole number of pounds. */
module PriceText {
  import opened Outcomes
  import opened Strings
  import opened Strconv

  const Pound: char := '£'

  /** The text handed to the number parser: white space trimmed from both
      ends, then every comma removed, then the first pound sign removed
      (wherever it stands). */
  function NormalisePrice(raw: string): string {
    RemoveFirst(RemoveAll(TrimSpace(raw), ','), Pound)
  }

  /** `parsePrice`. It succeeds exactly when the normalised text is a
      non-empty run of ASCII digits whose value fits in 64 bits, and then
      returns that value. */
  function ParsePrice(raw: string): (r: Result<Uint64, NumError>)
    ensures var t := NormalisePrice(raw);
      r.Ok? <==> t != [] && AllDigits(t) && DecimalValue(t) <= MaxUint64
    ensures r.Ok? ==> r.value == DecimalValue(NormalisePrice(raw))
    ensures r.Err? ==> r.error.num == NormalisePrice(raw)
  {
    ParseUint(NormalisePrice(raw))
  }

  /** A comma can never reach the number parser, wherever it stood. */
  lemma NormalisedHasNoComma(raw: string)
    ensures ',' !in NormalisePrice(raw)
  {
    var t := RemoveAll(TrimSpace(raw), ',');
    RemoveAllMembers(TrimSpace(raw), ',', ',');
    if ',' in RemoveFirst(t, Pound) {
      RemoveFirstMembers(t, Pound, ',');
    }
  }

  /** The three normalisation steps, composed. */
  lemma NormaliseBySteps(raw: string, trimmed: string, kept: string, result: string)
    requires TrimSpace(raw) == trimmed
    requires RemoveAll(trimmed, ',') == kept
    requires RemoveFirst(kept, Pound) == result
    ensures NormalisePrice(raw) == result
  {
  }

  /** ASCII digits and thousands separators, starting and ending with a
      digit: the amount as the site displays it. */
  predicate IsGroupedAmount(amount: string) {
    && amount != []
    && IsDigit(amount[0])
    && IsDigit(amount[|amount| - 1])
    && forall i :: 0 <= i < |amount| ==> IsDigit(amount[i]) || amount[i] == ','
  }

  lemma TrimDisplayText(lead: string, symbol: string, amount: string, trail: string)
    requires symbol == [] || symbol == [Pound]
    requires AllSpace(lead) && AllSpace(trail) && IsGroupedAmount(amount)
    ensures TrimSpace(lead + symbol + amount + trail) == symbol + amount
  {
    var body := symbol + amount;
    assert lead + symbol + amount + trail == lead + body + trail;
    assert body[|body| - 1] == amount[|amount| - 1];
    TrimSpaceOfPadded(lead, body, trail);
  }

  lemma RemoveLeadingPound(s: string)
    ensures RemoveFirst([Pound] + s, Pound) == s
  {
    RemoveFirstAtHead([Pound] + s, Pound);
    assert ([Pound] + s)[1..] == s;
  }

  /** The digits left once the separators of a displayed amount are gone. */
  lemma DigitsOfGroupedAmount(amount: string)
    requires IsGroupedAmount(amount)
    ensures RemoveAll(amount, ',') != [] && AllDigits(RemoveAll(amount, ','))
  {
    var digits := RemoveAll(amount, ',');
    RemoveAllMembers(amount, ',', amount[|amount| - 1]);
    forall i | 0 <= i < |digits|
      ensures IsDigit(digits[i])
    {
      RemoveAllMembers(amount, ',', digits[i]);
    }
  }

  lemma NoPoundInDigits(digits: string)
    requires AllDigits(digits)
    ensures Pound !in digits
  {
    assert forall i :: 0 <= i < |digits| ==> digits[i] != Pound;
  }

  lemma RemoveAllAfterSymbol(symbol: string, amount: string)
    requires symbol == [] || symbol == [Pound]
    ensures RemoveAll(symbol + amount, ',') == symbol + RemoveAll(amount, ',')
  {
    if symbol == [Pound] {
      RemoveAllCons(Pound, amount, ',');
    } else {
      assert symbol + amount == amount;
      assert symbol + RemoveAll(amount, ',') == RemoveAll(amount, ',');
    }
  }

  /** Displayed text, an optional pound sign and a displayed amount between
      optional white space, normalises to the amount without its commas. */
  lemma NormaliseDisplayText(lead: string, symbol: string, amount: string, trail: string)
    requires symbol == [] || symbol == [Pound]
    requires AllSpace(lead) && AllSpace(trail) && IsGroupedAmount(amount)
    ensures NormalisePrice(lead + symbol + amount + trail) == RemoveAll(amount, ',')
  {
    var digits := RemoveAll(amount, ',');
    DigitsOfGroupedAmount(amount);
    NoPoundInDigits(digits);
    calc {
      NormalisePrice(lead + symbol + amount + trail);
      RemoveFirst(RemoveAll(TrimSpace(lead + symbol + amount + trail), ','), Pound);
      { TrimDisplayText(lead, symbol, amount, trail); }
      RemoveFirst(RemoveAll(symbol + amount, ','), Pound);
      { RemoveAllAfterSymbol(symbol, amount); }
      RemoveFirst(symbol + digits, Pound);
      { if symbol == [Pound] { RemoveLeadingPound(digits); } else { assert symbol + digits == digits; RemoveFirstAbsent(digits, Pound); } }
      digits;
    }
  }

  /** Text made of optional white space, an optional pound sign, an amount
      with thousands separators and optional white space parses to the value
      of the amount's digits, or fails with a range error when that value
      does not fit in 64 bits. */
  lemma ParsePriceOfDisplayText(lead: string, symbol: string, amount: string, trail: string)
    requires symbol == [] || symbol == [Pound]
    requires AllSpace(lead) && AllSpace(trail) && IsGroupedAmount(amount)
    ensures var digits := RemoveAll(amount, ',');
      && digits != [] && AllDigits(digits)
      && ParsePrice(lead + symbol + amount + trail)
         == if DecimalValue(digits) <= MaxUint64 then Ok(DecimalValue(digits))
            else Err(NumError(digits, ErrRange))
  {
    NormaliseDisplayText(lead, symbol, amount, trail);
    DigitsOfGroupedAmount(amount);
    var digits := RemoveAll(amount, ',');
    assert DigitRun(digits) == |digits| && digits[..|digits|] == digits;
  }

  /** Text whose normal form holds anything but a digit is refused. */
  lemma ParsePriceRejectsNonDigit(raw: string, i: nat)
    requires i < |NormalisePrice(raw)| && !IsDigit(NormalisePrice(raw)[i])
    ensures ParsePrice(raw).Err?
  {
  }

  lemma NormaliseSpaceAfterPound(lead: string, space: char, amount: string, trail: string)
    requires AllSpace(lead) && AllSpace(trail) && IsSpace(space) && IsGroupedAmount(amount)
    ensures NormalisePrice(lead + [Pound, space] + amount + trail) == [space] + RemoveAll(amount, ',')
  {
    var body := [Pound, space] + amount;
    var rest := [space] + RemoveAll(amount, ',');
    assert lead + [Pound, space] + amount + trail == lead + body + trail;
    TrimSpaceAfterPound(lead, space, amount, trail);
    RemoveAllSpaceAfterPound(space, amount);
    RemoveLeadingPound(rest);
    NormaliseBySteps(lead + body + trail, body, [Pound] + rest, rest);
  }

  lemma TrimSpaceAfterPound(lead: string, space: char, amount: string, trail: string)
    requires AllSpace(lead) && AllSpace(trail) && IsGroupedAmount(amount)
    ensures TrimSpace(lead + ([Pound, space] + amount) + trail) == [Pound, space] + amount
  {
    var body := [Pound, space] + amount;
    assert body[|body| - 1] == amount[|amount| - 1];
    TrimSpaceOfPadded(lead, body, trail);
  }

  lemma RemoveAllSpaceAfterPound(space: char, amount: string)
    requires IsSpace(space)
    ensures RemoveAll([Pound, space] + amount, ',') == [Pound] + ([space] + RemoveAll(amount, ','))
  {
    assert [Pound, space] + amount == [Pound] + ([space] + amount);
    RemoveAllCons(Pound, [space] + amount, ',');
    RemoveAllCons(space, amount, ',');
  }

  /** White space between the pound sign and the digits is not trimmed, so
      such text never parses. */
  lemma ParsePriceRejectsSpaceAfterPound(lead: string, space: char, amount: string, trail: string)
    requires AllSpace(lead) && AllSpace(trail) && IsSpace(space) && IsGroupedAmount(amount)
    ensures ParsePrice(lead + [Pound, space] + amount + trail).Err?
  {
    NormaliseSpaceAfterPound(lead, space, amount, trail);
    ParsePriceRejectsNonDigit(lead + [Pound, space] + amount + trail, 0);
  }

  lemma NormaliseDoubledPound(amount: string)
    requires IsGroupedAmount(amount)
    ensures NormalisePrice([Pound, Pound] + amount) == [Pound] + RemoveAll(amount, ',')
  {
    var digits := RemoveAll(amount, ',');
    TrimDoubledPound(amount);
    RemoveAllDoubledPound(amount);
    RemoveFirstDoubledPound(digits);
    NormaliseBySteps([Pound, Pound] + amount, [Pound, Pound] + amount, [Pound, Pound] + digits, [Pound] + digits);
  }

  lemma TrimDoubledPound(amount: string)
    requires IsGroupedAmount(amount)
    ensures TrimSpace([Pound, Pound] + amount) == [Pound, Pound] + amount
  {
    var body := [Pound, Pound] + amount;
    assert body[|body| - 1] == amount[|amount| - 1];
    TrimSpaceOfUnpadded(body);
  }

  lemma RemoveAllDoubledPound(amount: string)
    ensures RemoveAll([Pound, Pound] + amount, ',') == [Pound, Pound] + RemoveAll(amount, ',')
  {
    assert [Pound, Pound] + amount == [Pound] + ([Pound] + amount);
    RemoveAllCons(Pound, [Pound] + amount, ',');
    RemoveAllCons(Pound, amount, ',');
  }

  lemma RemoveFirstDoubledPound(digits: string)
    ensures RemoveFirst([Pound, Pound] + digits, Pound) == [Pound] + digits
  {
    assert [Pound, Pound] + digits == [Pound] + ([Pound] + digits);
    RemoveLeadingPound([Pound] + digits);
  }

  /** Only the first pound sign is removed, so a doubled sign never parses. */
  lemma ParsePriceRejectsDoubledPound(amount: string)
    requires IsGroupedAmount(amount)
    ensures ParsePrice([Pound, Pound] + amount).Err?
  {
    NormaliseDoubledPound(amount);
    ParsePriceRejectsNonDigit([Pound, Pound] + amount, 0);
  }

  lemma NormaliseInnerPound(left: string, right: string)
    requires left != [] && right != [] && AllDigits(left) && AllDigits(right)
    ensures NormalisePrice(left + [Pound] + right) == left + right
  {
    var s := left + [Pound] + right;
    TrimInnerPound(left, right);
    RemoveAllInnerPound(left, right);
    NoPoundInDigits(left);
    RemoveFirstAfter(left, Pound, right);
    NormaliseBySteps(s, s, s, left + right);
  }

  lemma TrimInnerPound(left: string, right: string)
    requires left != [] && right != [] && AllDigits(left) && AllDigits(right)
    ensures TrimSpace(left + [Pound] + right) == left + [Pound] + right
  {
    var s := left + [Pound] + right;
    assert s[0] == left[0] && s[|s| - 1] == right[|right| - 1];
    TrimSpaceOfUnpadded(s);
  }

  lemma RemoveAllInnerPound(left: string, right: string)
    requires AllDigits(left) && AllDigits(right)
    ensures RemoveAll(left + [Pound] + right, ',') == left + [Pound] + right
  {
    var s := left + [Pound] + right;
    assert forall i :: 0 <= i < |s| ==> s[i] != ',';
    RemoveAllAbsent(s, ',');
  }

  /** The pound sign removed is the first one wherever it stands, not only
      at the front: a sign between digits is dropped as well. */
  lemma ParsePriceDropsInnerPound(left: string, right: string)
    requires left != [] && right != [] && AllDigits(left) && AllDigits(right)
    ensures ParsePrice(left + [Pound] + right) == ParseUint(left + right)
  {
    NormaliseInnerPound(left, right);
  }

  /** A displayed amount whose digits are known parses to their value. */
  lemma ParsePriceOfKnownDigits(lead: string, symbol: string, amount: string, trail: string, digits: string)
    requires symbol == [] || symbol == [Pound]
    requires AllSpace(lead) && AllSpace(trail) && IsGroupedAmount(amount)
    requires RemoveAll(amount, ',') == digits && AllDigits(digits) && DecimalValue(digits) <= MaxUint64
    ensures ParsePrice(lead + symbol + amount + trail) == Ok(DecimalValue(digits))
  {
    ParsePriceOfDisplayText(lead, symbol, amount, trail);
  }

  /** The displayed price of a listing. */
  lemma ParsePriceOfDisplayedPrice()
    ensures ParsePrice("£435,000") == Ok(435000)
  {
    ParsePriceOfPoundExample();
    DisplayedPriceText();
  }

  /** The example text as the concatenation of its parts; a lemma of its own,
      so that the comparison of the literals is proved without `ParsePrice`
      in scope. */
  lemma DisplayedPriceText()
    ensures [] + [Pound] + "435,000" + [] == "£435,000"
  {
  }

  /** The example, stated on its parts so that the general lemmas apply. */
  lemma ParsePriceOfPoundExample()
    ensures ParsePrice([] + [Pound] + "435,000" + []) == Ok(435000)
  {
    GroupedAmountExample();
    DecimalValueExample();
    ParsePriceOfKnownDigits([], [Pound], "435,000", [], "435000");
  }

  lemma GroupedAmountExample()
    ensures IsGroupedAmount("435,000") && RemoveAll("435,000", ',') == "435000"
  {
    assert "435,000" == "435" + [','] + "000";
    RemoveAllJoin("435", "000", ',');
    assert "435" + "000" == "435000";
  }

  lemma DecimalValueExample()
    ensures AllDigits("435000") && DecimalValue("435000") == 435000
  {
    DecimalValueSnoc("", '4');
    assert "" + ['4'] == "4";
    DecimalValueSnoc("4", '3');
    assert "4" + ['3'] == "43";
    DecimalValueSnoc("43", '5');
    assert "43" + ['5'] == "435";
    DecimalValueSnoc("435", '0');
    assert "435" + ['0'] == "4350";
    DecimalValueSnoc("4350", '0');
    assert "4350" + ['0'] == "43500";
    DecimalValueSnoc("43500", '0');
    assert "43500" + ['0'] == "435000";
  }

  /** An amount with a separator and no pound sign. */
  lemma ParsePriceOfThousands()
    ensures ParsePrice("1,000") == Ok(1000)
  {
    ParsePriceOfThousandsParts();
    ThousandsText();
  }

  /** The example text as the concatenation of its parts; a lemma of its own,
      so that the comparison of the literals is proved without `ParsePrice`
      in scope. */
  lemma ThousandsText()
    ensures [] + [] + "1,000" + [] == "1,000"
  {
  }

  /** The example, stated on its parts so that the general lemmas apply. */
  lemma ParsePriceOfThousandsParts()
    ensures ParsePrice([] + [] + "1,000" + []) == Ok(1000)
  {
    ThousandsExample();
    ParsePriceOfKnownDigits([], [], "1,000", [], "1000");
  }

  lemma ThousandsExample()
    ensures IsGroupedAmount("1,000") && RemoveAll("1,000", ',') == "1000"
    ensures AllDigits("1000") && DecimalValue("1000") == 1000
  {
    assert "1,000" == "1" + [','] + "000";
    RemoveAllJoin("1", "000", ',');
    assert "1" + "000" == "1000";
    ThousandValue();
  }

  lemma ThousandValue()
    ensures AllDigits("1000") && DecimalValue("1000") == 1000
  {
    DecimalValueSnoc("", '1');
    assert "" + ['1'] == "1";
    DecimalValueSnoc("1", '0');
    assert "1" + ['0'] == "10";
    DecimalValueSnoc("10", '0');
    assert "10" + ['0'] == "100";
    DecimalValueSnoc("100", '0');
    assert "100" + ['0'] == "1000";
  }

  /** Surrounding white space is trimmed before the pound sign is removed. */
  lemma ParsePriceOfPaddedPrice()
    ensures ParsePrice("  £12  ") == Ok(12)
  {
    ParsePriceOfPaddedParts();
    PaddedText();
  }

  /** The example text as the concatenation of its parts; a lemma of its own,
      so that the comparison of the literals is proved without `ParsePrice`
      in scope. */
  lemma PaddedText()
    ensures "  " + [Pound] + "12" + "  " == "  £12  "
  {
  }

  /** The example, stated on its parts so that the general lemmas apply. */
  lemma ParsePriceOfPaddedParts()
    ensures ParsePrice("  " + [Pound] + "12" + "  ") == Ok(12)
  {
    PaddedExample();
    ParsePriceOfKnownDigits("  ", [Pound], "12", "  ", "12");
  }

  lemma PaddedExample()
    ensures IsGroupedAmount("12") && AllSpace("  ") && RemoveAll("12", ',') == "12"
    ensures AllDigits("12") && DecimalValue("12") == 12
  {
    RemoveAllAbsent("12", ',');
    DecimalValueSnoc("", '1');
    assert "" + ['1'] == "1";
    DecimalValueSnoc("1", '2');
    assert "1" + ['2'] == "12";
  }

  /** Empty text is not a price. */
  lemma ParsePriceRejectsEmpty()
    ensures ParsePrice("").Err?
  {
    assert TrimSpace("") == "";
    assert NormalisePrice("") == "";
  }

  /** Words are not prices. */
  lemma ParsePriceRejectsWords()
    ensures ParsePrice("abc").Err?
  {
    NormaliseOfPlain("abc");
    ParsePriceRejectsNonDigit("abc", 0);
  }

  /** Text with nothing to trim, no comma and no pound sign is handed to
      the number parser unchanged. */
  lemma NormaliseOfPlain(s: string)
    requires s != [] && !IsSpace(s[0]) && !IsSpace(s[|s| - 1])
    requires ',' !in s && Pound !in s
    ensures NormalisePrice(s) == s
  {
    TrimSpaceOfUnpadded(s);
    RemoveAllAbsent(s, ',');
    RemoveFirstAbsent(s, Pound);
    NormaliseBySteps(s, s, s, s);
  }
}
