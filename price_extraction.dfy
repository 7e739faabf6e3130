/** `getPrice`: reading a price off a rendered product page. The browser is
    abstracted away: a page is what its selectors' `textContent` returns, and
    a page that could not be loaded is `None`. */
module PriceExtraction {
  import opened Wrappers
  import opened JsText
  import opened PriceParsing

  type Selector = string

  /** The text of the first element each selector matches; a selector that is
      not in the map has no text (null). */
  type Page = map<Selector, string>

  const SteamHost := "steampowered.com"
  const MercadoLibreHost := "mercadolibre.com"

  /** Discounted price, full price, generic price class: most specific first. */
  const SteamSelectors: seq<Selector> := [".discount_final_price", ".game_purchase_price", ".price"]
  const FractionSelector: Selector := "span.andes-money-amount__fraction"
  const CentsSelector: Selector := "span.andes-money-amount__cents"

  /** Why `getPrice` throws: the page did not load, or no valid price was read. */
  datatype PriceError = NavigationFailed | NoValidPrice

  /** The JavaScript variable `price`: null, NaN or a number. */
  datatype JsPrice = Null | NaN | Num(value: real)

  /** `textContent` of a selector, with null read as the (equally falsy) "". */
  function TextOf(page: Page, sel: Selector): string {
    if sel in page then page[sel] else ""
  }

  predicate IsPriceChar(c: char) {
    IsDigit(c) || c == '.' || c == ','
  }

  /** `text.replace(/[^\d.,]/g, '')` */
  function KeepPriceChars(s: string): (r: string)
    ensures |r| <= |s|
    ensures forall k :: 0 <= k < |r| ==> IsPriceChar(r[k])
  {
    if s == [] then []
    else (if IsPriceChar(s[0]) then [s[0]] else []) + KeepPriceChars(s[1..])
  }

  /** Cleaning distributes over concatenation: each character is kept or
      dropped on its own, and the kept ones stay in order. */
  lemma {:induction false} KeepPriceCharsAppend(a: string, b: string)
    ensures KeepPriceChars(a + b) == KeepPriceChars(a) + KeepPriceChars(b)
  {
    if a == [] {
      assert a + b == b;
    } else {
      assert (a + b)[0] == a[0];
      assert (a + b)[1..] == a[1..] + b;
      KeepPriceCharsAppend(a[1..], b);
    }
  }

  /** Cleaning keeps every digit, point and comma: a text made only of them
      is left as it is, and one with anything else is shortened. */
  lemma {:induction false} KeepPriceCharsIdentity(s: string)
    ensures KeepPriceChars(s) == s <==> forall k :: 0 <= k < |s| ==> IsPriceChar(s[k])
  {
    if s != [] {
      KeepPriceCharsIdentity(s[1..]);
      if !IsPriceChar(s[0]) {
        assert |KeepPriceChars(s)| < |s|;
      } else if KeepPriceChars(s) == s {
        assert KeepPriceChars(s[1..]) == s[1..];
        forall k | 1 <= k < |s| ensures IsPriceChar(s[k]) {
          assert s[k] == s[1..][k - 1];
        }
      }
    }
  }

  /** Every digit, point and comma of the text survives cleaning, as often
      as it occurs, and nothing else does. */
  lemma {:induction false} KeepPriceCharsCounts(s: string, c: char)
    ensures multiset(KeepPriceChars(s))[c] == if IsPriceChar(c) then multiset(s)[c] else 0
  {
    if s != [] {
      KeepPriceCharsCounts(s[1..], c);
      assert s == [s[0]] + s[1..];
    }
  }

  /** `.replace(',', '.')`: only the first comma becomes a point. */
  function ReplaceFirstComma(s: string): (r: string)
    ensures |r| == |s|
    ensures forall k :: 0 <= k < |s| ==>
      r[k] == if s[k] == ',' && ',' !in s[..k] then '.' else s[k]
  {
    if s == [] then []
    else if s[0] == ',' then "." + s[1..]
    else
      var rest := ReplaceFirstComma(s[1..]);
      assert forall k :: 1 <= k < |s| ==> s[1..][..k - 1] == s[1..k];
      [s[0]] + rest
  }

  /** The cleaning expression of the Steam branch: only digits, points and
      commas are left, and a text without a comma is only filtered. */
  function SteamClean(text: string): (r: string)
    ensures |r| <= |text|
    ensures forall k :: 0 <= k < |r| ==> IsPriceChar(r[k])
    ensures ',' !in text ==> r == KeepPriceChars(text)
  {
    var kept := KeepPriceChars(text);
    KeepPriceCharsCounts(text, ',');
    assert ',' !in text ==> ',' !in kept;
    ReplaceFirstComma(kept)
  }

  /** What one Steam selector gives: no text, text that does not parse, or
      a number. */
  datatype Reading = Empty | Unparsable | Parsed(value: real)

  /** A cleaned text starts with a digit, or with a point and a digit. */
  predicate LeadsWithNumber(c: string) {
    |c| > 0 && (IsDigit(c[0]) || (|c| > 1 && c[0] == '.' && IsDigit(c[1])))
  }

  /** Read one selector as the body of the Steam loop does: no text is
      skipped. */
  function ReadSelector(page: Page, sel: Selector): (r: Reading)
    ensures r.Empty? <==> TextOf(page, sel) == ""
  {
    var text := TextOf(page, sel);
    if text == "" then Empty
    else match ParseFloat(SteamClean(text))
      case Some(v) => Parsed(v)
      case None => Unparsable
  }

  /** A selector's text parses exactly when its cleaned form leads with a
      number: cleaning leaves no sign and no space for `parseFloat` to skip. */
  lemma ReadSelectorParses(page: Page, sel: Selector)
    ensures ReadSelector(page, sel).Parsed? <==> TextOf(page, sel) != "" && LeadsWithNumber(SteamClean(TextOf(page, sel)))
  {
    var c := SteamClean(TextOf(page, sel));
    assert c != [] ==> !IsWhitespace(c[0]) && !IsSign(c[0]);
    assert TrimStart(c) == c;
  }

  /** The readings of a list of selectors, in order. */
  function Readings(page: Page, sels: seq<Selector>): (rs: seq<Reading>)
    ensures |rs| == |sels|
    ensures forall i :: 0 <= i < |sels| ==> rs[i] == ReadSelector(page, sels[i])
  {
    if sels == [] then [] else [ReadSelector(page, sels[0])] + Readings(page, sels[1..])
  }

  /** The value of `price` after a loop over selectors, given the value it had
      before. */
  function Settle(before: JsPrice, rest: JsPrice): JsPrice {
    if rest.Null? then before else rest
  }

  /** What the Steam loop leaves in `price` when it starts from null: the
      number of the first selector that parses (even 0), else NaN if some
      selector had text, else null. */
  function FirstPrice(rs: seq<Reading>): (r: JsPrice)
    ensures r.Num? <==> exists i :: 0 <= i < |rs| && rs[i].Parsed?
    ensures forall i :: 0 <= i < |rs| && rs[i].Parsed? && (forall j :: 0 <= j < i ==> !rs[j].Parsed?) ==>
              r == Num(rs[i].value)
    ensures r.Null? <==> forall i :: 0 <= i < |rs| ==> rs[i].Empty?
  {
    if rs == [] then Null
    else
      var rest := FirstPrice(rs[1..]);
      assert forall i :: 1 <= i < |rs| ==> rs[1..][i - 1] == rs[i];
      match rs[0]
      case Empty => rest
      case Parsed(v) => Num(v)
      case Unparsable => Settle(NaN, rest)
  }

  /** The Steam loop over the fixed selector list: null exactly when no
      selector has text, a number exactly when some selector parses. */
  function SteamScan(page: Page): (r: JsPrice)
    ensures r.Null? <==> forall i :: 0 <= i < |SteamSelectors| ==> TextOf(page, SteamSelectors[i]) == ""
    ensures r.Num? <==> exists i :: 0 <= i < |SteamSelectors| && ReadSelector(page, SteamSelectors[i]).Parsed?
  {
    var rs := Readings(page, SteamSelectors);
    assert forall i :: 0 <= i < |SteamSelectors| ==> rs[i] == ReadSelector(page, SteamSelectors[i]);
    FirstPrice(rs)
  }

  /** The MercadoLibre branch: `parseFloat(fraction + "." + cents)`, with
      cents "00" when its element has no text; `Null` when there is no
      fraction (the branch then leaves `price` as it was). */
  function MercadoLibreScan(page: Page): (r: JsPrice)
    ensures r.Null? <==> TextOf(page, FractionSelector) == ""
    ensures r.Num? && '-' !in TextOf(page, FractionSelector) && '-' !in TextOf(page, CentsSelector) ==> r.value >= 0.0
  {
    var fraction := TextOf(page, FractionSelector);
    if fraction == "" then Null
    else
      var cents := if TextOf(page, CentsSelector) == "" then "00" else TextOf(page, CentsSelector);
      var t := fraction + "." + cents;
      assert '-' !in fraction && '-' !in cents ==> forall k :: 0 <= k < |t| ==> t[k] != '-' by {
        if '-' !in fraction && '-' !in cents {
          forall k | 0 <= k < |t| ensures t[k] != '-' {
            if k < |fraction| { assert t[k] == fraction[k]; }
            else if k > |fraction| { assert t[k] == cents[k - |fraction| - 1]; }
          }
        }
      }
      match ParseFloat(t)
      case Some(v) => Num(v)
      case None => NaN
  }

  /** The final check: null, NaN and 0 are all rejected (`!price || isNaN(price)`). */
  function Validate(price: JsPrice): (r: Result<real, PriceError>)
    ensures r.Success? <==> price.Num? && price.value != 0.0
    ensures r.Success? ==> r.value == price.value
    ensures r.Failure? ==> r.error == NoValidPrice
  {
    match price
    case Num(v) => if v == 0.0 then Failure(NoValidPrice) else Success(v)
    case _ => Failure(NoValidPrice)
  }

  /** `getPrice(url)` on a page that loaded as `page` (or did not). */
  function PriceOf(url: string, page: Option<Page>): (r: Result<real, PriceError>)
    ensures page.None? <==> r == Failure(NavigationFailed)
    ensures r.Success? ==> r.value != 0.0
    ensures page.Some? && !Includes(url, SteamHost) && !Includes(url, MercadoLibreHost)
            ==> r == Failure(NoValidPrice)
  {
    match page
    case None => Failure(NavigationFailed)
    case Some(p) =>
      var steam := if Includes(url, SteamHost) then SteamScan(p) else Null;
      var price := if Includes(url, MercadoLibreHost) then Settle(steam, MercadoLibreScan(p)) else steam;
      Validate(price)
  }

  /** Only the first comma is rewritten, whatever follows it. */
  lemma ReplaceFirstCommaSplit(x: string, y: string)
    requires ',' !in x
    ensures ReplaceFirstComma(x + "," + y) == x + "." + y
  {
    var s := x + "," + y;
    var r := ReplaceFirstComma(s);
    forall k | 0 <= k < |s| ensures r[k] == (x + "." + y)[k] {
      if k < |x| {
        assert s[k] == x[k];
      } else if k == |x| {
        assert s[..k] == x;
      } else {
        assert s[..k][|x|] == ',';
      }
    }
  }

  /** A decimal comma is read as a decimal point: "12,99" is 12.99. */
  lemma SteamDecimalComma(intPart: string, fracPart: string)
    requires AllDigits(intPart) && AllDigits(fracPart) && |intPart| > 0
    ensures ParseFloat(SteamClean(intPart + "," + fracPart)) == Some(Mantissa(intPart, fracPart))
  {
    var s := intPart + "," + fracPart;
    KeepPriceCharsIdentity(s);
    assert KeepPriceChars(s) == s;
    assert ',' !in intPart;
    ReplaceFirstCommaSplit(intPart, fracPart);
    assert intPart + "." + fracPart == intPart + "." + fracPart + "";
    ParseDecimal(intPart, fracPart, "");
  }

  /** With a point as thousands separator and a comma as decimal separator,
      the comma becomes a second point and parsing stops there:
      "1.234,56" is read as 1.234, not as 1234.56. */
  lemma SteamThousandsSeparatorMisread(a: string, b: string, c: string)
    requires AllDigits(a) && AllDigits(b) && AllDigits(c) && |a| > 0
    ensures ParseFloat(SteamClean(a + "." + b + "," + c)) == Some(Mantissa(a, b))
  {
    var x := a + "." + b;
    var s := x + "," + c;
    KeepPriceCharsIdentity(s);
    assert KeepPriceChars(s) == s;
    assert ',' !in x;
    ReplaceFirstCommaSplit(x, c);
    assert x + "." + c == a + "." + b + ("." + c);
    ParseDecimal(a, b, "." + c);
  }

  /** Currency symbols, spaces and words around the amount do not matter. */
  lemma SteamIgnoresSurroundings(pre: string, amount: string, post: string)
    requires forall k :: 0 <= k < |pre| ==> !IsPriceChar(pre[k])
    requires forall k :: 0 <= k < |post| ==> !IsPriceChar(post[k])
    ensures SteamClean(pre + amount + post) == SteamClean(amount)
  {
    KeepPriceCharsAppend(pre + amount, post);
    KeepPriceCharsAppend(pre, amount);
    KeepPriceCharsNone(pre);
    KeepPriceCharsNone(post);
    assert KeepPriceChars(pre + amount + post) == KeepPriceChars(amount);
  }

  lemma {:induction false} KeepPriceCharsNone(s: string)
    requires forall k :: 0 <= k < |s| ==> !IsPriceChar(s[k])
    ensures KeepPriceChars(s) == []
  {
    if s != [] {
      KeepPriceCharsNone(s[1..]);
    }
  }

  /** A Steam reading is never negative: cleaning removed any minus sign. */
  lemma ReadingNonNegative(page: Page, sel: Selector)
    ensures ReadSelector(page, sel).Parsed? ==> ReadSelector(page, sel).value >= 0.0
  {
    var clean := SteamClean(TextOf(page, sel));
    assert forall k :: 0 <= k < |clean| ==> clean[k] != '-';
  }

  /** The number the loop settles on is one of the readings. */
  lemma {:induction false} FirstPriceNonNegative(rs: seq<Reading>)
    requires forall i :: 0 <= i < |rs| && rs[i].Parsed? ==> rs[i].value >= 0.0
    ensures FirstPrice(rs).Num? ==> FirstPrice(rs).value >= 0.0
  {
    if rs != [] {
      assert forall i :: 1 <= i < |rs| ==> rs[1..][i - 1] == rs[i];
      FirstPriceNonNegative(rs[1..]);
    }
  }

  /** A Steam-only price `getPrice` returns is strictly positive. */
  lemma SteamPricePositive(url: string, page: Page)
    requires !Includes(url, MercadoLibreHost)
    requires PriceOf(url, Some(page)).Success?
    ensures PriceOf(url, Some(page)).value > 0.0
  {
    var rs := Readings(page, SteamSelectors);
    forall i | 0 <= i < |rs| ensures rs[i].Parsed? ==> rs[i].value >= 0.0 {
      ReadingNonNegative(page, SteamSelectors[i]);
    }
    FirstPriceNonNegative(rs);
  }

  /** The loop stops at the first selector that parses even when it reads 0,
      and the final check then rejects the page, whatever later selectors hold. */
  lemma SteamZeroStopsTheLoop(url: string, page: Page, i: nat)
    requires Includes(url, SteamHost) && !Includes(url, MercadoLibreHost)
    requires i < |SteamSelectors| && ReadSelector(page, SteamSelectors[i]) == Parsed(0.0)
    requires forall j :: 0 <= j < i ==> !ReadSelector(page, SteamSelectors[j]).Parsed?
    ensures PriceOf(url, Some(page)) == Failure(NoValidPrice)
  {
    var rs := Readings(page, SteamSelectors);
    forall j | 0 <= j < i ensures !rs[j].Parsed? {
      assert rs[j] == ReadSelector(page, SteamSelectors[j]);
    }
    assert rs[i] == Parsed(0.0);
    assert FirstPrice(rs) == Num(0.0);
    MercadoLibreHostAbsent(url, page);
  }

  /** Without the MercadoLibre host only the Steam branch can set a price. */
  lemma MercadoLibreHostAbsent(url: string, page: Page)
    requires !Includes(url, MercadoLibreHost)
    ensures PriceOf(url, Some(page)) == Validate(if Includes(url, SteamHost) then SteamScan(page) else Null)
  {
  }

  /** The MercadoLibre branch runs second: once it reads a fraction, its
      price replaces whatever the Steam branch found. */
  lemma MercadoLibreOverridesSteam(url: string, page: Page)
    requires Includes(url, MercadoLibreHost) && TextOf(page, FractionSelector) != ""
    ensures PriceOf(url, Some(page)) == Validate(MercadoLibreScan(page))
  {
    assert !MercadoLibreScan(page).Null?;
  }

  /** Without a fraction the MercadoLibre branch leaves the Steam result as
      it was. */
  lemma MercadoLibreWithoutFraction(url: string, page: Page)
    requires TextOf(page, FractionSelector) == ""
    ensures PriceOf(url, Some(page)) == Validate(if Includes(url, SteamHost) then SteamScan(page) else Null)
  {
    assert MercadoLibreScan(page).Null?;
  }

  /** On a MercadoLibre page with a fraction, the price is `fraction.cents`
      (cents "00" when absent), whatever the Steam branch found before. */
  lemma MercadoLibrePrice(url: string, page: Page)
    requires Includes(url, MercadoLibreHost)
    requires TextOf(page, FractionSelector) != "" && AllDigits(TextOf(page, FractionSelector))
    requires AllDigits(TextOf(page, CentsSelector))
    ensures var cents := if TextOf(page, CentsSelector) == "" then "00" else TextOf(page, CentsSelector);
            var m := Mantissa(TextOf(page, FractionSelector), cents);
            PriceOf(url, Some(page)) == if m == 0.0 then Failure(NoValidPrice) else Success(m)
  {
    var fraction := TextOf(page, FractionSelector);
    var cents := if TextOf(page, CentsSelector) == "" then "00" else TextOf(page, CentsSelector);
    assert fraction + "." + cents == fraction + "." + cents + "";
    ParseDecimal(fraction, cents, "");
    assert MercadoLibreScan(page) == Num(Mantissa(fraction, cents));
    MercadoLibreOverridesSteam(url, page);
  }

  /** A MercadoLibre fraction shown with a point as thousands separator,
      "1.234", is composed into "1.234.cents", and parsing stops at the second
      point: the price read is 1.234, not 1234.cents. */
  lemma MercadoLibreThousandsMisread(url: string, page: Page, a: string, b: string)
    requires Includes(url, MercadoLibreHost)
    requires AllDigits(a) && AllDigits(b) && |a| > 0
    requires TextOf(page, FractionSelector) == a + "." + b
    ensures PriceOf(url, Some(page)) == Validate(Num(Mantissa(a, b)))
  {
    var cents := if TextOf(page, CentsSelector) == "" then "00" else TextOf(page, CentsSelector);
    assert a + "." + b + "." + cents == a + "." + b + ("." + cents);
    ParseDecimal(a, b, "." + cents);
    assert MercadoLibreScan(page) == Num(Mantissa(a, b));
    MercadoLibreOverridesSteam(url, page);
  }

  /** One turn of the Steam loop: an empty text leaves `price` alone, a
      parsed one ends the loop, an unparsable one sets NaN and goes on. */
  lemma FirstPriceStep(price: JsPrice, rs: seq<Reading>, i: nat)
    requires i < |rs|
    ensures Settle(price, FirstPrice(rs[i..])) ==
              match rs[i]
              case Empty => Settle(price, FirstPrice(rs[i + 1..]))
              case Parsed(v) => Num(v)
              case Unparsable => Settle(NaN, FirstPrice(rs[i + 1..]))
  {
    assert rs[i..][0] == rs[i] && rs[i..][1..] == rs[i + 1..];
  }

  /** The Steam `for` loop of `getPrice`: tries the selectors in order and
      breaks at the first whose cleaned text parses. */
  method SteamLoop(p: Page) returns (price: JsPrice)
    ensures price == SteamScan(p)
  {
    ghost var rs := Readings(p, SteamSelectors);
    price := Null;
    var i := 0;
    while i < |SteamSelectors|
      invariant 0 <= i <= |SteamSelectors|
      invariant !price.Num?
      invariant Settle(price, FirstPrice(rs[i..])) == FirstPrice(rs)
    {
      FirstPriceStep(price, rs, i);
      var reading := ReadSelector(p, SteamSelectors[i]);
      assert reading == rs[i];
      if !reading.Empty? {
        price := if reading.Parsed? then Num(reading.value) else NaN;
        if price.Num? {
          break;
        }
      }
      assert Settle(price, FirstPrice(rs[i + 1..])) == FirstPrice(rs);
      i := i + 1;
    }
  }

  /** `getPrice(url)`: navigation, the Steam branch, the MercadoLibre branch
      (which runs second and so wins when both hosts appear), the final check. */
  method GetPrice(url: string, page: Option<Page>) returns (r: Result<real, PriceError>)
    ensures r == PriceOf(url, page)
  {
    if page.None? {
      return Failure(NavigationFailed);
    }
    var p := page.value;
    var price := Null;
    if Includes(url, SteamHost) {
      price := SteamLoop(p);
    }
    if Includes(url, MercadoLibreHost) {
      var mercadoLibre := MercadoLibreScan(p);
      if !mercadoLibre.Null? {
        price := mercadoLibre;
      }
    }
    r := Validate(price);
  }
}
