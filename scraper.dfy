/**
 * `fetch_vinted` (Run.py) after the page has been parsed: which of the extracted
 * values become the listing's fields. The HTML itself is not modelled; a `Page` holds
 * what the CSS selectors found, in document order.
 */
module Scraper {
  import opened Wrappers
  import opened Sanitize

  /** Only photos served from this host are used. */
  const CdnPrefix := "https://images1.vinted.net/"

  /** The condition labels the page can show. */
  const ValidConditions: seq<string> := ["New with tags", "New without tags", "Very good", "Good", "Satisfactory"]

  predicate StartsWith(s: string, prefix: string) {
    |prefix| <= |s| && s[..|prefix|] == prefix
  }

  /** An `<img>` whose `src` attribute is present, non-empty and on the photo host. */
  predicate IsCdnSrc(src: Option<string>) {
    src.Some? && src.value != "" && StartsWith(src.value, CdnPrefix)
  }

  /** A bold span whose text is one of the condition labels. */
  predicate IsCondition(text: string) {
    text in ValidConditions
  }

  /** The index of the first element satisfying `p`, or `|s|` when there is none. */
  function FirstIndex<T>(s: seq<T>, p: T -> bool): (i: nat)
    ensures i <= |s|
    ensures i < |s| ==> p(s[i])
    ensures forall j :: 0 <= j < i ==> !p(s[j])
  {
    if s == [] then 0
    else if p(s[0]) then 0
    else 1 + FirstIndex(s[1..], p)
  }

  /** The photo URL: the first `src` in document order on the photo host, if any. */
  function FirstImage(srcs: seq<Option<string>>): (image: Option<string>)
    ensures image.None? <==> forall j :: 0 <= j < |srcs| ==> !IsCdnSrc(srcs[j])
    ensures image.Some? ==> StartsWith(image.value, CdnPrefix) &&
                            image == srcs[FirstIndex(srcs, IsCdnSrc)]
  {
    var i := FirstIndex(srcs, IsCdnSrc);
    if i < |srcs| then srcs[i] else None
  }

  /** The condition: the first bold span that is a condition label, or "" if none is. */
  function FirstCondition(spans: seq<string>): (condition: string)
    ensures condition == "" <==> forall j :: 0 <= j < |spans| ==> !IsCondition(spans[j])
    ensures condition != "" ==> IsCondition(condition) &&
                                condition == spans[FirstIndex(spans, IsCondition)]
  {
    var i := FirstIndex(spans, IsCondition);
    if i < |spans| then spans[i] else ""
  }

  /** The `for img in soup.find_all("img")` loop with its `break`. */
  method FindImage(srcs: seq<Option<string>>) returns (image: Option<string>)
    ensures image == FirstImage(srcs)
  {
    image := None;
    for i := 0 to |srcs|
      invariant image == None
      invariant forall j :: 0 <= j < i ==> !IsCdnSrc(srcs[j])
    {
      var src := srcs[i];
      if src.Some? && src.value != "" && StartsWith(src.value, CdnPrefix) {
        image := src;
        assert FirstIndex(srcs, IsCdnSrc) == i;
        break;
      }
    }
  }

  /** The `for span in soup.select('span.web_ui__Text__bold')` loop with its `break`. */
  method FindCondition(spans: seq<string>) returns (condition: string)
    ensures condition == FirstCondition(spans)
  {
    condition := "";
    for i := 0 to |spans|
      invariant condition == ""
      invariant forall j :: 0 <= j < i ==> !IsCondition(spans[j])
    {
      var text := spans[i];
      if text in ValidConditions {
        condition := text;
        assert FirstIndex(spans, IsCondition) == i;
        break;
      }
    }
  }

  // ---------------------------------------------------------------- price text

  /** The characters `[0-9.]` that survive the price filter. */
  predicate IsPriceChar(c: char) {
    ('0' <= c <= '9') || c == '.'
  }

  /**
   * The text handed to `float`: the price with every character outside `[0-9.]` removed,
   * or "0" when nothing is left (`... or 0`).
   */
  function PriceNumber(priceText: string): (r: string)
    ensures r != "" && AllKept(r, IsPriceChar)
    ensures Filter(priceText, IsPriceChar) != "" ==> r == Filter(priceText, IsPriceChar)
    ensures Filter(priceText, IsPriceChar) == "" ==> r == "0"
  {
    var digits := Filter(priceText, IsPriceChar);
    if digits == "" then "0" else digits
  }

  /** A currency sign in front of the amount is dropped and the amount kept whole. */
  lemma PriceDropsCurrency(sign: char, amount: string)
    requires !IsPriceChar(sign) && amount != "" && AllKept(amount, IsPriceChar)
    ensures PriceNumber([sign] + amount) == amount
  {
    FilterAppend([sign], amount, IsPriceChar);
    FilterFixed(amount, IsPriceChar);
    assert Filter([sign], IsPriceChar) == Filter([], IsPriceChar);
  }

  // ---------------------------------------------------------------- the record

  /** What the selectors found on the page, in document order; `None` where a tag is missing. */
  datatype Page = Page(
    title: Option<string>,           // text of `h1.web_ui__Text__title`
    price: Option<string>,           // text of `p.web_ui__Text__subtitle`
    imageSrcs: seq<Option<string>>,  // `src` of every `<img>`
    sizeText: Option<string>,        // first direct text node beside the size button
    boldSpans: seq<string>,          // text of every `span.web_ui__Text__bold`
    brand: Option<string>)           // text of the first span in a `/brand/` link

  /** The scraped listing, as the dictionary `fetch_vinted` returns. */
  datatype Listing = Listing(
    title: string, price: string, buyerFee: string, image: Option<string>,
    size: string, condition: string, brand: string)

  /**
   * `fetch_vinted` from the parsed page on. `money` turns the filtered price text into
   * the two formatted amounts (price and price with the buyer fee), which this model
   * does not compute; `wide` is the table of word characters above U+00FF. A missing
   * tag never fails: it gives "" (or no image).
   */
  method ExtractListing(page: Page, money: string -> (string, string), wide: char -> bool) returns (l: Listing)
    ensures l.title == RemoveEmojis(page.title.GetOr(""), wide) && AllKept(l.title, KeptBy(wide))
    ensures (l.price, l.buyerFee) == money(PriceNumber(page.price.GetOr("")))
    ensures l.image == FirstImage(page.imageSrcs)
    ensures l.image.Some? ==> StartsWith(l.image.value, CdnPrefix)
    ensures l.size == (if page.sizeText.Some? then Strip(page.sizeText.value) else "")
    ensures l.size == "" || (!IsSpace(l.size[0]) && !IsSpace(l.size[|l.size| - 1]))
    ensures l.condition == FirstCondition(page.boldSpans)
    ensures l.condition == "" || l.condition in ValidConditions
    ensures l.brand == page.brand.GetOr("")
  {
    var title := RemoveEmojis(page.title.GetOr(""), wide);
    var amounts := money(PriceNumber(page.price.GetOr("")));
    var image := FindImage(page.imageSrcs);
    var size := "";
    if page.sizeText.Some? {
      size := Strip(page.sizeText.value);
      StripSlice(page.sizeText.value);
    }
    var condition := FindCondition(page.boldSpans);
    var brand := page.brand.GetOr("");
    l := Listing(title, amounts.0, amounts.1, image, size, condition, brand);
  }
}
