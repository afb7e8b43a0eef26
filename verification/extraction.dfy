/**
  The per-item rule of the feed loop: which children of an `<item>` supply
  the product id, the displayed price and the image URLs, and when the item
  is skipped or stops the run.
 */
module Extraction {
  import opened Wrappers
  import opened Text
  import opened FeedItem

  const IdTag := "g:id"
  const SalePriceTag := "g:sale_price"
  const PriceTag := "g:price"
  const ImageTag := "g:image_link"
  const AdditionalImageTag := "g:additional_image_link"

  /** Only the first this-many `g:additional_image_link` children are used. */
  const MaxAdditionalImages := 2

  /** Appended to the price token. */
  const CurrencySymbol := "€"

  /** What one accepted item contributes: the arguments of one `create_ballzy_ad` call. */
  datatype Product = Product(id: string, price: string, imageUrls: seq<string>)

  /** Why an item is passed over with `continue`. */
  datatype SkipReason = NoId | NoPrice | NoImages

  /** An uncaught exception while reading the item; it ends the whole run.
      `.strip()` / `.split()` on a `None` text raise `AttributeError`;
      `split()[0]` on blank text raises `IndexError`. */
  datatype Fault = IdWithoutText | PriceWithoutText | PriceWithoutToken | ImageWithoutText

  datatype Outcome = Skipped(why: SkipReason) | Accepted(product: Product) | Crashed(fault: Fault)

  /** The price element: `g:sale_price` if the item has one, else `g:price`. */
  function PriceElement(item: Item): Option<Element> {
    match Find(item, SalePriceTag)
    case Some(e) => Some(e)
    case None => Find(item, PriceTag)
  }

  /** `f"{text.split()[0]}€"`. */
  function FormatPrice(text: string): (r: string)
    requires HasToken(text)
    ensures |r| >= 2 && r[|r| - 1] == '€'
    ensures NoSpace(r[..|r| - 1])
  {
    var tok := FirstToken(text);
    assert (tok + CurrencySymbol)[..|tok|] == tok;
    tok + CurrencySymbol
  }

  function Prefix<T>(s: seq<T>, n: nat): (r: seq<T>)
    ensures |r| == if |s| <= n then |s| else n
    ensures forall k | 0 <= k < |r| :: r[k] == s[k]
  {
    if |s| <= n then s else s[..n]
  }

  /** The elements whose text becomes an image URL: the `g:image_link`
      child, if any, then the first two `g:additional_image_link` children. */
  function ImageSources(item: Item): seq<Element> {
    var main := match Find(item, ImageTag) case Some(e) => [e] case None => [];
    main + Prefix(FindAll(item, AdditionalImageTag), MaxAdditionalImages)
  }

  /** The stripped texts of `es`, or `None` if one of them has no text. */
  function StrippedTexts(es: seq<Element>): (r: Option<seq<string>>)
    ensures r.Some? <==> forall k | 0 <= k < |es| :: es[k].text.Some?
    ensures r.Some? ==> |r.value| == |es|
    ensures r.Some? ==> forall k | 0 <= k < |es| :: r.value[k] == Strip(es[k].text.value)
  {
    if |es| == 0 then Some([])
    else match es[0].text
      case None => None
      case Some(t) =>
        match StrippedTexts(es[1..])
        case None => None
        case Some(rest) => Some([Strip(t)] + rest)
  }

  /** The element exists and has text, so `.strip()` / `.split()` on it do not raise. */
  predicate Readable(e: Option<Element>) {
    e.Some? && e.value.text.Some?
  }

  /** The price element exists and its text has a token, so `split()[0]` does not raise. */
  predicate PriceUsable(e: Option<Element>) {
    Readable(e) && HasToken(e.value.text.value)
  }

  predicate AllReadable(es: seq<Element>) {
    forall k | 0 <= k < |es| :: es[k].text.Some?
  }

  /** The decision of one loop iteration, given the `g:id` element, the
      price element and the image source elements, in the order the source
      inspects them. Each outcome is stated with the exact condition that
      produces it. */
  function Decide(idElem: Option<Element>, priceElem: Option<Element>, sources: seq<Element>): (r: Outcome)
    ensures r == Skipped(NoId) <==> idElem.None?
    ensures r == Crashed(IdWithoutText) <==> idElem.Some? && idElem.value.text.None?
    ensures r == Skipped(NoPrice) <==> Readable(idElem) && priceElem.None?
    ensures r == Crashed(PriceWithoutText)
            <==> Readable(idElem) && priceElem.Some? && priceElem.value.text.None?
    ensures r == Crashed(PriceWithoutToken)
            <==> Readable(idElem) && Readable(priceElem) && !HasToken(priceElem.value.text.value)
    ensures r == Crashed(ImageWithoutText)
            <==> Readable(idElem) && PriceUsable(priceElem) && !AllReadable(sources)
    ensures r == Skipped(NoImages)
            <==> Readable(idElem) && PriceUsable(priceElem) && sources == []
    ensures r.Accepted?
            <==> Readable(idElem) && PriceUsable(priceElem) && AllReadable(sources) && |sources| > 0
    ensures r.Accepted? ==> r.product.id == Strip(idElem.value.text.value)
    ensures r.Accepted? ==> r.product.price == FormatPrice(priceElem.value.text.value)
    ensures r.Accepted? ==> StrippedTexts(sources) == Some(r.product.imageUrls)
  {
    match idElem
    case None => Skipped(NoId)
    case Some(ie) =>
      match ie.text
      case None => Crashed(IdWithoutText)
      case Some(idText) =>
        match priceElem
        case None => Skipped(NoPrice)
        case Some(pe) =>
          match pe.text
          case None => Crashed(PriceWithoutText)
          case Some(priceText) =>
            if !HasToken(priceText) then Crashed(PriceWithoutToken)
            else
              match StrippedTexts(sources)
              case None => Crashed(ImageWithoutText)
              case Some(urls) =>
                if urls == [] then Skipped(NoImages)
                else Accepted(Product(Strip(idText), FormatPrice(priceText), urls))
  }

  /** One iteration of the item loop, up to (not including) rendering. */
  function Extract(item: Item): (r: Outcome)
    ensures r == Skipped(NoId) <==> Find(item, IdTag).None?
    ensures r.Accepted? ==> 1 <= |r.product.imageUrls| <= 1 + MaxAdditionalImages
    ensures r.Accepted? ==> |r.product.price| >= 2 && r.product.price[|r.product.price| - 1] == '€'
  {
    Decide(Find(item, IdTag), PriceElement(item), ImageSources(item))
  }

  /** An item is rendered exactly when its first `g:id` child has text, the
      chosen price element has text with a token, it has at least one image
      element, and every image element read has text. */
  lemma ExtractAccepted(item: Item)
    ensures Extract(item).Accepted?
            <==> && Readable(Find(item, IdTag))
                 && PriceUsable(PriceElement(item))
                 && |ImageSources(item)| > 0
                 && AllReadable(ImageSources(item))
  {
  }

  /** The conditions under which reading an item raises and ends the run:
      `.strip()` on a `g:id` without text, `.split()` on a price element
      without text, `split()[0]` on blank price text, `.strip()` on an image
      element without text. Each is checked only once the earlier reads
      succeeded. */
  lemma ExtractCrashes(item: Item)
    ensures Extract(item) == Crashed(IdWithoutText)
            <==> Find(item, IdTag).Some? && Find(item, IdTag).value.text.None?
    ensures Extract(item) == Crashed(PriceWithoutText)
            <==> Readable(Find(item, IdTag))
                 && PriceElement(item).Some? && PriceElement(item).value.text.None?
    ensures Extract(item) == Crashed(PriceWithoutToken)
            <==> Readable(Find(item, IdTag)) && Readable(PriceElement(item))
                 && !HasToken(PriceElement(item).value.text.value)
    ensures Extract(item) == Crashed(ImageWithoutText)
            <==> Readable(Find(item, IdTag)) && PriceUsable(PriceElement(item))
                 && !AllReadable(ImageSources(item))
  {
  }

  /** The price is exactly the first whitespace-delimited token followed by
      the euro sign, whatever follows the token. */
  lemma FormatPriceIsFirstToken(lead: string, tok: string, rest: string)
    requires AllSpace(lead) && |tok| > 0 && NoSpace(tok)
    requires rest == [] || IsSpace(rest[0])
    ensures HasToken(lead + tok + rest)
    ensures FormatPrice(lead + tok + rest) == tok + "€"
  {
    FirstTokenCharacterization(lead, tok, rest);
  }

  /** The currency code is dropped and the decimals are kept as written. */
  lemma FormatPriceExample()
    ensures HasToken("12.00 EUR") && FormatPrice("12.00 EUR") == "12.00€"
  {
    assert "12.00 EUR" == "" + "12.00" + " EUR";
    FormatPriceIsFirstToken("", "12.00", " EUR");
  }

  /** The id of an accepted item is the text of its first `g:id` child with
      surrounding whitespace stripped. */
  lemma AcceptedId(item: Item)
    requires Extract(item).Accepted?
    ensures Find(item, IdTag).Some? && Find(item, IdTag).value.text.Some?
    ensures Extract(item).product.id == Strip(Find(item, IdTag).value.text.value)
  {
  }

  /** A `g:sale_price` child supplies the price whenever there is one, even
      when `g:price` is present too. */
  lemma SalePriceWins(item: Item)
    requires Extract(item).Accepted?
    requires Find(item, SalePriceTag).Some?
    ensures Find(item, SalePriceTag).value.text.Some?
    ensures HasToken(Find(item, SalePriceTag).value.text.value)
    ensures Extract(item).product.price == FormatPrice(Find(item, SalePriceTag).value.text.value)
  {
  }

  /** Without `g:sale_price`, the price comes from `g:price`. */
  lemma RegularPriceFallback(item: Item)
    requires Extract(item).Accepted?
    requires Find(item, SalePriceTag).None?
    ensures Find(item, PriceTag).Some? && Find(item, PriceTag).value.text.Some?
    ensures HasToken(Find(item, PriceTag).value.text.value)
    ensures Extract(item).product.price == FormatPrice(Find(item, PriceTag).value.text.value)
  {
  }

  /** An item with an id but neither price element is skipped. */
  lemma NoPriceSkipped(item: Item)
    requires Find(item, IdTag).Some? && Find(item, IdTag).value.text.Some?
    requires Find(item, SalePriceTag).None? && Find(item, PriceTag).None?
    ensures Extract(item) == Skipped(NoPrice)
  {
  }

  /** Blank text in the chosen price element is an uncaught `IndexError`. */
  lemma BlankPriceCrashes(item: Item)
    requires Find(item, IdTag).Some? && Find(item, IdTag).value.text.Some?
    requires PriceElement(item).Some? && PriceElement(item).value.text.Some?
    requires !HasToken(PriceElement(item).value.text.value)
    ensures Extract(item) == Crashed(PriceWithoutToken)
  {
  }

  /** Once id and price are readable, the item is skipped for lack of images
      exactly when it has neither `g:image_link` nor `g:additional_image_link`. */
  lemma NoImagesSkipped(item: Item)
    requires Find(item, IdTag).Some? && Find(item, IdTag).value.text.Some?
    requires PriceElement(item).Some? && PriceElement(item).value.text.Some?
    requires HasToken(PriceElement(item).value.text.value)
    ensures Extract(item) == Skipped(NoImages)
            <==> Find(item, ImageTag).None? && FindAll(item, AdditionalImageTag) == []
  {
    if Find(item, ImageTag).None? && FindAll(item, AdditionalImageTag) == [] {
      assert ImageSources(item) == [];
    } else {
      assert |ImageSources(item)| > 0;
    }
  }

  /** An accepted item's URLs are the stripped texts of its image sources. */
  lemma AcceptedUrlsFromSources(item: Item)
    requires Extract(item).Accepted?
    ensures StrippedTexts(ImageSources(item)) == Some(Extract(item).product.imageUrls)
  {
  }

  /** The image elements: `g:image_link` first when present, then the first
      two `g:additional_image_link` children. */
  lemma ImageSourcesShape(item: Item)
    ensures var src := ImageSources(item);
            var adds := FindAll(item, AdditionalImageTag);
            var main := Find(item, ImageTag);
            var off := if main.Some? then 1 else 0;
            && |src| == off + (if |adds| <= MaxAdditionalImages then |adds| else MaxAdditionalImages)
            && (main.Some? ==> src[0] == main.value)
            && (forall k | 0 <= k < |src| - off :: src[off + k] == adds[k])
  {
    var main := match Find(item, ImageTag) case Some(e) => [e] case None => [];
    assert ImageSources(item) == main + Prefix(FindAll(item, AdditionalImageTag), MaxAdditionalImages);
  }

  /** The URL list of an accepted item: the stripped `g:image_link` text
      first when present, then the stripped texts of the first two
      `g:additional_image_link` children in document order, and nothing else. */
  lemma AcceptedImageUrls(item: Item)
    requires Extract(item).Accepted?
    ensures var urls := Extract(item).product.imageUrls;
            var adds := FindAll(item, AdditionalImageTag);
            var main := Find(item, ImageTag);
            var off := if main.Some? then 1 else 0;
            && |urls| == off + (if |adds| <= MaxAdditionalImages then |adds| else MaxAdditionalImages)
            && (main.Some? ==> main.value.text.Some? && urls[0] == Strip(main.value.text.value))
            && (forall k | 0 <= k < |urls| - off ::
                  adds[k].text.Some? && urls[off + k] == Strip(adds[k].text.value))
  {
    AcceptedUrlsFromSources(item);
    ImageSourcesShape(item);
  }

  /** Elements past the first `n` never reach the prefix. */
  lemma PrefixIgnoresTail<T>(s: seq<T>, t: seq<T>, n: nat)
    requires |s| >= n
    ensures Prefix(s + t, n) == Prefix(s, n)
  {
    assert (s + t)[..n] == s[..n];
  }

  lemma SourcesIgnoreFurtherLinks(front: Item, extra: Element, back: Item)
    requires |FindAll(front, AdditionalImageTag)| >= MaxAdditionalImages
    requires extra.tag == AdditionalImageTag
    ensures ImageSources(front + [extra] + back) == ImageSources(front + back)
  {
    FindIgnoresOtherTag(front, extra, back, ImageTag);
    var adds := FindAll(front, AdditionalImageTag);
    var more := FindAll(back, AdditionalImageTag);
    var withExtra := FindAll(front + [extra], AdditionalImageTag);
    FindAllAppend(front, [extra], AdditionalImageTag);
    assert FindAll([extra], AdditionalImageTag) == [extra];
    FindAllAppend(front + [extra], back, AdditionalImageTag);
    FindAllAppend(front, back, AdditionalImageTag);
    PrefixIgnoresTail(withExtra, more, MaxAdditionalImages);
    PrefixIgnoresTail(adds, [extra], MaxAdditionalImages);
    PrefixIgnoresTail(adds, more, MaxAdditionalImages);
  }

  /** Inserting a child with another tag anywhere leaves `find` for `tag`
      unchanged. */
  lemma FindIgnoresOtherTag(front: Item, extra: Element, back: Item, tag: string)
    requires extra.tag != tag
    ensures Find(front + [extra] + back, tag) == Find(front + back, tag)
  {
    FindAppend(front, [extra], tag);
    FindAppend(front + [extra], back, tag);
    FindAppend(front, back, tag);
  }

  /** A `g:additional_image_link` that comes after two others is never read,
      wherever it sits among the other children, so it can neither change the
      ad nor raise (even without text). */
  lemma FurtherAdditionalLinksIgnored(item: Item, p: nat, extra: Element)
    requires p <= |item|
    requires |FindAll(item[..p], AdditionalImageTag)| >= MaxAdditionalImages
    requires extra.tag == AdditionalImageTag
    ensures Extract(item[..p] + [extra] + item[p..]) == Extract(item)
  {
    var front, back := item[..p], item[p..];
    assert front + back == item;
    FindIgnoresOtherTag(front, extra, back, IdTag);
    FindIgnoresOtherTag(front, extra, back, SalePriceTag);
    FindIgnoresOtherTag(front, extra, back, PriceTag);
    SourcesIgnoreFurtherLinks(front, extra, back);
    assert PriceElement(front + [extra] + back) == PriceElement(item);
  }
}
