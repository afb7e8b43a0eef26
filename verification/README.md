# Ballzy ad generator: the feed loop, in Dafny

`generate.py` downloads a Google Shopping / Meta product feed and turns up
to `MAX_PRODUCTS_TO_GENERATE` of its `<item>`s into advertising images. This
project models the decision logic of that script:

- the per-item rule inside `process_feed`: take the product id from the first
  `g:id` child, stripped; take the price from `g:sale_price`, else from
  `g:price`, keep its first whitespace-delimited token and append `€`; take
  the image URLs from `g:image_link` plus the first two
  `g:additional_image_link` children; skip the item when the id, the price or
  every image is missing;
- the capped item loop, where only rendered products count toward the cap;
- in `create_ballzy_ad`, which template slot gets which URL, what a slot
  shows when its download fails, and the name of the output file.

An item is the ordered list of its child elements, each a tag and an
optional text. ElementTree reports `None` as the text of an element that has
no text. Calling `.strip()` or `.split()` on that `None` raises
`AttributeError`. Calling `split()[0]` on blank price text raises
`IndexError`. The script catches neither, so either one ends the whole run.
The model turns them into the `Crashed` outcome, and the loop stops there.

Modules, following the script's structure:

- `Wrappers` (`wrappers.dfy`): `Option`, standing for Python's `None`.
- `Text` (`text.dfy`): Python's argument-less `str.strip()` and `str.split()`,
  using the whitespace set of `str.isspace()`.
- `FeedItem` (`feed_item.dfy`): the element list, with `find` and `findall`.
- `Extraction` (`extraction.dfy`): the per-item rule (`Extract`).
- `Creative` (`creative.dfy`): the slot pairing, failed downloads, and the
  output path of `create_ballzy_ad`.
- `Feed` (`feed.dfy`): the capped loop (`RunItems`, `ProcessFeed`). Beside it
  is a loop-free statement of its result (`Expected`).

Three consequences of the code as written, each part of the model:

- The price keeps its first token exactly as the feed writes it, decimals
  included: `"12.00 EUR"` becomes `"12.00€"` (generate.py:144-145,
  `Extraction.FormatPriceExample`). No rounding or reformatting is done.
- No item is filtered by category, label or any other field. Every item that
  passes the id, price and image checks is rendered (generate.py:133-161).
- A missing element makes the loop skip the item (`continue` at
  generate.py:134, 142 and 157). An element that is present but has no text,
  or price text that is blank, raises at generate.py:135, 144, 151 or 155
  and ends the run (`Extraction.ExtractCrashes`).

## Model

| member | source | states |
|---|---|---|
| `Text.Strip` | generate.py:135 | The stripped text is empty exactly when the text is all whitespace; otherwise it neither starts nor ends with whitespace |
| `Text.StripSplit` | generate.py:135 | `strip()` removes only whitespace, and only at the two ends: the text is whitespace, then the stripped text, then whitespace |
| `Text.StripCharacterization` | generate.py:135 | Any split of a text into whitespace, a core that neither starts nor ends in whitespace, and whitespace makes `strip()` return that core |
| `Text.StripIdempotent` | generate.py:135 | Stripping a stripped id or URL changes nothing |
| `Text.FirstToken` | generate.py:144 | `split()[0]` is defined exactly when the text has a non-whitespace character; it is non-empty and holds no whitespace |
| `Text.FirstTokenSplit` | generate.py:144 | The first token is preceded only by whitespace and is followed by the end of the text or by whitespace |
| `Text.FirstTokenCharacterization` | generate.py:144 | Any split into whitespace, a non-empty whitespace-free token, and a rest that is empty or starts with whitespace makes that token `split()[0]` |
| `Text.WordsHead` | generate.py:144 | `split()` is non-empty exactly when the text has a non-whitespace character, and then its head is `FirstToken`, so `[0]` raises exactly on blank text |
| `Text.WordsAreTokens` | generate.py:144 | Every word of `split()` is non-empty and whitespace-free |
| `FeedItem.Find` | generate.py:133 | `find` returns nothing exactly when no child has the tag; otherwise it returns a child with that tag that has no earlier child with the same tag |
| `FeedItem.FindAll` | generate.py:153 | Every element `findall` returns has the tag |
| `FeedItem.FindAllContents` | generate.py:153 | `findall` keeps every child with the tag, as many times as it occurs, and no other child |
| `FeedItem.FindAllAtPositions` | generate.py:153 | `findall` returns, one for one, the children at the listed positions |
| `FeedItem.PositionsIncreasing` | generate.py:153-155 | Those positions strictly increase, so `findall` keeps document order and `enumerate` numbers the links in the order they appear |
| `FeedItem.PositionsExact` | generate.py:153 | A child's position is listed exactly when the child has the tag |
| `FeedItem.FindAppend` | generate.py:133-149 | Children added after an item's existing ones change what `find` returns only when the item had no child with the tag |
| `FeedItem.FindAllAppend` | generate.py:153 | `findall` over two runs of children is the first run's matches followed by the second's, so order is kept across the join |
| `FeedItem.FindIsFirstOfFindAll` | generate.py:149-153 | `find` returns the head of `findall`, or nothing when `findall` is empty |
| `Extraction.FormatPrice` | generate.py:144-145 | The formatted price ends with `€`, and what precedes it is non-empty and holds no whitespace |
| `Extraction.FormatPriceIsFirstToken` | generate.py:144-145 | The price is exactly the first whitespace-delimited token of the price text followed by `€`, whatever follows the token |
| `Extraction.FormatPriceExample` | generate.py:144-145 | `"12.00 EUR"` becomes `"12.00€"`: the currency code is dropped and the decimals are kept as written |
| `Extraction.StrippedTexts` | generate.py:150-155 | Yields URLs exactly when every image element has text; then there is one URL per element, in order, each the stripped text |
| `Extraction.Decide` | generate.py:133-157 | Each of the eight outcomes happens exactly under its own condition, checked in source order: no id element; id without text; no price element; price without text; blank price; an image element without text; no image elements; otherwise accepted. An accepted product's id, price and URLs come from the given elements |
| `Extraction.ExtractAccepted` | generate.py:133-160 | An item is rendered exactly when its first `g:id` child has text, its chosen price element has text with a non-whitespace character, it has at least one image element, and every image element read has text |
| `Extraction.ExtractCrashes` | generate.py:133-155 | The run stops on an item exactly when its `g:id` child has no text; or, the id being readable, the chosen price element has no text or blank text; or, id and price being usable, one of the image elements read has no text |
| `Extraction.Extract` | generate.py:133-157 | An item is skipped for lack of an id exactly when it has no `g:id` child; an accepted item has 1 to 3 image URLs and a price ending in `€` |
| `Extraction.AcceptedId` | generate.py:133-135 | The id of an accepted item is the stripped text of its first `g:id` child |
| `Extraction.SalePriceWins` | generate.py:137-140 | When `g:sale_price` is present it supplies the price, even if `g:price` is present too |
| `Extraction.RegularPriceFallback` | generate.py:138-140 | Without `g:sale_price`, an accepted item's price comes from its `g:price` child |
| `Extraction.NoPriceSkipped` | generate.py:137-142 | An item with a readable id and neither price child is skipped |
| `Extraction.BlankPriceCrashes` | generate.py:144 | Blank text in the chosen price element stops the run with an `IndexError` |
| `Extraction.NoImagesSkipped` | generate.py:148-157 | Once the id and price are readable, an item is skipped for lack of images exactly when it has neither `g:image_link` nor `g:additional_image_link` |
| `Extraction.ImageSourcesShape` | generate.py:148-155 | The image elements are the `g:image_link` child first when present, then the first two `g:additional_image_link` children in document order, and nothing else |
| `Extraction.AcceptedUrlsFromSources` | generate.py:148-157 | An accepted item's URLs are the stripped texts of its image elements |
| `Extraction.AcceptedImageUrls` | generate.py:148-155 | The URL list is the stripped `g:image_link` text first (when present), then the stripped texts of the first two `g:additional_image_link` children in document order; its length is that count |
| `Extraction.FurtherAdditionalLinksIgnored` | generate.py:153-155 | Inserting a `g:additional_image_link`, even one without text, anywhere after the item's second such child changes nothing about the item's outcome |
| `Creative.SlotUrls` | generate.py:54-58 | Slot `i` gets a URL exactly when `i` is less than the number of URLs, and that URL is `image_urls[i]`; there are exactly three slots |
| `Creative.RequestedUrls` | generate.py:54-58 | The URLs downloaded, in order, are the first three URLs; later URLs are never used |
| `Creative.Compose` | generate.py:60-84 | A slot shows a photo exactly when it was given a URL whose download succeeded, and only that URL's photo; a failed download leaves the template |
| `Creative.Render` | generate.py:44-104 | The ad is saved at the product id's output path and carries the product's price text and three slots; slot `i` shows a photo exactly when URL `i` exists and loads, and that photo is URL `i` |
| `Creative.AllDownloadsFail` | generate.py:83-84 | When every download fails, every slot shows the template |
| `Creative.OutputPath` | generate.py:103 | The path is as long as the directory, separator, `ad_` prefix, id and `.jpg` together |
| `Creative.PathRoundTrip` | generate.py:103 | The id can be read back from the output path: the path is a function of the id alone and loses nothing |
| `Creative.OutputPathInjective` | generate.py:103 | Two ids get the same output path exactly when they are equal |
| `Feed.Outcomes` | generate.py:128 | One outcome per item |
| `Feed.OutcomesAt` | generate.py:128 | Outcome `k` is the result of the per-item rule on item `k` |
| `Feed.OutcomesAppend` | generate.py:128 | The outcomes of two item runs placed one after the other are the two outcome lists placed one after the other |
| `Feed.Expected` | generate.py:126-131 | As many products as were accepted before the first crash, but never more than `cap`: a prefix of the products accepted before the first crash; when the run ends in a crash, every product accepted before it was rendered |
| `Feed.RunItems` | generate.py:126-161 | The loop renders exactly the `Expected` products, in order, each through `create_ballzy_ad`, never more than the cap, and reports the crash exactly when `Expected` does |
| `Feed.ProcessFeed` | generate.py:126-161 | Over the items of a parsed feed, the ads rendered and the crash reported are those of `Expected` on the items' outcomes |
| `Feed.SkipDoesNotConsumeCap` | generate.py:133-161 | A skipped item, wherever it sits in the feed, leaves the run exactly as if it were not there: skipped items do not use up the cap |
| `Feed.DropSkipOuts` | generate.py:133-157 | Removing a skipped outcome from any position changes neither the products scanned before the first crash nor that crash |
| `Feed.OutcomesInsert` | generate.py:128 | Inserting an item into the feed inserts its outcome at the same position of the outcome list |
| `Feed.NothingAfterCrash` | generate.py:133-161 | Items after the first crashing item never affect the run |
| `Feed.NothingAfterCap` | generate.py:129-131 | Once `cap` products are accepted with no crash, the loop breaks: items after that point, even one that would crash, never affect the run |
| `Feed.CapMonotone` | generate.py:129-131 | Raising the cap only adds products at the end of the run |
| `Feed.AcceptedIndicesMatch` | generate.py:128-161 | Each rendered product is the product of the accepted item at the matching position |
| `Feed.AcceptedInDocumentOrder` | generate.py:128 | Rendered products come from items in strictly increasing document order |
| `Feed.AcceptedNeverDropped` | generate.py:128-161 | Ignoring the cap, an accepted item that comes before the first crash is always among the accepted positions |
| `Feed.AcceptedRenderedUpToCap` | generate.py:128-161 | An accepted item before the first crash, with fewer than `cap` products accepted ahead of it, is rendered, and its product sits at the position equal to that number |
| `Feed.ScanStep` | generate.py:128-161 | Reading one more outcome before any crash adds its product when it is accepted, and records its fault when it crashes |
| `Feed.ScanPrefix` | generate.py:129-131 | Stopping early at the cap yields a prefix of what the whole feed would yield; a crash already seen is the crash of the whole feed |

## Left out

- HTTP retrieval of the feed and of images, with their timeouts and `raise_for_status` (generate.py:62, 112-118). This is network I/O. Image download success is the `loads` parameter of `Creative.Render`.
- XML parsing and namespace resolution with ElementTree (generate.py:121-124), and the `root.iter('item')` traversal. The loop starts from the items of a parsed document, in document order, each as the list of its direct children. Tags carry the `g:` prefix in place of the resolved namespace.
- All image work (generate.py:47-51, 63-81, 86-99, 104): template loading and its white-canvas fallback, `ImageOps.fit` cover-cropping, the alpha paste, font loading and fallback, text measurement and centering (float arithmetic over font metrics), and JPEG encoding. A slot is described only by what it shows. The slot geometry and the crop anchors are kept as constants.
- Creative.Compose: `loads` is one fixed answer per URL. Exception types and messages from a failed slot (generate.py:83-84) are not modelled, and two requests for the same URL always get the same answer.
- Creative.Render: does not state the price colour, font or position, because they only feed the image library.
- `os.makedirs`, the file write and every `print` (generate.py:102, 104-105, 112, 117, 123, 130, 84). These are side effects with no decision logic.
- Feed.ProcessFeed: computes every item's outcome before the loop, where the script extracts each item when the loop reaches it. `Extract` is pure, so the ads and the crash are the same. A crash is reported as a value; in the script it is an exception that ends the process.
- The script's entry point, which calls `process_feed(FEED_URL)` (generate.py:165-166). The cap is a parameter of the loop, so the configured value 3 (generate.py:12) is one instance of it.
- A failed save (generate.py:104). An id containing `/` names a directory that `os.makedirs` never creates, so the save raises, nothing catches it, and the run ends. The model treats every save as succeeding and carries on with the next item.
- Creative.OutputPath: joins with `/`, as `os.path.join` does on POSIX systems. On a file system that ignores case, two ids that differ only in case share one file, although their paths differ as strings.
