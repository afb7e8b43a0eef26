/**
  `create_ballzy_ad`: which template slot shows which image URL, what a
  slot shows when its download fails, and where the finished ad is saved.
  Pixels, cropping, fonts and JPEG encoding are not modelled; a slot is
  described by what it shows.
 */
module Creative {
  import opened Wrappers
  import opened Extraction

  /** A rectangle of the template: top-left corner, size, and the vertical
      crop anchor (0 keeps the top of the photo, 1 the bottom). The geometry
      only feeds the image work, which is not modelled, so it is kept as a
      description of the layout (generate.py:25-32); the model relies on the
      number of slots and their order alone. */
  datatype Slot = Slot(x: int, y: int, w: nat, h: nat, centerY: real)

  /** The three slots of the layout, in drawing order. */
  const Slots: seq<Slot> := [
    Slot(50, 200, 500, 500, 0.5),
    Slot(600, 350, 450, 350, 0.6),
    Slot(50, 750, 600, 300, 0.8)
  ]

  const OutputDir := "generated_ads"
  const FilePrefix := "ad_"
  const FileSuffix := ".jpg"

  /** What a slot of the saved ad shows: the template underneath, or the
      photo downloaded from a URL, cover-fitted into the slot. */
  datatype Layer = Background | Photo(url: string)

  /** The finished ad: where it is written, the price text drawn on it, and
      what each slot shows. */
  datatype Ad = Ad(path: string, priceText: string, layers: seq<Layer>)

  /** The slot loop from slot `i` on: a slot whose index is at or past the
      number of URLs is skipped with `continue`; otherwise it gets the URL
      of the same index. */
  function SlotUrlsFrom(urls: seq<string>, i: nat): (r: seq<Option<string>>)
    requires i <= |Slots|
    ensures |r| == |Slots| - i
    ensures forall k | 0 <= k < |r| :: r[k].Some? <==> i + k < |urls|
    ensures forall k | 0 <= k < |r| && r[k].Some? :: r[k].value == urls[i + k]
    decreases |Slots| - i
  {
    if i == |Slots| then []
    else if i >= |urls| then [None] + SlotUrlsFrom(urls, i + 1)
    else [Some(urls[i])] + SlotUrlsFrom(urls, i + 1)
  }

  /** The URL each slot is asked to show, for all slots. */
  function SlotUrls(urls: seq<string>): (r: seq<Option<string>>)
    ensures |r| == |Slots|
    ensures forall k | 0 <= k < |Slots| :: r[k].Some? <==> k < |urls|
    ensures forall k | 0 <= k < |Slots| && r[k].Some? :: r[k].value == urls[k]
  {
    SlotUrlsFrom(urls, 0)
  }

  /** The URLs downloaded, in request order. */
  function Requested(wanted: seq<Option<string>>): (r: seq<string>)
    ensures |r| <= |wanted|
  {
    if |wanted| == 0 then []
    else match wanted[0]
      case None => Requested(wanted[1..])
      case Some(u) => [u] + Requested(wanted[1..])
  }

  /** Pastes each slot's photo over the template. `loads(u)` tells whether
      downloading and decoding `u` succeeds; a slot whose download fails
      keeps the template (the exception is caught and logged). */
  function Compose(wanted: seq<Option<string>>, loads: string -> bool): (r: seq<Layer>)
    ensures |r| == |wanted|
    ensures forall k | 0 <= k < |r| :: r[k].Photo? <==> wanted[k].Some? && loads(wanted[k].value)
    ensures forall k | 0 <= k < |r| && r[k].Photo? :: wanted[k] == Some(r[k].url)
  {
    if |wanted| == 0 then []
    else
      var first := match wanted[0]
        case Some(u) => if loads(u) then Photo(u) else Background
        case None => Background;
      [first] + Compose(wanted[1..], loads)
  }

  /** `os.path.join(OUTPUT_DIR, f"ad_{product_id}.jpg")`; the file name never
      starts with a separator, so the join is plain concatenation. */
  function OutputPath(id: string): (r: string)
    ensures |r| == |OutputDir| + 1 + |FilePrefix| + |id| + |FileSuffix|
  {
    OutputDir + "/" + FilePrefix + id + FileSuffix
  }

  /** Reads a product id back out of an output path. */
  function IdOfPath(path: string): Option<string> {
    var head := OutputDir + "/" + FilePrefix;
    if |path| >= |head| + |FileSuffix| && path[..|head|] == head
       && path[|path| - |FileSuffix|..] == FileSuffix
    then Some(path[|head|..|path| - |FileSuffix|])
    else None
  }

  /** `create_ballzy_ad(image_urls, price_text, product_id)`. */
  function Render(p: Product, loads: string -> bool): (c: Ad)
    ensures c.path == OutputPath(p.id)
    ensures c.priceText == p.price
    ensures |c.layers| == |Slots|
    ensures forall k | 0 <= k < |Slots| ::
              c.layers[k].Photo? <==> k < |p.imageUrls| && loads(p.imageUrls[k])
    ensures forall k | 0 <= k < |Slots| && c.layers[k].Photo? :: c.layers[k].url == p.imageUrls[k]
  {
    Ad(OutputPath(p.id), p.price, Compose(SlotUrls(p.imageUrls), loads))
  }

  /** The output path determines the id: the file name round-trips. */
  lemma PathRoundTrip(id: string)
    ensures IdOfPath(OutputPath(id)) == Some(id)
  {
    var head := OutputDir + "/" + FilePrefix;
    var p := OutputPath(id);
    assert p == head + id + FileSuffix;
    assert p[..|head|] == head;
    assert p[|p| - |FileSuffix|..] == FileSuffix;
    assert p[|head|..|p| - |FileSuffix|] == id;
  }

  /** Two ids get the same output path exactly when they are equal. */
  lemma OutputPathInjective(a: string, b: string)
    ensures OutputPath(a) == OutputPath(b) <==> a == b
  {
    if OutputPath(a) == OutputPath(b) {
      PathRoundTrip(a);
      PathRoundTrip(b);
    }
  }

  lemma {:induction false} RequestedFrom(urls: seq<string>, i: nat)
    requires i <= |Slots|
    ensures Requested(SlotUrlsFrom(urls, i)) == if |urls| <= i then [] else Prefix(urls, |Slots|)[i..]
    decreases |Slots| - i
  {
    if i < |Slots| {
      RequestedFrom(urls, i + 1);
      var r := SlotUrlsFrom(urls, i);
      assert r[1..] == SlotUrlsFrom(urls, i + 1);
      if i < |urls| {
        var p := Prefix(urls, |Slots|);
        assert p[i..] == [urls[i]] + p[i + 1..];
      }
    }
  }

  /** Only the first three URLs are ever downloaded, each once, in order:
      URLs past the slot count are never used. */
  lemma RequestedUrls(urls: seq<string>)
    ensures Requested(SlotUrls(urls)) == Prefix(urls, |Slots|)
  {
    RequestedFrom(urls, 0);
  }

  /** When every download fails the ad is the bare template with the price. */
  lemma AllDownloadsFail(p: Product, loads: string -> bool)
    requires forall u :: !loads(u)
    ensures forall k | 0 <= k < |Slots| :: Render(p, loads).layers[k] == Background
  {
  }
}
