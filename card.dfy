/**
 * `generate_image` (Run.py): the background, the product photo and the four text
 * blocks of a listing card, then the final crop.
 */
module Card {
  import opened Wrappers
  import opened Layout
  import opened MetaLine
  import opened Geometry
  import opened Scraper

  /** Left edge of every text block. */
  const TextX := 20
  /** Anchor `y` and target height of each block in the dark theme. */
  const TitleY := 1240
  const TitleH := 40
  const ItemY := 1290
  const ItemH := 38
  const PriceY := 1365
  const PriceH := 33
  const FeeY := 1408
  const FeeH := 38

  function TitleColor(theme: Theme): Color { if theme == Light then "#15191a" else "#dbdfde" }
  function PriceColor(theme: Theme): Color { if theme == Light then "#606b6c" else "#99a2a1" }
  const FeeColor: Color := "#648a93"

  function TitleStyle(theme: Theme): Style {
    Style(TextX, TitleY + TextOffset(theme), TitleH, TitleColor(theme), false, false)
  }
  function PriceStyle(theme: Theme): Style {
    Style(TextX, PriceY + TextOffset(theme), PriceH, PriceColor(theme), false, true)
  }
  function FeeStyle(theme: Theme): Style {
    Style(TextX, FeeY + TextOffset(theme), FeeH, FeeColor, false, true)
  }

  // ------------------------------------------------------------ text

  /** What the four drawing calls produce, in drawing order. */
  datatype Lettering = Lettering(title: Block, item: seq<Op>, price: Block, fee: Block) {
    function Ops(): seq<Op> { title.ops + item + price.ops + fee.ops }
  }

  /**
   * The card's text: the title; the item line anchored lower by the title's extra
   * offset; price and fee at their fixed anchors. `bound` is a size whose metric
   * reaches the tallest block, 40 pixels.
   */
  function CardText(l: Listing, theme: Theme, font: Font, ghost bound: int): Lettering
    requires Reaches(font, TitleH, bound)
  {
    var title := TextBlock(l.title, TitleStyle(theme), font, bound);
    var itemY := ItemY + TextOffset(theme) + title.offset;
    Lettering(title,
              ItemSizeOps(l.size, l.condition, l.brand, TextX, itemY, ItemH, theme, font, bound),
              TextBlock(l.price, PriceStyle(theme), font, bound),
              TextBlock(l.buyerFee, FeeStyle(theme), font, bound))
  }

  /** The drawing part of `generate_image`: four calls, the first one's offset feeding the second. */
  method DrawCardText(l: Listing, theme: Theme, font: Font, ghost bound: int) returns (c: Lettering)
    requires Reaches(font, TitleH, bound)
    ensures c == CardText(l, theme, font, bound)
  {
    var title := DrawTextBlock(l.title, TitleStyle(theme), font, bound);
    var item := DrawItemSizeBlock(l.size, l.condition, l.brand, TextX, ItemY + TextOffset(theme) + title.offset,
                                  ItemH, theme, font, bound);
    var price := DrawTextBlock(l.price, PriceStyle(theme), font, bound);
    var fee := DrawTextBlock(l.buyerFee, FeeStyle(theme), font, bound);
    c := Lettering(title, item, price, fee);
  }

  /**
   * The card shows every field of the listing in order: the title (less a wrap
   * space), "size · condition · brand", the price and the fee.
   */
  lemma CardShowsListing(l: Listing, theme: Theme, font: Font, bound: int)
    requires Reaches(font, TitleH, bound)
    ensures Drawn(CardText(l, theme, font, bound).Ops())
         == Shown(l.title) + (l.size + Dot + l.condition + Dot + l.brand) + Shown(l.price) + Shown(l.buyerFee)
  {
    var c := CardText(l, theme, font, bound);
    var itemY := ItemY + TextOffset(theme) + c.title.offset;
    BlockDrawsText(l.title, TitleStyle(theme), font, bound);
    BlockDrawsText(l.price, PriceStyle(theme), font, bound);
    BlockDrawsText(l.buyerFee, FeeStyle(theme), font, bound);
    ItemLineText(l.size, l.condition, l.brand, TextX, itemY, ItemH, theme, font, bound);
    DrawnAppend(c.title.ops, c.item);
    DrawnAppend(c.title.ops + c.item, c.price.ops);
    DrawnAppend(c.title.ops + c.item + c.price.ops, c.fee.ops);
  }

  /**
   * A title that wraps moves only the item line, 20 pixels down; the title's wrap does
   * not move the price or the fee.
   */
  lemma TitleWrapMovesOnlyItemLine(l: Listing, long: string, theme: Theme, font: Font, bound: int)
    requires Reaches(font, TitleH, bound)
    requires |l.title| <= MaxLine < |long|
    ensures var short, wrapped := CardText(l, theme, font, bound), CardText(l.(title := long), theme, font, bound);
      && wrapped.item == Lowered(short.item, 20)
      && wrapped.price == short.price
      && wrapped.fee == short.fee
  {
    var y := ItemY + TextOffset(theme);
    ItemSizeOpsLowered(l.size, l.condition, l.brand, TextX, y, ItemH, theme, font, bound, 20);
  }

  // ------------------------------------------------------------ photo

  /** The decoded product photo's pixel size. */
  datatype Photo = Photo(width: int, height: int)

  /** Where the photo ends up on the card. */
  datatype PhotoPlacement =
    | NoPhoto
    /** Scaled to fit and pasted at `at`, the rest of the box showing the background. */
    | Fitted(at: Box)
    /** Scaled to cover, cropped by `cover.crop` and pasted over all of `at`. */
    | Covered(cover: Cover, at: Box)

  /**
   * The photo branch of `generate_image`: no photo, nothing pasted; with the
   * background removed, fit inside the photo box; otherwise cover the whole box.
   */
  function PlacePhoto(photo: Option<Photo>, theme: Theme, removeBg: bool): (p: PhotoPlacement)
    requires photo.Some? ==> photo.value.width > 0 && photo.value.height > 0
    ensures p.NoPhoto? <==> photo.None?
    ensures p.Fitted? ==> removeBg && p.at.Within(EffectiveBox(theme, Overlay))
    ensures p.Covered? ==>
              && !removeBg && p.at == EffectiveBox(theme, Overlay)
              && p.cover.crop.Width() == p.at.Width() && p.cover.crop.Height() == p.at.Height()
              && p.cover.crop.Within(Box(0, 0, p.cover.width, p.cover.height))
  {
    var eff := EffectiveBox(theme, Overlay);
    match photo
    case None => NoPhoto
    case Some(ph) =>
      if removeBg then
        FitBoxInside(ph.width, ph.height, eff);
        Fitted(FitBox(ph.width, ph.height, eff))
      else
        var c := CoverCrop(ph.width, ph.height, eff.Width(), eff.Height());
        CoverCropFills(ph.width, ph.height, eff.Width(), eff.Height());
        Covered(c, Box(eff.left, eff.top, eff.left + c.crop.Width(), eff.top + c.crop.Height()))
  }

  // ------------------------------------------------------------ the card

  /** Everything `generate_image` decides, short of pixels. */
  datatype Rendered = Rendered(background: seq<Box>, photo: PhotoPlacement, text: Lettering, crop: Box)

  /**
   * `generate_image` on a base image of `width` x `height` pixels: background, photo,
   * text, then the crop the card is returned as.
   */
  function Render(l: Listing, photo: Option<Photo>, theme: Theme, removeBg: bool,
                  width: int, height: int, font: Font, ghost bound: int): Rendered
    requires photo.Some? ==> photo.value.width > 0 && photo.value.height > 0
    requires width >= 0 && height >= 0
    requires Reaches(font, TitleH, bound)
  {
    Rendered(Background(theme, Overlay), PlacePhoto(photo, theme, removeBg),
             CardText(l, theme, font, bound), FinalCrop(width, height))
  }

  /** The source's order of work: paint, paste the photo, draw the text, crop. */
  method GenerateImage(l: Listing, photo: Option<Photo>, theme: Theme, removeBg: bool,
                       width: int, height: int, font: Font, ghost bound: int) returns (card: Rendered)
    requires photo.Some? ==> photo.value.width > 0 && photo.value.height > 0
    requires width >= 0 && height >= 0
    requires Reaches(font, TitleH, bound)
    ensures card == Render(l, photo, theme, removeBg, width, height, font, bound)
  {
    var background := Background(theme, Overlay);
    var placed := PlacePhoto(photo, theme, removeBg);
    var text := DrawCardText(l, theme, font, bound);
    card := Rendered(background, placed, text, FinalCrop(width, height));
  }
}
