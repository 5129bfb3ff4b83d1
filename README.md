# Vinted listing card generator — a Dafny model

`Run.py` is a Streamlit app. It takes one Vinted listing URL, or many, and scrapes each listing's:

- title, price, size, condition, brand and photo URL.

It then renders a phone-sized card image from a base template:

- a coloured rectangle behind the photo;
- the photo, fitted or cropped to cover;
- four text blocks: the title, "size · condition · brand", the price and the buyer fee;
- a final crop.

Scraped listings are cached per browser session. In bulk mode, images are written as `bulk_image_<i>.jpeg`.

This project models the parts of that script that decide what is drawn and where. It also proves what those decisions guarantee.

| file | module | what it models |
|---|---|---|
| `wrappers.dfy` | `Wrappers` | `Option`, for missing tags and attributes |
| `sanitize.dfy` | `Sanitize` | `remove_emojis`, the character classes `\w` and `\s`, and `str.strip` |
| `layout.dfy` | `Layout` | `draw_text_block`: the font-size search, the 50-character wrap rule, the line positions, the split `£` glyph and the underline |
| `metaline.dfy` | `MetaLine` | `draw_item_size_block`: the size, condition and brand runs and the brand underline |
| `scraper.dfy` | `Scraper` | `fetch_vinted`: the first-match loops for the photo URL and the condition, the price filter and assembling the record |
| `geometry.dfy` | `Geometry` | `generate_image` geometry: the theme offsets, the background, the effective photo box, fit and cover, and the final crop |
| `card.dfy` | `Card` | `generate_image` as a whole: the photo branch, the four text calls and the result |
| `app.dfy` | `App` | the session cache, single mode, the bulk URL parser, the bulk loop and the output file names |

A font is a pair of uninterpreted functions:

- `metric(size)` is ascent plus descent;
- `width(text, size)` is `textlength`.

Every drawing call becomes a value:

- `Text(x, y, s, size, color)` for `draw.text`;
- `Rule(x, y, s, size, color)` for the underline under `s`.

A block is the list of its calls, so "what is drawn" is a sequence that lemmas can talk about.

The font-size loops only end for a font that eventually reaches the target height. Each model of those loops therefore takes a ghost `bound`: a size whose metric reaches it.

Scraping a page, downloading the photo and running `rembg` together become one parameter, `fetch`. Formatting the price becomes another, `money`.

Some of the code's behaviour differs from what its comments and names suggest. The model follows the code:

- **The final crop is always portrait,** despite the `# Crop to 16:9` comment (Run.py:229). The crop height is `int(width*16/9)`, and is otherwise cut to `height*9/16` wide. So the result is 9:16 and never 16:9 landscape. `Geometry.FinalCropShape` proves `Width <= Height`.
- **Only the item line follows a wrapped title.** The extra offset of a wrapped title moves the item line down by 20 pixels. It does not move the price or the fee, which stay at their fixed anchors. `Card.TitleWrapMovesOnlyItemLine` proves this.
- **The emoji example keeps its trailing space.** The title "Nike Air Max 90 Trainers UK 9 🔥" keeps the space before the emoji, because `remove_emojis` removes characters and does not strip. `Sanitize.EmojiTitleExample` and `Sanitize.RemoveTrailingEmoji` show this.
- **The crop is close to 9:16, not exact.** Integer truncation can leave it off by less than one pixel: `-16 < 16*W - 9*H < 9`.

## Model

| member | source | states |
|---|---|---|
| Sanitize.Filter | Run.py:24 | the result of a one-class `re.sub` is no longer than its input, and every character in it is in the kept class |
| Sanitize.FilterAppend | Run.py:24 | filtering distributes over concatenation |
| Sanitize.FilterFixed | Run.py:24 | filtering leaves a string unchanged exactly when every one of its characters is kept (both directions) |
| Sanitize.FilterIdempotent | Run.py:24 | filtering twice is the same as filtering once |
| Sanitize.FilterSubsequence | Run.py:24 | every kept input character appears in the output, at the position given by the number of kept characters before it, so order is preserved |
| Sanitize.RemoveEmojis | Run.py:23-24 | `remove_emojis` never lengthens a title, and leaves only word characters, whitespace, `-`, `/` and `&` |
| Sanitize.RemoveEmojisIdempotent | Run.py:23-24 | sanitising a sanitised title changes nothing |
| Sanitize.RemoveTrailingEmoji | Run.py:23-24 | a clean title followed by one removed character comes back exactly as the clean title |
| Sanitize.EmojiTitleExample | Run.py:108-110 | sanitising "Nike Air Max 90 Trainers UK 9 🔥" gives "Nike Air Max 90 Trainers UK 9 ", trailing space included, for any word table in which the emoji is not alphanumeric |
| Sanitize.LeadRunMaximal | Run.py:129 | the leading run is all whitespace, and the character after it is not |
| Sanitize.TrailRunMaximal | Run.py:129 | the trailing run is all whitespace, and the character before it is not |
| Sanitize.TrimIsSlice | Run.py:129 | trimming returns a contiguous slice that starts where the leading run ends |
| Sanitize.TrimEnds | Run.py:129 | a trimmed string is empty, or neither of its ends is in the class |
| Sanitize.TrimDropsClass | Run.py:129 | every character trimming drops is in the class |
| Sanitize.StripSlice | Run.py:129 | `str.strip` keeps the slice between the whitespace runs, which has no whitespace at either end, and drops only whitespace |
| Sanitize.StripEmpty | Run.py:273 | a piece strips to the empty string exactly when it is all whitespace (both directions), which is when the comprehension drops it |
| Layout.FirstFit | Run.py:28-32 | the chosen size reaches the target height, and every smaller size from the start falls short |
| Layout.FirstFitUnique | Run.py:28-32 | any size with those two properties is the one the search returns |
| Layout.FirstFitAtFloor | Run.py:28-32 | the search stays at size 10 exactly when size 10 already reaches the height |
| Layout.SearchFontSize | Run.py:28-32 | the `while` loop that grows the font returns the first size that fits |
| Layout.LastSpace | Run.py:38 | `rfind(" ")`: -1 exactly when there is no space; otherwise a space with no space after it |
| Layout.WrapLines | Run.py:34-42 | up to 50 characters give one line; longer text gives two lines. With a space in the first 50, line one ends at the last such space and the space is dropped. Without one, the text is cut at 50. The lines always rejoin to the text |
| Layout.SecondLineMayExceedLimit | Run.py:40 | a 120-character word wraps into a second line of 70 characters: the second line is never rewrapped |
| Layout.LineOps | Run.py:49-61 | every line makes at least one drawing call |
| Layout.LinesDrawLines | Run.py:49-56 | the glyphs drawn by the line loop spell the lines, concatenated in order |
| Layout.LineDrawsLine | Run.py:51-56 | the glyphs drawn for a line spell that line, including when the `£` is drawn separately |
| Layout.TextBlock | Run.py:26-63 | the offset returned is 20 for text over 50 characters and 0 otherwise; nothing is drawn exactly when the text is empty |
| Layout.DrawTextBlock | Run.py:26-63 | the drawing loop produces exactly the calls of `TextBlock` |
| Layout.BlockDrawsText | Run.py:34-56 | a block draws all of its text, except the one space where a wrap breaks |
| Layout.PlainBlockLayout | Run.py:44-56 | for a plain block, each line is drawn at `x`, at the fitted size (3 smaller when wrapped), and stacked upward from the anchor by one height per line, plus the wrap offset |
| Layout.CurrencySplit | Run.py:51-54 | a one-line price block (no underline) starting with `£` is drawn as `£` at `x`, then the rest from where the `£` ends, on the same baseline |
| MetaLine.Place | Run.py:82-94 | one call per run, and the first run starts at `x` |
| MetaLine.PlaceIncreasing | Run.py:82-94 | runs start at or right of `x`, and strictly left to right |
| MetaLine.PlaceLowered | Run.py:73 | moving the anchor down by `d` moves every run down by `d` and changes nothing else |
| MetaLine.ItemSizeOpsLowered | Run.py:73-100 | moving the anchor of the item line down by `d` lowers every call by `d`, the underline included |
| MetaLine.DrawItemSizeBlock | Run.py:65-100 | the step-by-step drawing with `cur_x` produces exactly the specified item line |
| MetaLine.SegmentsText | Run.py:82-97 | the runs spell "size·condition·brand", skipping empty fields; both dots are always there |
| MetaLine.ItemLineText | Run.py:82-97 | the item line's glyphs spell size, dot, condition, dot, brand; with no field equal to a dot, exactly two dots are drawn |
| MetaLine.PlaceRuns | Run.py:82-97 | each call draws its run's text in its colour, at one shared `y` and size |
| MetaLine.SegmentsColors | Run.py:75-97 | only the brand is in the brand colour, and it is the last run when present |
| MetaLine.ItemLineLayout | Run.py:65-100 | the whole item line: starts at `x`, strictly left to right, one baseline and one size, the brand last in its colour and underlined, and one call per run plus the underline |
| Scraper.FirstIndex | Run.py:118-122 | the index is of the first matching element, or the length when none matches |
| Scraper.FirstImage | Run.py:117-122 | the photo URL is absent exactly when no `src` is on the image host; otherwise it is the first such `src` |
| Scraper.FindImage | Run.py:117-122 | the loop with `break` returns the first photo URL on the image host |
| Scraper.FirstCondition | Run.py:131-137 | the condition is empty exactly when no bold span is a valid label; otherwise it is the first valid label |
| Scraper.FindCondition | Run.py:131-137 | the loop with `break` returns the first valid condition label |
| Scraper.PriceNumber | Run.py:114 | the text passed to `float` is non-empty and only digits and dots. It is the filtered price, or exactly "0" when the filter leaves nothing |
| Scraper.PriceDropsCurrency | Run.py:113-114 | a price written as one currency sign followed by digits and dots gives exactly those digits and dots |
| Scraper.ExtractListing | Run.py:103-150 | field by field: the title sanitised, the price pair, the first photo URL on the host, the stripped size (empty when missing), the first valid condition and the brand |
| Geometry.EffectiveBoxIsBackground | Run.py:168-182 | the photo box covers exactly the painted background in both themes: it starts at the overlay top and reaches `img_offset` below the overlay bottom |
| Geometry.ResizedExact | Run.py:185-197 | the resized photo matches the box exactly on one side, the side the min or max scale picks, and scales the other side in proportion, rounded down |
| Geometry.FitBoxInside | Run.py:185-192 | the fitted photo lies inside the box, is centred to within a pixel, fills one side, and keeps the aspect ratio to within rounding |
| Geometry.CoverCropFills | Run.py:193-202 | the cover-scaled photo is at least as large as the box on both sides, and exactly as large on one. The centred crop has exactly the box's size and lies within the resized photo |
| Geometry.FinalCropShape | Run.py:229-233 | the final crop is centred inside the canvas; it is full width when 16/9 of the width fits, and full height otherwise; it is portrait, 9:16 to within rounding |
| Geometry.FinalCropOverlayWidth | Run.py:229-233 | an 828-pixel-wide canvas at least 1472 high is cropped to a centred 828×1472 |
| Card.PlacePhoto | Run.py:176-202 | no photo means nothing pasted, and only then. With background removal the photo is fitted inside the box. Otherwise it covers the whole box, with a crop of the box's size taken from the resized photo |
| Card.DrawCardText | Run.py:204-227 | the four drawing calls produce the specified lettering, with the title's offset feeding the item line |
| Card.CardShowsListing | Run.py:206-227 | the card shows, in order: the title (less a wrap space), "size·condition·brand", the price and the fee |
| Card.TitleWrapMovesOnlyItemLine | Run.py:207-227 | a title over 50 characters moves the item line 20 pixels down and leaves the price and fee where they were |
| Card.GenerateImage | Run.py:157-234 | the rendered card is the background, the photo placement, the lettering and the final crop, in that order; their properties are the lemmas above |
| App.Split | Run.py:273 | `re.split` on newline or comma returns one more piece than there are separators |
| App.SplitRejoin | Run.py:273 | joining the pieces with the separators in order gives back the input |
| App.SplitPiecesClean | Run.py:273 | no piece contains a separator |
| App.SplitAtSep | Run.py:273 | splitting around a separator is splitting each side |
| App.SplitNoSep | Run.py:273 | text with no separator is one piece |
| App.CleanTokens | Run.py:273 | every piece kept by the comprehension is non-blank, stripped and free of separators |
| App.ParseUrlsTokens | Run.py:273 | every parsed URL is non-empty, has no surrounding whitespace and no comma or newline |
| App.CleanAppend | Run.py:273 | the comprehension distributes over concatenation |
| App.ParseUrlsAppend | Run.py:273 | a separator between two texts makes their URL lists concatenate |
| App.ParseUrlsSingle | Run.py:273 | a non-blank text with no separator is one URL, its stripped self |
| App.NatToString | Run.py:294 | `str(i)` is never empty |
| App.NatToStringDenotes | Run.py:294 | `str(n)` is all digits, has no leading zero unless `n` is 0, and denotes `n` |
| App.NatToStringInjective | Run.py:294 | different numbers have different decimal strings |
| App.FileNameInjective | Run.py:294 | different image numbers give different file names, so no bulk image overwrites another in the zip |
| App.CachedFromStep | Run.py:279-287 | one pass of the loop fetches a URL only if it is not cached, and caches what a successful fetch returns; old entries stay; each URL is fetched at most once |
| App.BulkStep | Run.py:279-293 | one pass of the loop that does not raise extends both the cache invariant and the list of images drawn |
| App.Session.constructor | Run.py:153-154 | the session starts with an empty cache |
| App.Session.SingleUrl | Run.py:250-262 | a non-empty URL that is not cached is fetched once, and cached when the fetch succeeds. A fetch that raises caches nothing. An empty URL is never cached. The entry drawn is the cached one, if any |
| App.Session.BulkUrls | Run.py:272-294 | the loop stops at the first URL whose fetch raises, and only there; that URL stays uncached. For every URL before it, image `k+1` is drawn from the cache entry of the `k`-th parsed URL. The cache gains exactly the missing URLs among those, each fetched once. Entries already cached never change, and a repeated URL reuses its entry |
| Sanitize.IsSpace | Run.py:24 | definition: `\s`, the characters of Python's `str.isspace`, used by `remove_emojis` and `strip`. Its use is characterised by `StripSlice` and `StripEmpty` |
| Sanitize.IsWordChar | Run.py:24 | definition: `\w` — `_`, the alphanumerics of Latin-1, and above U+00FF whatever the word table `wide` (Unicode's `isalnum`) accepts. Its use is characterised by `RemoveEmojis` |
| Sanitize.Kept | Run.py:24 | definition: the complement of `[^\w\s\-/&]`, which `RemoveEmojis` keeps; `FilterFixed` and `RemoveTrailingEmoji` state its effect |
| Sanitize.Strip | Run.py:129 | definition: `str.strip()`; `StripSlice` and `StripEmpty` state what it returns |
| Layout.LineY | Run.py:50 | definition: the `y_offset` of line `i`, whose meaning `PlainBlockLayout` and `CurrencySplit` state |
| Layout.LinesOps | Run.py:49-61 | definition: the `enumerate` loop over the lines; `LinesDrawLines` and `BlockDrawsText` state what it draws |
| MetaLine.Segments | Run.py:82-97 | definition: the runs drawn in order; `SegmentsText` and `SegmentsColors` state their text and colours |
| MetaLine.ItemSizeOps | Run.py:65-100 | definition: the whole item line; `ItemLineLayout`, `ItemLineText` and `ItemSizeOpsLowered` state its meaning, and `DrawItemSizeBlock` is proved equal to it |
| Scraper.IsCdnSrc | Run.py:119-120 | definition: a truthy `src` on the image host; `FirstImage` uses it |
| Scraper.IsCondition | Run.py:131-135 | definition: a span text that is one of the five labels; `FirstCondition` uses it |
| Geometry.ImgOffset | Run.py:162-166 | definition: 16 in the light theme, 0 otherwise; `EffectiveBoxIsBackground` uses it |
| Geometry.TextOffset | Run.py:162-166 | definition: 10 in the light theme, 0 otherwise; `Card.DrawCardText` anchors every block with it |
| Geometry.Background | Run.py:168-173 | definition: the band and the rectangle pasted in the background colour; `EffectiveBoxIsBackground` relates them to the photo box |
| Geometry.EffectiveBox | Run.py:178-183 | definition: the photo box; `EffectiveBoxIsBackground` states it is exactly the painted background |
| Geometry.Scale | Run.py:185-197 | definition: `min` (fit) or `max` (cover) of the two ratios; `ResizedExact` states which side it picks |
| Geometry.Resized | Run.py:185-197 | definition: `int(pw*scale), int(ph*scale)`; `ResizedExact` states its value |
| Geometry.FitBox | Run.py:186-191 | definition: where the fitted photo is pasted; `FitBoxInside` states its properties |
| Geometry.CoverCrop | Run.py:195-201 | definition: the cover size and the centred crop; `CoverCropFills` states its properties |
| Geometry.FinalCrop | Run.py:230-232 | definition: the final crop; `FinalCropShape` and `FinalCropOverlayWidth` state its shape |
| Card.CardText | Run.py:206-227 | definition: the four text blocks; `CardShowsListing` and `TitleWrapMovesOnlyItemLine` state their meaning, and `DrawCardText` is proved equal to it |
| Card.Render | Run.py:157-234 | definition: the whole card; `GenerateImage` is proved equal to it |
| App.Clean | Run.py:273 | definition: strip every piece and drop the blank ones; `CleanTokens` and `CleanAppend` state its meaning |
| App.ParseUrls | Run.py:273 | definition: the bulk URL list; `ParseUrlsTokens`, `ParseUrlsAppend` and `ParseUrlsSingle` state its meaning |
| App.FileName | Run.py:294 | definition: `bulk_image_<i>.jpeg`; `FileNameInjective` states that no two images share a name |

## Left out

- The Streamlit user interface is not modelled: radios, toggles, buttons, spinners, `st.image` and the download buttons. Pressing a button is taken as given: single mode draws from the cached entry whenever one exists.
- HTTP requests and HTML parsing are not modelled. A page is given as what the CSS selectors return: the `src` attribute of each `<img>`, the texts of the bold spans, and the optional title, price, size and brand texts.
- Downloading the photo, `rembg` and decoding the photo become the `fetch` parameter. A photo is given only by its pixel size.
- Rasterisation is not modelled: PIL compositing, LANCZOS resampling, JPEG and zip writing, and the pixel colours themselves. A card is the boxes, the placement and the drawing calls.
- The random background colour is not modelled. The colour does not affect any geometry.
- Fonts are uninterpreted. Metrics and text widths are arbitrary functions, so no property depends on Arial's real measurements.
- Scraper.ExtractListing: `float(...)`, the 1.06 buyer-fee factor, `round` and the `£{:.2f}` formatting are the `money` parameter. The model does not raise the `ValueError` that `float` raises on a filtered price that is not a number, such as "." or "1.2.3". In the session, that error and the network errors are the `None` a fetch returns, which the cache methods model.
- The Unicode character database is not reproduced. Above U+00FF, which characters `\w` matches is the parameter `wide` of `RemoveEmojis`.
- Geometry.ResizedExact: the scale and `int(pw*scale)` are computed in exact rationals, not IEEE doubles. A double rounded just below an integer could make Python's photo one pixel smaller than the model's.
- Card.PlacePhoto: requires a photo of positive width and height. PIL never decodes an image with a zero side, and Python would divide by zero on one.
- App.Session.BulkUrls: a cached entry keeps the photo prepared with the background-removal setting in force when it was fetched. The model records that entry without tracking the setting.
- Underline calls are kept as `Rule` values with no `textbbox` geometry. The `underline` option of the four blocks is always off in the configuration.
