# PlaydateFontsheet core, modelled in Dafny

PlaydateFontsheet turns an installed font into a Playdate font: a glyph sheet
image (a grid of 16 columns holding one glyph per cell) and a `.fnt` text file
that gives the cell size, optionally the sheet image as base64, and one
`label<TAB><TAB>advance` line per glyph. This project models the core of that
pipeline:

- `Strings.dfy`: the Foundation string operations the core relies on, over
  `seq<char>`:
  - `components(separatedBy:)` as `Split`, with its inverse `Join`;
  - integer interpolation `"\(n)"` as `IntToString`, with a reader `ParseInt`;
  - `capitalized` (ASCII letters) and `first`.
- `Metrics.dfy`: the metrics pass (`cellSize`).
  - The glyph file is split into tokens at whitespace and newlines.
  - Every token appends one `FontMeta` to the `metaList` field of the `Process` class.
  - The cell size is the ceiling of the running maxima of the measured widths and heights.
  - Text measurement is an input function `measure`.
- `Layout.dfy`: the sheet size `build` computes, and the raster scan of
  `render`. It returns the draw requests (token index and position) instead of
  drawing.
- `FontFile.dfy`: the text assembly of `saveFontFile`, as an imperative method
  that appends piece by piece and drops the final character. A reader
  `ParseFnt` shows that the text determines everything written into it.
- `Naming.dfy`: the file names built by `fontFileURL`, `fontSampleFileURL` and
  `fontImageFileURL`. A decoder recovers the cell size from the `-W-H` suffix
  that the Playdate SDK reads.
- `Filters.dfy`: `pixelate`. It copies the image into an RGBA buffer (an
  `array2`), overwrites every readable pixel in place with opaque black or
  transparent white by its alpha, and falls back to the input image when a
  buffer or the final image cannot be made.

Three points of the code's behaviour that are easy to misread:

- The advance width of a glyph is `Int(width + 1.0)`, a truncation toward zero
  (`Process.swift:169`). It is not rounded up.
- The weight branch `weight.first == weight.capitalized.first` is not a no-op.
  A weight that already starts with a capital, such as `BOLD`, is kept as
  given, while `capitalized` would give `Bold` (`Naming.WeightNameKeepsUpperCase`).
- The same weight rule is used in all three file names, the sample and table
  names included (`Process.swift:328-332`, `350-354`).

## Model

| member | source | states |
|---|---|---|
| Strings.Split | Sources/Process.swift:80 | there is always at least one token, even for empty text |
| Strings.SplitPiecesHaveNoSep | Sources/Process.swift:80 | no token contains a separator |
| Strings.SplitCount | Sources/Process.swift:80 | there is exactly one token more than there are separators, so adjacent separators and separators at either end give empty tokens |
| Strings.SplitConcat | Sources/Process.swift:80 | the tokens of `a`, a separator, then `b` are the tokens of `a` followed by those of `b` |
| Strings.SplitJoin | Sources/Process.swift:80 | separator-free lines joined by a separator split back into exactly those lines |
| Strings.JoinSplit | Sources/Process.swift:80 | when every separator in a text is the same character, joining its tokens with that character restores the text |
| Strings.SplitDoubleSeparator | Sources/Process.swift:263 | two tabs in a row leave one empty field between the label and the width |
| Strings.IntToString | Sources/Process.swift:243 | the decimal text of an Int is non-empty and made of digits, with a leading minus exactly for negatives and no leading zero |
| Strings.ParseIntToString | Sources/Process.swift:243-244 | the decimal text of any Int reads back as that Int |
| Strings.Capitalized | Sources/Process.swift:305-308 | (definition, no contract) `capitalized` of a whole string: the text starts at a word boundary |
| Strings.CapitalizedFrom | Sources/Process.swift:305-309 | `capitalized` keeps the length, upper-cases every letter that starts a word and lower-cases every other letter |
| Strings.First | Sources/Process.swift:305 | `first` is absent exactly for the empty string, and otherwise is the first character |
| Metrics.Trunc | Sources/Process.swift:169 | `Int(_:)` on a real rounds toward zero: it is within one of the value, on the side of zero |
| Metrics.Ceil | Sources/Process.swift:175 | `Int(ceil(r))` is the least integer not below `r` |
| Metrics.IsWhitespaceOrNewline | Sources/Process.swift:80 | (definition, no contract) the characters of `.whitespacesAndNewlines`: the Unicode White_Space characters |
| Metrics.IsRenderable | Sources/Process.swift:144-165 | (definition, no contract) a token is drawn and measured exactly when it is one character long |
| Metrics.GlyphList | Sources/Process.swift:80 | the glyph file yields one token more than it has whitespace and newline characters |
| Metrics.MetaFor | Sources/Process.swift:165-172 | (definition, no contract) the entry of one token: a single character with its measured width plus the margin, truncated; any other token `space` with width 4 |
| Metrics.MetaList | Sources/Process.swift:164-173 | one metadata entry per token, in token order, each the one that token yields |
| Metrics.Max | Sources/Process.swift:167-168 | (definition, no contract) Swift's `max`: the second argument when it is at least the first, the first otherwise |
| Metrics.RunningMax | Sources/Process.swift:161-168 | `widest` or `tallest` after the loop, starting from 0 and never negative |
| Metrics.RunningMaxIsMaximum | Sources/Process.swift:161-168 | the running maximum is at least 0, bounds every single-character glyph's extent, and is 0 or attained by one of them; other tokens play no part |
| Metrics.CellHoldsEveryGlyph | Sources/Process.swift:175 | the cell size is not negative, holds every single-character glyph along each axis, and is 0 when no glyph extends along that axis |
| Metrics.RenderableMeta | Sources/Process.swift:165-169 | a single-character token is labelled with itself, and its width is the measured width plus the margin, rounded down (at least 1) |
| Metrics.PlaceholderMeta | Sources/Process.swift:170-171 | any other token becomes `space` with width 4, whatever the measurement says |
| Metrics.TrailingNewlineAddsSpace | Sources/Process.swift:80 | a glyph file ending in a newline yields one more token, whose entry is `space` 4 |
| Metrics.Process.constructor | Sources/Process.swift:26 | the metadata list starts empty |
| Metrics.Process.CellSize | Sources/Process.swift:160-176 | appends exactly the tokens' metadata to `metaList`, and returns the ceilings of the widest and tallest single-character glyph |
| Layout.RowCount | Sources/Process.swift:109 | the row count is the ceiling of the token count over 16 |
| Layout.Dimensions | Sources/Process.swift:109-110 | (definition, no contract) the sheet is 16 cells wide and `RowCount` cells tall |
| Layout.Advance | Sources/Process.swift:148-152 | (definition, no contract) one scan step moves one cell right, and back to the margin on the next row once x passes the sheet width |
| Layout.Origin | Sources/Process.swift:141-152 | (definition, no contract) the scan position of token k, k steps on from the margin on row 0 |
| Layout.Raised | Sources/Process.swift:145 | (definition, no contract) a glyph is drawn one pixel above its scan position |
| Layout.Render | Sources/Process.swift:141-153 | exactly the single-character tokens are drawn, in token order, each at its scan position raised by one pixel |
| Layout.OriginInGrid | Sources/Process.swift:141-153 | on a sheet 16 cells wide, token k starts at column k mod 16 and row k div 16 |
| Layout.CellInSheet | Sources/Process.swift:109-110 | every token's cell lies within the rows of the sheet and right of the margin; the last column overhangs the sheet by one pixel |
| Layout.OriginsDistinct | Sources/Process.swift:143-152 | distinct tokens are given distinct cells |
| FontFile.MetaLine | Sources/Process.swift:263 | (definition, no contract) a glyph line: the label, two tabs and the advance width |
| FontFile.MetaLines | Sources/Process.swift:262-264 | one glyph line per metadata entry |
| FontFile.MetaLinesAt | Sources/Process.swift:262-264 | glyph line k is the label, two tabs and the width of entry k |
| FontFile.HeaderLines | Sources/Process.swift:243-245 | (definition, no contract) the header: `width=W`, `height=H` and a blank line |
| FontFile.EmbeddingLines | Sources/Process.swift:247-260 | (definition, no contract) nothing without embedding; otherwise `datalen=N` and `data=` with the payload when encoding succeeded, then a blank line, which is written even when encoding failed |
| FontFile.FntLines | Sources/Process.swift:242-264 | (definition, no contract) the lines of the file: the header, the embedded block, then one glyph line per entry |
| FontFile.SaveFontFile | Sources/Process.swift:242-265 | the text is the header, the embedded block and the glyph lines joined by newlines, with no newline after the last line |
| FontFile.MetaRoundTrip | Sources/Process.swift:263 | a glyph line whose label holds no tab reads back as its entry |
| FontFile.MetasRoundTrip | Sources/Process.swift:262-264 | the glyph lines read back as the whole metadata list, in order |
| FontFile.MetaLineIsNotDatalen | Sources/Process.swift:253 | a glyph line is never empty and never reads as a `datalen=` line |
| FontFile.BodyRoundTripPlain | Sources/Process.swift:247-264 | without embedding, the lines after the header are the glyph lines alone |
| FontFile.BodyRoundTripNoPayload | Sources/Process.swift:247-264 | when the image could not be encoded, embedding still writes one blank line before the glyph lines |
| FontFile.BodyRoundTripPayload | Sources/Process.swift:251-254 | an embedded payload reads back, and its `datalen` is its length |
| FontFile.FntRoundTrip | Sources/Process.swift:242-265 | the written text reads back as the cell size, the embedding and the metadata it was written from |
| FontFile.LabelsAreClean | Sources/Process.swift:80 | no label taken from a glyph file holds a newline or a tab |
| FontFile.GlyphFileRoundTrip | Sources/Process.swift:164-173 | the metadata of any glyph file has no label that breaks the line structure, so the written text always reads back |
| Naming.WeightName | Sources/Process.swift:305-309 | (definition, no contract) the weight is kept when its first character equals that of its capitalised form, and capitalised otherwise |
| Naming.SizeWeightSegment | Sources/Process.swift:303-310 | the size and weight part of a name is empty exactly when no weight is given |
| Naming.FontFileName | Sources/Process.swift:301-313 | (definition, no contract) the sheet name, the size and weight part, `-W-H` and `.fnt` |
| Naming.FontSampleFileName | Sources/Process.swift:324-335 | (definition, no contract) `sample-`, the sheet name, the size and weight part, `-W-H` and `.png` |
| Naming.FontImageFileName | Sources/Process.swift:346-358 | (definition, no contract) the sheet name, the size and weight part, `-table-W-H` and `.png` |
| Naming.CellSegment | Sources/Process.swift:311 | (definition, no contract) the `-W-H` cell-size suffix, written the same way at lines 334 and 357 |
| Naming.CellSegmentPieces | Sources/Process.swift:311 | the `-W-H` suffix adds exactly W and H as the last two dash-separated pieces |
| Naming.CellSizeRoundTrip | Sources/Process.swift:311 | a name ending in `-W-H` and an extension gives back W and H |
| Naming.FontFileNameRoundTrip | Sources/Process.swift:295-316 | the `.fnt` name records the cell size |
| Naming.FontSampleFileNameRoundTrip | Sources/Process.swift:318-338 | the sample image name records the cell size |
| Naming.FontImageFileNameRoundTrip | Sources/Process.swift:340-361 | the table image name carries `table` followed by the cell size, as the `-table-W-H.png` convention requires |
| Naming.TableNameRoundTrip | Sources/Process.swift:357-358 | whatever comes before it, `-table-W-H.png` reads back as an image table with cell size W by H |
| Naming.TableBeforeCell | Sources/Process.swift:357 | `table` is the third dash-separated piece from the end of the table image's stem |
| Naming.NamesShareStem | Sources/Process.swift:301-334 | the sample name is `sample-`, the `.fnt` name without its extension, and `.png`; without a weight the `.fnt` name is the sheet name and the cell size only |
| Naming.WeightNameStartsCapitalised | Sources/Process.swift:305-309 | either branch writes a weight of the same length that starts like its capitalised form |
| Naming.WeightNameKeepsUpperCase | Sources/Process.swift:305-309 | `BOLD` is written as given, although `capitalized` would give `Bold`; `bold` is written as `Bold` |
| Filters.Alpha | Sources/Filters.swift:46 | the alpha reported for a pixel is its 8-bit alpha over 255, between 0 and 1 |
| Filters.Binarize | Sources/Filters.swift:47-51 | a readable pixel becomes opaque black or transparent white, and white exactly when its alpha is below the threshold |
| Filters.Filtered | Sources/Filters.swift:41-51 | a pixel whose colour cannot be read is left as it was; a readable one becomes black or clear, and clear exactly when its alpha is below the threshold |
| Filters.ThresholdPixels | Sources/Filters.swift:39-54 | after the scan, every pixel whose colour is readable is binarised and every other pixel is unchanged |
| Filters.Pixelate | Sources/Filters.swift:11-62 | the result has the input's dimensions; it is the input itself when the buffer, its context or the final image cannot be made, and otherwise a new image of the filtered pixels, all black or white when all are readable |
| Filters.ExtremeThresholds | Sources/Filters.swift:47 | a threshold at or below 0 makes every pixel black, one above 1 every pixel white, and at 1 only fully opaque pixels stay black |
| Filters.AlphaAlone | Sources/Filters.swift:46-47 | the new value of a pixel depends on its alpha alone |
| Filters.ThresholdMonotone | Sources/Filters.swift:47-51 | raising the threshold can only turn black pixels white |

## Left out

- Font lookup, text attributes and measurement (`Process.swift:65-77`, `166`): `measure` is an input function from a character to a size.
- Drawing (`Process.swift:133-157`): `Render` returns the draw requests instead of the rendered image. `Pixelate` takes any pixel grid as the image.
- Reading the glyph file and all printing (`Process.swift:62`, `79`, `82`, `112`, `267`): I/O. Only the token split of `run` is modelled. `run` itself is not modelled: it only sequences the modelled operations.
- `init` (`Process.swift:37-57`): the whitespace trimming of the names and the weight, and the default threshold 0.5, are not modelled. The model takes these values as given.
- `build` (`Process.swift:104-121`) is not a member of its own. Its sheet size is `Layout.Dimensions`, and it then calls `Render` and `Pixelate`.
- `save`, `savePNG` and `fontFolderURL` (`Process.swift:182-234`, `282-293`): file system access. The names are modelled as the file-name string, without the folder URL.
- PNG, TIFF and base64 encoding (`Process.swift:248-251`): the base64 text is an input. `Embedded(None)` stands for any failure of that chain.
- `removeItem` and `write` of the `.fnt` file (`Process.swift:269-277`): I/O.
- Floating point: `CGFloat` and `Double` are modelled as exact reals. `Int(_:)` trapping on NaN, on infinities or on values outside 64 bits is not modelled, and neither is any Int overflow.
- Unicode: `count` counts grapheme clusters, while the model counts code points. A single glyph written as several code points is therefore a placeholder in the model. `capitalized` is modelled for ASCII letters, with words starting only after space, tab, CR and LF. Foundation also starts a word after a hyphen, a digit or another uncased character, so it writes `semi-bold` as `Semi-Bold`, while the model gives `Semi-bold`. The whitespace set of the split is the Unicode White_Space list.
- `dropLast` (`Process.swift:265`) drops the last grapheme cluster. The model drops the last character, which is always the final newline.
- Pixelate: the buffer's size is taken from the image in points (`Filters.swift:12-13`). The model uses the pixel grid's own dimensions. Only the alpha of the colour query is modelled, and a failed `colorAt` is the input predicate `colorReadable`.
- Filters.Pixelate: does not state that the successful result is newly allocated, only that it is a different image from the input. Callers only rely on that difference.
- The unused `seen`, `debug` and `descenderComp` members (`Process.swift:13-15`, `33`) have no effect and are not modelled.
- `fontsheet.swift` (argument parsing) and `Extensions.swift` are not part of this model.
