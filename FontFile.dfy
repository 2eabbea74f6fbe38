/** The `.fnt` text `saveFontFile` writes (Process.swift), and a reader for it.
    The text is a header, an optional embedded-image block and one
    `label<TAB><TAB>width` line per glyph, one line each, with no newline after the
    last line. The base64 text of the sheet image is an input: `None` when the
    image could not be encoded. */
module FontFile {
  import opened Wrappers
  import opened Strings
  import opened Metrics

  /** Whether the sheet image is embedded, and if so the payload, if encoding worked. */
  datatype Embedding = NotEmbedded | Embedded(payload: Option<string>)

  /** Everything the `.fnt` file records. */
  datatype FontFileModel = FontFileModel(width: int, height: int, embedding: Embedding, metas: seq<FontMeta>)

  predicate IsNewline(c: char) {
    c == '\n'
  }

  predicate IsTab(c: char) {
    c == '\t'
  }

  function MetaLine(m: FontMeta): string {
    m.glyph + "\t\t" + IntToString(m.width)
  }

  /** The glyph lines, in the order of the metadata list. */
  function MetaLines(metas: seq<FontMeta>): (lines: seq<string>)
    ensures |lines| == |metas|
  {
    if metas == [] then []
    else MetaLines(metas[..|metas| - 1]) + [MetaLine(metas[|metas| - 1])]
  }

  function EmbeddingLines(e: Embedding): seq<string> {
    match e
    case NotEmbedded => []
    case Embedded(None) => [""]
    case Embedded(Some(data)) => ["datalen=" + IntToString(|data|), "data=" + data, ""]
  }

  function HeaderLines(width: int, height: int): seq<string> {
    ["width=" + IntToString(width), "height=" + IntToString(height), ""]
  }

  /** The lines of the file, in order. */
  function FntLines(f: FontFileModel): seq<string> {
    HeaderLines(f.width, f.height) + EmbeddingLines(f.embedding) + MetaLines(f.metas)
  }

  /** `saveFontFile`'s text assembly: every piece is appended followed by a newline,
      and the final character of the whole text is dropped. The result is the lines
      joined by newlines, so no newline follows the last line. */
  method SaveFontFile(width: int, height: int, metaList: seq<FontMeta>, embedding: Embedding)
    returns (file: string)
    ensures file == Join(FntLines(FontFileModel(width, height, embedding, metaList)), '\n')
  {
    file := "";
    file := file + ("width=" + IntToString(width) + "\n");
    file := file + ("height=" + IntToString(height) + "\n");
    file := file + "\n";
    HeaderWritten(width, height);
    ghost var header := HeaderLines(width, height);

    if embedding.Embedded? {
      ghost var before := file;
      if embedding.payload.Some? {
        var base64 := embedding.payload.value;
        var dataLength := |base64|;
        file := file + ("datalen=" + IntToString(dataLength) + "\n");
        file := file + ("data=" + base64 + "\n");
      }
      file := file + "\n";
      if embedding.payload.Some? {
        PayloadWritten(before, header, embedding.payload.value);
      } else {
        AppendLine(before, header, "");
      }
    } else {
      assert header + EmbeddingLines(embedding) == header;
    }
    ghost var prefix := header + EmbeddingLines(embedding);
    assert file == Join(prefix, '\n') + "\n";
    NoMetasYet(prefix, metaList);

    for i := 0 to |metaList|
      invariant file == Join(prefix + MetaLines(metaList[..i]), '\n') + "\n"
    {
      var meta := metaList[i];
      ghost var before := file;
      file := file + (meta.glyph + "\t\t" + IntToString(meta.width) + "\n");
      assert file == Join(prefix + MetaLines(metaList[..i + 1]), '\n') + "\n" by {
        AppendLine(before, prefix + MetaLines(metaList[..i]), MetaLine(meta));
        TakeOneMore(metaList, i);
        MetaLinesSnoc(metaList[..i], meta);
        AppendAssoc(prefix, MetaLines(metaList[..i]), MetaLine(meta));
      }
    }
    TakeAll(metaList);
    file := file[..|file| - 1];
  }

  /** The appends of an embedded payload and the blank line after it leave the
      lines of the embedded block, each ended by a newline. */
  lemma PayloadWritten(file: string, lines: seq<string>, data: string)
    requires |lines| >= 1 && file == Join(lines, '\n') + "\n"
    ensures file + ("datalen=" + IntToString(|data|) + "\n") + ("data=" + data + "\n") + "\n" ==
      Join(lines + EmbeddingLines(Embedded(Some(data))), '\n') + "\n"
  {
    var first := "datalen=" + IntToString(|data|);
    var second := "data=" + data;
    assert "" + "\n" == "\n";
    SnocThree(lines, first, second, "");
    AppendLine(file, lines, first);
    AppendLine(file + (first + "\n"), lines + [first], second);
    AppendLine(file + (first + "\n") + (second + "\n"), lines + [first] + [second], "");
  }

  lemma SnocThree<T>(s: seq<T>, a: T, b: T, c: T)
    ensures s + [a] + [b] + [c] == s + [a, b, c]
  {
  }

  lemma NoMetasYet(prefix: seq<string>, metas: seq<FontMeta>)
    ensures prefix + MetaLines(metas[..0]) == prefix
  {
    assert metas[..0] == [];
  }

  /** The three header appends leave the header lines, each ended by a newline. */
  lemma HeaderWritten(width: int, height: int)
    ensures "" + ("width=" + IntToString(width) + "\n") + ("height=" + IntToString(height) + "\n") + "\n"
      == Join(HeaderLines(width, height), '\n') + "\n"
  {
    var w := "width=" + IntToString(width);
    var h := "height=" + IntToString(height);
    AppendLine("" + (w + "\n"), [w], h);
    AppendLine("" + (w + "\n") + (h + "\n"), [w, h], "");
    assert [w] + [h] == [w, h] && [w, h] + [""] == HeaderLines(width, height);
  }

  /** One `file.append(piece)` where the piece is a line and its newline. */
  lemma AppendLine(file: string, lines: seq<string>, line: string)
    requires |lines| >= 1 && file == Join(lines, '\n') + "\n"
    ensures file + (line + "\n") == Join(lines + [line], '\n') + "\n"
  {
    JoinAppend(file, lines, line, '\n');
  }

  // ---------------------------------------------------------------------------
  // Reading the text back

  /** Reads the integer after `key` on a line that starts with `key`. */
  function ParseField(line: string, key: string): Option<int> {
    if |key| <= |line| && line[..|key|] == key then ParseInt(line[|key|..]) else None
  }

  function ParseMeta(line: string): Option<FontMeta> {
    var parts := Split(line, IsTab);
    if |parts| == 3 && parts[1] == "" then
      match ParseInt(parts[2])
      case Some(w) => Some(FontMeta(parts[0], w))
      case None => None
    else None
  }

  function ParseMetas(lines: seq<string>): Option<seq<FontMeta>> {
    if lines == [] then Some([])
    else
      match (ParseMetas(lines[..|lines| - 1]), ParseMeta(lines[|lines| - 1]))
      case (Some(ms), Some(m)) => Some(ms + [m])
      case _ => None
  }

  /** Reads everything after the header: the embedded block (whose `datalen` must
      be the length of the `data` payload), then the glyph lines. */
  function ParseBody(rest: seq<string>): Option<(Embedding, seq<FontMeta>)> {
    if |rest| >= 1 && ParseField(rest[0], "datalen=").Some? then
      if |rest| >= 3 && |rest[1]| >= 5 && rest[1][..5] == "data=" && rest[2] == ""
        && ParseField(rest[0], "datalen=").value == |rest[1]| - 5
      then
        match ParseMetas(rest[3..])
        case Some(ms) => Some((Embedded(Some(rest[1][5..])), ms))
        case None => None
      else None
    else if |rest| >= 1 && rest[0] == "" then
      match ParseMetas(rest[1..])
      case Some(ms) => Some((Embedded(None), ms))
      case None => None
    else
      match ParseMetas(rest)
      case Some(ms) => Some((NotEmbedded, ms))
      case None => None
  }

  /** A reader of `.fnt` text, as a consumer of the format sees it. */
  function ParseFnt(text: string): Option<FontFileModel> {
    var lines := Split(text, IsNewline);
    if |lines| < 3 || lines[2] != "" then None
    else
      match (ParseField(lines[0], "width="), ParseField(lines[1], "height="), ParseBody(lines[3..]))
      case (Some(w), Some(h), Some((e, ms))) => Some(FontFileModel(w, h, e, ms))
      case _ => None
  }

  /** The labels and payload contain nothing that would break the line structure:
      no newline anywhere, and no tab in a label. */
  predicate WellFormed(f: FontFileModel) {
    (f.embedding.Embedded? && f.embedding.payload.Some? ==> NoSep(f.embedding.payload.value, IsNewline))
    && forall k :: 0 <= k < |f.metas| ==>
         NoSep(f.metas[k].glyph, IsNewline) && NoSep(f.metas[k].glyph, IsTab)
  }

  lemma IntTextHasNoBreak(i: int)
    ensures NoSep(IntToString(i), IsNewline) && NoSep(IntToString(i), IsTab)
  {
  }

  lemma FieldRoundTrip(key: string, i: int)
    ensures ParseField(key + IntToString(i), key) == Some(i)
  {
    var line := key + IntToString(i);
    assert line[..|key|] == key && line[|key|..] == IntToString(i);
    ParseIntToString(i);
  }

  /** The label holds no tab, so the first tab of its line ends it. */
  predicate TabFree(m: FontMeta) {
    NoSep(m.glyph, IsTab)
  }

  lemma MetaRoundTrip(m: FontMeta)
    requires TabFree(m)
    ensures ParseMeta(MetaLine(m)) == Some(m)
  {
    var w := IntToString(m.width);
    IntTextHasNoBreak(m.width);
    assert MetaLine(m) == m.glyph + ['\t', '\t'] + w;
    SplitDoubleSeparator(m.glyph, '\t', w, IsTab);
    ParseIntToString(m.width);
  }

  lemma MetaLinesSnoc(metas: seq<FontMeta>, m: FontMeta)
    ensures MetaLines(metas + [m]) == MetaLines(metas) + [MetaLine(m)]
  {
    assert (metas + [m])[..|metas|] == metas;
  }

  lemma ParseMetasSnoc(lines: seq<string>, line: string)
    ensures ParseMetas(lines + [line]) ==
      match (ParseMetas(lines), ParseMeta(line))
      case (Some(ms), Some(m)) => Some(ms + [m])
      case _ => None
  {
    assert (lines + [line])[..|lines|] == lines;
  }

  lemma {:induction false} MetasRoundTrip(metas: seq<FontMeta>)
    requires forall k :: 0 <= k < |metas| ==> TabFree(metas[k])
    ensures ParseMetas(MetaLines(metas)) == Some(metas)
  {
    if metas != [] {
      var n := |metas| - 1;
      var init := metas[..n];
      assert forall k :: 0 <= k < n ==> init[k] == metas[k];
      MetasRoundTrip(init);
      MetaRoundTrip(metas[n]);
      LastSplit(metas);
      MetaLinesSnoc(init, metas[n]);
      ParseMetasSnoc(MetaLines(init), MetaLine(metas[n]));
    }
  }

  /** A glyph line is never mistaken for a `datalen=` line: it holds a tab where the
      number would be. */
  lemma MetaLineIsNotDatalen(m: FontMeta)
    requires NoSep(m.glyph, IsTab)
    ensures ParseField(MetaLine(m), "datalen=") == None
    ensures MetaLine(m) != ""
  {
    var line := MetaLine(m);
    var key := "datalen=";
    assert line[|m.glyph|] == '\t';
    if |key| <= |line| && line[..|key|] == key {
      assert forall j :: 0 <= j < |key| ==> line[j] == key[j] && key[j] != '\t';
      ParseIntRejects(line[|key|..], |m.glyph| - |key|);
    }
  }

  lemma {:induction false} MetaLinesAt(metas: seq<FontMeta>, k: nat)
    requires k < |metas|
    ensures MetaLines(metas)[k] == MetaLine(metas[k])
  {
    var n := |metas| - 1;
    var init := MetaLines(metas[..n]);
    assert MetaLines(metas) == init + [MetaLine(metas[n])];
    if k < n {
      MetaLinesAt(metas[..n], k);
      assert metas[..n][k] == metas[k];
    }
  }

  lemma BodyRoundTripPlain(metas: seq<FontMeta>)
    requires forall k :: 0 <= k < |metas| ==> TabFree(metas[k])
    ensures ParseBody(EmbeddingLines(NotEmbedded) + MetaLines(metas)) == Some((NotEmbedded, metas))
  {
    var rest := MetaLines(metas);
    assert EmbeddingLines(NotEmbedded) + rest == rest;
    if metas != [] {
      FirstLineIsNotDatalen(metas);
    }
    MetasRoundTrip(metas);
    BodyWithoutBlock(rest);
  }

  /** Lines that start neither with `datalen=` nor with a blank line carry no
      embedded block: they are read as glyph lines alone. */
  lemma BodyWithoutBlock(rest: seq<string>)
    requires rest == [] || (ParseField(rest[0], "datalen=") == None && rest[0] != "")
    ensures ParseMetas(rest).Some? ==> ParseBody(rest) == Some((NotEmbedded, ParseMetas(rest).value))
  {
  }

  lemma FirstLineIsNotDatalen(metas: seq<FontMeta>)
    requires |metas| > 0 && TabFree(metas[0])
    ensures ParseField(MetaLines(metas)[0], "datalen=") == None
    ensures MetaLines(metas)[0] != ""
  {
    MetaLinesAt(metas, 0);
    MetaLineIsNotDatalen(metas[0]);
  }

  lemma BodyRoundTripNoPayload(metas: seq<FontMeta>)
    requires forall k :: 0 <= k < |metas| ==> TabFree(metas[k])
    ensures ParseBody(EmbeddingLines(Embedded(None)) + MetaLines(metas)) == Some((Embedded(None), metas))
  {
    var rest := EmbeddingLines(Embedded(None)) + MetaLines(metas);
    Concat([""], MetaLines(metas));
    assert rest[0] == "";
    MetasRoundTrip(metas);
  }

  lemma BodyRoundTripPayload(data: string, metas: seq<FontMeta>)
    requires forall k :: 0 <= k < |metas| ==> TabFree(metas[k])
    ensures ParseBody(EmbeddingLines(Embedded(Some(data))) + MetaLines(metas)) ==
      Some((Embedded(Some(data)), metas))
  {
    var block := EmbeddingLines(Embedded(Some(data)));
    var rest := block + MetaLines(metas);
    assert |rest| >= 3 && rest[2] == "";
    assert ParseField(rest[0], "datalen=") == Some(|data|) by {
      assert rest[0] == "datalen=" + IntToString(|data|);
      FieldRoundTrip("datalen=", |data|);
    }
    assert |rest[1]| >= 5 && rest[1][..5] == "data=" && rest[1][5..] == data by {
      assert rest[1] == "data=" + data;
      Concat("data=", data);
    }
    assert ParseMetas(rest[3..]) == Some(metas) by {
      Concat(block, MetaLines(metas));
      MetasRoundTrip(metas);
    }
  }

  /** The written text reads back as exactly the model it was written from: the
      header values, whether the image was embedded and, if so, a payload whose
      `datalen` is its length, and every glyph line in order. */
  lemma FntRoundTrip(f: FontFileModel)
    requires WellFormed(f)
    ensures ParseFnt(Join(FntLines(f), '\n')) == Some(f)
  {
    LinesSplitBack(f);
    HeaderReadsBack(f);
    BodyReadsBack(f);
  }

  /** Splitting the text at newlines recovers its lines. */
  lemma LinesSplitBack(f: FontFileModel)
    requires WellFormed(f)
    ensures Split(Join(FntLines(f), '\n'), IsNewline) == FntLines(f)
  {
    LinesHaveNoNewline(f);
    SplitJoin(FntLines(f), '\n', IsNewline);
  }

  lemma HeaderReadsBack(f: FontFileModel)
    ensures var lines := FntLines(f);
      |lines| >= 3 && lines[2] == "" &&
      ParseField(lines[0], "width=") == Some(f.width) &&
      ParseField(lines[1], "height=") == Some(f.height)
  {
    FieldRoundTrip("width=", f.width);
    FieldRoundTrip("height=", f.height);
  }

  lemma BodyReadsBack(f: FontFileModel)
    requires WellFormed(f)
    ensures |FntLines(f)| >= 3
    ensures ParseBody(FntLines(f)[3..]) == Some((f.embedding, f.metas))
  {
    AfterHeader(f);
    assert forall k :: 0 <= k < |f.metas| ==> TabFree(f.metas[k]);
    match f.embedding
    case NotEmbedded => BodyRoundTripPlain(f.metas);
    case Embedded(None) => BodyRoundTripNoPayload(f.metas);
    case Embedded(Some(data)) => BodyRoundTripPayload(data, f.metas);
  }

  /** The header is the first three lines. */
  lemma AfterHeader(f: FontFileModel)
    ensures |FntLines(f)| >= 3
    ensures FntLines(f)[3..] == EmbeddingLines(f.embedding) + MetaLines(f.metas)
  {
    var header, body := HeaderLines(f.width, f.height), EmbeddingLines(f.embedding);
    assert |header| == 3;
    ConcatAssoc(header, body, MetaLines(f.metas));
    Concat(header, body + MetaLines(f.metas));
  }

  lemma LinesHaveNoNewline(f: FontFileModel)
    requires WellFormed(f)
    ensures forall k :: 0 <= k < |FntLines(f)| ==> NoSep(FntLines(f)[k], IsNewline)
  {
    var header := HeaderLines(f.width, f.height);
    var emb := EmbeddingLines(f.embedding);
    HeaderHasNoNewline(f.width, f.height);
    EmbeddingHasNoNewline(f.embedding);
    MetaLinesHaveNoNewline(f.metas);
    NoSepAll(header, emb, IsNewline);
    NoSepAll(header + emb, MetaLines(f.metas), IsNewline);
  }

  lemma HeaderHasNoNewline(width: int, height: int)
    ensures forall k :: 0 <= k < |HeaderLines(width, height)| ==> NoSep(HeaderLines(width, height)[k], IsNewline)
  {
    IntTextHasNoBreak(width);
    IntTextHasNoBreak(height);
    NoSepConcat("width=", IntToString(width), IsNewline);
    NoSepConcat("height=", IntToString(height), IsNewline);
  }

  lemma EmbeddingHasNoNewline(e: Embedding)
    requires e.Embedded? && e.payload.Some? ==> NoSep(e.payload.value, IsNewline)
    ensures forall k :: 0 <= k < |EmbeddingLines(e)| ==> NoSep(EmbeddingLines(e)[k], IsNewline)
  {
    if e.Embedded? && e.payload.Some? {
      var data := e.payload.value;
      IntTextHasNoBreak(|data|);
      NoSepConcat("datalen=", IntToString(|data|), IsNewline);
      NoSepConcat("data=", data, IsNewline);
    }
  }

  lemma MetaLinesHaveNoNewline(metas: seq<FontMeta>)
    requires forall k :: 0 <= k < |metas| ==> NoSep(metas[k].glyph, IsNewline)
    ensures forall k :: 0 <= k < |MetaLines(metas)| ==> NoSep(MetaLines(metas)[k], IsNewline)
  {
    forall k | 0 <= k < |metas|
      ensures NoSep(MetaLines(metas)[k], IsNewline)
    {
      var m := metas[k];
      MetaLinesAt(metas, k);
      IntTextHasNoBreak(m.width);
      NoSepConcat(m.glyph, "\t\t", IsNewline);
      NoSepConcat(m.glyph + "\t\t", IntToString(m.width), IsNewline);
    }
  }

  /** The metadata of any glyph file is well formed: single-character labels are
      never whitespace, and the other labels are `space`. So the `.fnt` text of a
      real run always reads back. */
  lemma GlyphFileRoundTrip(content: string, measure: char -> Size, width: int, height: int, e: Embedding)
    requires e.Embedded? && e.payload.Some? ==> NoSep(e.payload.value, IsNewline)
    ensures var f := FontFileModel(width, height, e, MetaList(GlyphList(content), measure));
      ParseFnt(Join(FntLines(f), '\n')) == Some(f)
  {
    var f := FontFileModel(width, height, e, MetaList(GlyphList(content), measure));
    LabelsAreClean(content, measure, f.metas);
    FntRoundTrip(f);
  }

  /** Every label of a glyph file's metadata is free of newlines and tabs. */
  lemma LabelsAreClean(content: string, measure: char -> Size, metas: seq<FontMeta>)
    requires metas == MetaList(GlyphList(content), measure)
    ensures forall k :: 0 <= k < |metas| ==> NoSep(metas[k].glyph, IsNewline) && NoSep(metas[k].glyph, IsTab)
  {
    var glyphs := GlyphList(content);
    SplitPiecesHaveNoSep(content, IsWhitespaceOrNewline);
    forall k | 0 <= k < |metas|
      ensures NoSep(metas[k].glyph, IsNewline) && NoSep(metas[k].glyph, IsTab)
    {
      assert NoSep(glyphs[k], IsWhitespaceOrNewline);
    }
  }
}
