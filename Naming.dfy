/** Output file names of Process.swift (`fontFileURL`, `fontSampleFileURL`,
    `fontImageFileURL`): the file-name part only, as the string each builds. The
    `-size-Weight` part appears only when a weight is given. */
module Naming {
  import opened Wrappers
  import opened Strings
  import Metrics

  /** The weight as written into a name: kept as given when its first character
      already equals the first character of its capitalised form, otherwise
      replaced by the capitalised form. */
  function WeightName(weight: string): string {
    if First(weight) == First(Capitalized(weight)) then weight else Capitalized(weight)
  }

  /** `-<Int(size)>-<weight>` when a weight is given, nothing otherwise. */
  function SizeWeightSegment(size: real, weight: Option<string>): (segment: string)
    ensures segment == [] <==> weight == None
  {
    match weight
    case None => ""
    case Some(w) => "-" + IntToString(Metrics.Trunc(size)) + "-" + WeightName(w)
  }

  function CellSegment(width: int, height: int): string {
    "-" + IntToString(width) + "-" + IntToString(height)
  }

  /** The `.fnt` file name. */
  function FontFileName(name: string, size: real, weight: Option<string>, width: int, height: int): string {
    name + SizeWeightSegment(size, weight) + CellSegment(width, height) + ".fnt"
  }

  /** The sample image written in embedded mode. */
  function FontSampleFileName(name: string, size: real, weight: Option<string>, width: int, height: int): string {
    "sample-" + name + SizeWeightSegment(size, weight) + CellSegment(width, height) + ".png"
  }

  /** The image table written when the image is not embedded. */
  function FontImageFileName(name: string, size: real, weight: Option<string>, width: int, height: int): string {
    name + SizeWeightSegment(size, weight) + "-table" + CellSegment(width, height) + ".png"
  }

  predicate IsDash(c: char) {
    c == '-'
  }

  /** The stem of `fileName` before the extension `ext`, if it ends with it. */
  function StripExtension(fileName: string, ext: string): Option<string> {
    if |ext| <= |fileName| && fileName[|fileName| - |ext|..] == ext
    then Some(fileName[..|fileName| - |ext|]) else None
  }

  /** Reads the cell width and height back from the `-W-H` that ends a file name
      before its extension. */
  function CellSizeOf(fileName: string, ext: string): Option<(int, int)> {
    match StripExtension(fileName, ext)
    case None => None
    case Some(stem) =>
      var parts := Split(stem, IsDash);
      if |parts| < 3 then None
      else
        match (ParseInt(parts[|parts| - 2]), ParseInt(parts[|parts| - 1]))
        case (Some(w), Some(h)) => Some((w, h))
        case _ => None
  }

  /** Reads the cell size from an image-table name `...-table-W-H.png`. */
  function TableCellSizeOf(fileName: string): Option<(int, int)> {
    match StripExtension(fileName, ".png")
    case None => None
    case Some(stem) =>
      var parts := Split(stem, IsDash);
      if |parts| >= 3 && parts[|parts| - 3] == "table" then CellSizeOf(fileName, ".png") else None
  }

  lemma NatTextHasNoDash(n: int)
    requires n >= 0
    ensures NoSep(IntToString(n), IsDash)
  {
  }

  /** The pieces of `prefix-W-H` are the pieces of `prefix`, then W, then H. */
  lemma CellSegmentPieces(prefix: string, width: int, height: int)
    requires width >= 0 && height >= 0
    ensures Split(prefix + CellSegment(width, height), IsDash) ==
      Split(prefix, IsDash) + [IntToString(width), IntToString(height)]
  {
    var w, h := IntToString(width), IntToString(height);
    NatTextHasNoDash(width);
    NatTextHasNoDash(height);
    assert prefix + CellSegment(width, height) == (prefix + ['-'] + w) + ['-'] + h;
    SplitConcat(prefix + ['-'] + w, '-', h, IsDash);
    SplitConcat(prefix, '-', w, IsDash);
    SplitNoSep(w, IsDash);
    SplitNoSep(h, IsDash);
  }

  /** Any name ending in `-W-H` and an extension gives back W and H. */
  lemma CellSizeRoundTrip(prefix: string, width: int, height: int, ext: string)
    requires width >= 0 && height >= 0
    ensures CellSizeOf(prefix + CellSegment(width, height) + ext, ext) == Some((width, height))
  {
    var stem := prefix + CellSegment(width, height);
    var fileName := stem + ext;
    assert StripExtension(fileName, ext) == Some(stem) by {
      Concat(stem, ext);
    }
    var parts := Split(stem, IsDash);
    assert |parts| >= 3 && parts[|parts| - 2] == IntToString(width) && parts[|parts| - 1] == IntToString(height) by {
      CellSegmentPieces(prefix, width, height);
    }
    ParseIntToString(width);
    ParseIntToString(height);
  }

  /** The `.fnt` name records the cell size it was made for. */
  lemma FontFileNameRoundTrip(name: string, size: real, weight: Option<string>, width: int, height: int)
    requires width >= 0 && height >= 0
    ensures CellSizeOf(FontFileName(name, size, weight, width, height), ".fnt") == Some((width, height))
  {
    CellSizeRoundTrip(name + SizeWeightSegment(size, weight), width, height, ".fnt");
  }

  /** The sample image name records the cell size it was made for. */
  lemma FontSampleFileNameRoundTrip(name: string, size: real, weight: Option<string>, width: int, height: int)
    requires width >= 0 && height >= 0
    ensures CellSizeOf(FontSampleFileName(name, size, weight, width, height), ".png") == Some((width, height))
  {
    CellSizeRoundTrip("sample-" + name + SizeWeightSegment(size, weight), width, height, ".png");
  }

  /** The image-table name follows the `-table-W-H.png` convention: a reader of
      image tables finds `table` and the cell size in it. */
  lemma FontImageFileNameRoundTrip(name: string, size: real, weight: Option<string>, width: int, height: int)
    requires width >= 0 && height >= 0
    ensures TableCellSizeOf(FontImageFileName(name, size, weight, width, height)) == Some((width, height))
  {
    TableNameRoundTrip(name + SizeWeightSegment(size, weight), width, height);
  }

  /** Whatever precedes it, `-table-W-H.png` reads back as an image table of W by H. */
  lemma TableNameRoundTrip(head: string, width: int, height: int)
    requires width >= 0 && height >= 0
    ensures TableCellSizeOf(head + "-table" + CellSegment(width, height) + ".png") == Some((width, height))
  {
    var stem := head + "-table" + CellSegment(width, height);
    Concat(stem, ".png");
    TableBeforeCell(head, width, height);
    TableNameReadsCellSize(stem + ".png", stem);
    CellSizeRoundTrip(head + "-table", width, height, ".png");
  }

  /** A `.png` name whose stem has `table` third from the end is read as an image
      table, with the cell size its `-W-H` gives. */
  lemma TableNameReadsCellSize(fileName: string, stem: string)
    requires StripExtension(fileName, ".png") == Some(stem)
    requires var parts := Split(stem, IsDash); |parts| >= 3 && parts[|parts| - 3] == "table"
    ensures TableCellSizeOf(fileName) == CellSizeOf(fileName, ".png")
  {
  }

  /** In `head-table-W-H`, `table` is the third piece from the end. */
  lemma TableBeforeCell(head: string, width: int, height: int)
    requires width >= 0 && height >= 0
    ensures var parts := Split(head + "-table" + CellSegment(width, height), IsDash);
      |parts| >= 3 && parts[|parts| - 3] == "table"
  {
    CellSegmentPieces(head + "-table", width, height);
    TablePiece(head);
    var pieces := Split(head, IsDash) + ["table"];
    var parts := pieces + [IntToString(width), IntToString(height)];
    assert parts[|parts| - 3] == pieces[|pieces| - 1];
  }

  lemma TablePiece(head: string)
    ensures Split(head + "-table", IsDash) == Split(head, IsDash) + ["table"]
  {
    SplitNoSep("table", IsDash);
    assert head + "-table" == head + ['-'] + "table";
    SplitConcat(head, '-', "table", IsDash);
  }

  /** The `.fnt` name and the sample name share one stem: the sample name is
      `sample-`, the `.fnt` name without its extension, and `.png`. Without a
      weight neither the size nor a weight appears. */
  lemma NamesShareStem(name: string, size: real, weight: Option<string>, width: int, height: int)
    ensures var fnt := FontFileName(name, size, weight, width, height);
      |fnt| >= 4 && FontSampleFileName(name, size, weight, width, height) == "sample-" + fnt[..|fnt| - 4] + ".png"
    ensures weight.None? ==>
      FontFileName(name, size, weight, width, height) == name + "-" + IntToString(width) + "-" + IntToString(height) + ".fnt"
  {
    var segment := SizeWeightSegment(size, weight);
    var cell := CellSegment(width, height);
    var stem := name + segment + cell;
    Concat(stem, ".fnt");
    ConcatAssoc("sample-", name, segment);
    ConcatAssoc("sample-", name + segment, cell);
    if weight.None? {
      var w, h := IntToString(width), IntToString(height);
      assert name + segment == name;
      ConcatAssoc(name, "-" + w + "-", h);
      ConcatAssoc(name, "-" + w, "-");
      ConcatAssoc(name, "-", w);
    }
  }

  /** Whichever branch is taken, the weight written starts with the first
      character of its capitalised form. */
  lemma WeightNameStartsCapitalised(weight: string)
    ensures First(WeightName(weight)) == First(Capitalized(weight))
    ensures |WeightName(weight)| == |weight|
  {
  }

  /** The branch is not a no-op: a weight that already starts in upper case is
      kept as given, even where `capitalized` would lower the rest of it. */
  lemma WeightNameKeepsUpperCase()
    ensures WeightName("BOLD") == "BOLD" && Capitalized("BOLD") == "Bold"
    ensures WeightName("bold") == "Bold"
  {
    var upper, lower := "BOLD", "bold";
    var capUpper := Capitalized(upper);
    var capLower := Capitalized(lower);
    assert capUpper[0] == 'B' && capUpper[1] == 'o' && capUpper[2] == 'l' && capUpper[3] == 'd';
    assert capUpper == "Bold";
    assert capLower[0] == 'B' && capLower[1] == 'o' && capLower[2] == 'l' && capLower[3] == 'd';
    assert capLower == "Bold";
  }
}
