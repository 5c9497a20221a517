/** Worked runs of the pipeline on small sheets: a country file and a NUTS1
    file read together, and a sheet without id columns. */
module Scenarios {
  import opened Tables
  import opened Text
  import opened Classifier
  import opened Period
  import opened HeaderScan
  import opened Reshape
  import opened Driver

  const CodesHeader := "GEO (Codes)"
  const LabelsHeader := "GEO (Labels)"
  const Week1 := "2020-W01"
  const Week2 := "2020-W02"

  /** The country-level sheet: France, a count for week 1 and none for week 2. */
  const FranceSheet: Grid := [
    [Present(CodesHeader), Present(LabelsHeader), Present(Week1), Present(Week2)],
    [Present("FR"), Present("France"), Present("10"), Missing]
  ]

  /** The NUTS1 sheet: one region with a count for week 1. */
  const RegionSheet: Grid := [
    [Present(CodesHeader), Present(LabelsHeader), Present(Week1)],
    [Present("FR1"), Present("Region"), Present("5")]
  ]

  const FranceRecord :=
    Record(Country, Present("FR"), Present("France"), Present("2020"), Present("01"), Present("10"))

  const RegionRecord :=
    Record(Nuts1, Present("FR1"), Present("Region"), Present("2020"), Present("01"), Present("5"))

  /** A first row whose first cell starts with "GEO" is the header row. */
  lemma GeoHeaderFirst(grid: Grid)
    requires |grid| > 0 && |grid[0]| > 0 && grid[0][0].Present?
    requires |grid[0][0].text| >= 3 && grid[0][0].text[..3] == "GEO"
    ensures HeaderRow(grid) == Ok(0)
  {
    assert MatchAt(Render(grid[0][0]), "GEO", 0);
    assert HasGeo(grid[0]);
  }

  /** "GEO (Codes)" passes the code test and fails the label test. */
  lemma CodesHeaderTests()
    ensures IsCodeName(CodesHeader) && !IsLabelName(CodesHeader)
  {
    assert CodesHeader[5..9] == "Code";
    assert MatchAt(CodesHeader, "Code", 5);
    MissingCharNotContained(CodesHeader, "Label", 'L');
    MissingCharNotContained(CodesHeader, "label", 'l');
  }

  /** "GEO (Labels)" passes the label test. */
  lemma LabelsHeaderTests()
    ensures IsLabelName(LabelsHeader)
  {
    assert LabelsHeader[5..10] == "Label";
    assert MatchAt(LabelsHeader, "Label", 5);
  }

  /** Column 0 is the code column and column 1 the label column. */
  lemma IdColumnsFirst(names: seq<string>)
    requires |names| >= 2 && names[0] == CodesHeader && names[1] == LabelsHeader
    ensures FirstColumn(names, IsCodeName, 0) == Some(0)
    ensures FirstColumn(names, IsLabelName, 0) == Some(1)
  {
    CodesHeaderTests();
    LabelsHeaderTests();
  }

  lemma FranceNames()
    ensures var names := ColumnNames(FranceSheet[0]);
      |names| == 4 && names[0] == CodesHeader && names[1] == LabelsHeader
      && names[2] == Week1 && names[3] == Week2
  {
    StripKeeps(CodesHeader);
    StripKeeps(LabelsHeader);
    StripKeeps(Week1);
    StripKeeps(Week2);
  }

  lemma RegionNames()
    ensures var names := ColumnNames(RegionSheet[0]);
      |names| == 3 && names[0] == CodesHeader && names[1] == LabelsHeader && names[2] == Week1
  {
    StripKeeps(CodesHeader);
    StripKeeps(LabelsHeader);
    StripKeeps(Week1);
  }

  lemma Week1Period()
    ensures ExtractPeriod(Week1) == Some(("2020", "01"))
  {
    assert Week1[0..4] == "2020" && Week1[6..8] == "01";
    assert PeriodAt(Week1, 0);
  }

  /** A week-1 row becomes a record dated 2020, week 01. */
  lemma Week1Record(tag: NutsType, nuts: Cell, country: Cell, count: Cell)
    ensures Project(tag, [Melted(nuts, country, Week1, count)])
      == [Record(tag, nuts, country, Present("2020"), Present("01"), count)]
  {
    Week1Period();
  }

  /** Week 2 of France melts to a row with a missing count, which is dropped. */
  lemma FranceLongRows(names: seq<string>)
    requires |names| == 4 && names[2] == Week1 && names[3] == Week2
    ensures LongRows(FranceSheet[1..], names, 0, 1)
      == [Melted(Present("FR"), Present("France"), Week1, Present("10"))]
  {
    var rows := FranceSheet[1..];
    assert ValueColumns(4, 0, 1, 0) == [2, 3];
    var first := Melted(Present("FR"), Present("France"), Week1, Present("10"));
    var second := Melted(Present("FR"), Present("France"), Week2, Missing);
    assert MeltColumn(rows, names, 0, 1, 2) == [first];
    assert MeltColumn(rows, names, 0, 1, 3) == [second];
    assert Melt(rows, names, 0, 1, [3]) == [second];
    assert Melt(rows, names, 0, 1, [2, 3]) == [first, second];
    assert DropMissing([second]) == [];
  }

  lemma RegionLongRows(names: seq<string>)
    requires |names| == 3 && names[2] == Week1
    ensures LongRows(RegionSheet[1..], names, 0, 1)
      == [Melted(Present("FR1"), Present("Region"), Week1, Present("5"))]
  {
    var rows := RegionSheet[1..];
    assert ValueColumns(3, 0, 1, 0) == [2];
    var first := Melted(Present("FR1"), Present("Region"), Week1, Present("5"));
    assert MeltColumn(rows, names, 0, 1, 2) == [first];
    assert Melt(rows, names, 0, 1, [2]) == [first];
  }

  /** The France sheet reshapes to one record under any tag. */
  lemma FranceReshaped(tag: NutsType)
    ensures ReshapeSheet(tag, FranceSheet, 0) ==
      Ok([Record(tag, Present("FR"), Present("France"), Present("2020"), Present("01"), Present("10"))])
  {
    FranceNames();
    var names := ColumnNames(FranceSheet[0]);
    IdColumnsFirst(names);
    FranceLongRows(names);
    Week1Record(tag, Present("FR"), Present("France"), Present("10"));
    assert ReshapeSheet(tag, FranceSheet, 0) == ReshapeFrame(tag, names, FranceSheet[1..]);
  }

  /** The region sheet reshapes to one record under any tag. */
  lemma RegionReshaped(tag: NutsType)
    ensures ReshapeSheet(tag, RegionSheet, 0) ==
      Ok([Record(tag, Present("FR1"), Present("Region"), Present("2020"), Present("01"), Present("5"))])
  {
    RegionNames();
    var names := ColumnNames(RegionSheet[0]);
    IdColumnsFirst(names);
    RegionLongRows(names);
    Week1Record(tag, Present("FR1"), Present("Region"), Present("5"));
    assert ReshapeSheet(tag, RegionSheet, 0) == ReshapeFrame(tag, names, RegionSheet[1..]);
  }

  /** The country file yields one record, tagged country. */
  lemma FranceFile()
    ensures Process(OrderedFiles[0], Sheet(FranceSheet)) == Ok([FranceRecord])
  {
    CountriesFileTag();
    assert CodesHeader[..3] == "GEO";
    GeoHeaderFirst(FranceSheet);
    FranceReshaped(Country);
  }

  /** The NUTS1 file yields its one record, tagged nuts1. */
  lemma RegionFile()
    ensures Process(OrderedFiles[1], Sheet(RegionSheet)) == Ok([RegionRecord])
  {
    Nuts1FileTag();
    assert CodesHeader[..3] == "GEO";
    GeoHeaderFirst(RegionSheet);
    RegionReshaped(Nuts1);
  }

  const TwoFiles := map[OrderedFiles[0] := Sheet(FranceSheet), OrderedFiles[1] := Sheet(RegionSheet)]

  /** Of the expected files only the first two are in the folder. */
  lemma TwoFilesExisting()
    ensures Existing(OrderedFiles, TwoFiles) == OrderedFiles[..2]
  {
    assert forall i :: 2 <= i < |OrderedFiles| ==> OrderedFiles[i] !in TwoFiles by {
      forall i | 2 <= i < |OrderedFiles|
        ensures OrderedFiles[i] != OrderedFiles[0] && OrderedFiles[i] != OrderedFiles[1]
      {
        assert OrderedFiles[i][4] != OrderedFiles[0][4] || |OrderedFiles[i]| != |OrderedFiles[0]|;
        assert OrderedFiles[i][4] != OrderedFiles[1][4] || |OrderedFiles[i]| != |OrderedFiles[1]|;
      }
    }
    assert Existing(OrderedFiles[2..], TwoFiles) == [] by {
      ExistingEmpty(OrderedFiles[2..], TwoFiles);
    }
  }

  /** The two files the folder holds, and what each holds. */
  lemma TwoFilesContents()
    ensures OrderedFiles[0] != OrderedFiles[1]
    ensures TwoFiles[OrderedFiles[0]] == Sheet(FranceSheet)
    ensures TwoFiles[OrderedFiles[1]] == Sheet(RegionSheet)
  {
    assert OrderedFiles[0][0] != OrderedFiles[1][0];
  }

  lemma FranceFrame()
    ensures FileFrame(OrderedFiles[0], TwoFiles) == LongFrame([FranceRecord])
  {
    TwoFilesContents();
    FranceFile();
  }

  lemma RegionFrame()
    ensures FileFrame(OrderedFiles[1], TwoFiles) == LongFrame([RegionRecord])
  {
    TwoFilesContents();
    RegionFile();
  }

  /** Two names give two frames, in order. */
  lemma FramesOfTwo(a: string, b: string, folder: map<string, Content>)
    ensures Frames([a, b], folder) == [FileFrame(a, folder), FileFrame(b, folder)]
  {
    assert [a, b][1..] == [b];
    assert Frames([b], folder) == [FileFrame(b, folder)];
  }

  /** The frames the loop collects: one per file present. */
  lemma TwoFilesFrames()
    ensures Collected(OrderedFiles, TwoFiles) == [LongFrame([FranceRecord]), LongFrame([RegionRecord])]
  {
    TwoFilesExisting();
    var a, b := OrderedFiles[0], OrderedFiles[1];
    assert OrderedFiles[..2] == [a, b];
    FramesOfTwo(a, b, TwoFiles);
    FranceFrame();
    RegionFrame();
  }

  /** With only the country and NUTS1 files present, the run writes the
      output columns and exactly the two records, country first. */
  lemma TwoFileRun()
    ensures Combine(Collected(OrderedFiles, TwoFiles)) == Combined(OutputColumns, [FranceRecord, RegionRecord])
  {
    TwoFilesFrames();
    var frames := [LongFrame([FranceRecord]), LongFrame([RegionRecord])];
    assert ConcatRows(frames[1..]) == [RegionRecord];
    assert ConcatRows(frames) == [FranceRecord, RegionRecord];
    assert frames[0].LongFrame?;
  }

  /** A header whose second cell is the code header with a trailing blank:
      after stripping, two columns carry the code column's name. */
  const PaddedCodeSheet: Grid := [
    [Present(CodesHeader), Present(CodesHeader + " "), Present(LabelsHeader), Present(Week1)],
    [Present("FR"), Present("FR"), Present("France"), Present("10")]
  ]

  lemma PaddedCodeNames()
    ensures var names := ColumnNames(PaddedCodeSheet[0]);
      |names| == 4 && names[0] == CodesHeader && names[1] == CodesHeader && names[2] == LabelsHeader
  {
    StripKeeps(CodesHeader);
    StripTrailingBlank(CodesHeader);
    StripKeeps(LabelsHeader);
  }

  /** Both columns named "GEO (Codes)" are renamed to "nuts", so the file is
      skipped instead of melting the copy as a period column. */
  lemma PaddedCodeColumn(filename: string)
    ensures Process(filename, Sheet(PaddedCodeSheet)) == Err(DuplicateIdColumn)
  {
    assert PaddedCodeSheet[0][0].text[..3] == "GEO";
    GeoHeaderFirst(PaddedCodeSheet);
    PaddedCodeNames();
    var names := ColumnNames(PaddedCodeSheet[0]);
    CodesHeaderTests();
    LabelsHeaderTests();
    assert FirstColumn(names, IsCodeName, 0) == Some(0);
    assert FirstColumn(names, IsLabelName, 0) == Some(2);
    assert names[1] == names[0];
    assert !NameOnce(names, 0);
    var tag := DetectNutsType(filename);
    assert ReshapeSheet(tag, PaddedCodeSheet, 0) == ReshapeFrame(tag, names, PaddedCodeSheet[1..]);
  }

  const NoCodeSheet: Grid := [[Present("GEO"), Present(Week1)], [Present("FR"), Present("10")]]

  lemma NoCodeNames()
    ensures var names := ColumnNames(NoCodeSheet[0]);
      |names| == 2 && !IsCodeName(names[0]) && !IsCodeName(names[1])
  {
    StripKeeps("GEO");
    StripKeeps(Week1);
    MissingCharNotContained(Week1, "Code", 'C');
    MissingCharNotContained(Week1, "code", 'c');
  }

  /** A sheet whose header has no code column fails, leaving an empty frame. */
  lemma NoCodeColumn(filename: string)
    ensures Process(filename, Sheet(NoCodeSheet)) == Err(MissingIdColumn)
  {
    assert NoCodeSheet[0][0].text[..3] == "GEO";
    GeoHeaderFirst(NoCodeSheet);
    NoCodeNames();
    var names := ColumnNames(NoCodeSheet[0]);
    assert FirstColumn(names, IsCodeName, 0) == None;
    var tag := DetectNutsType(filename);
    assert ReshapeSheet(tag, NoCodeSheet, 0) == ReshapeFrame(tag, names, NoCodeSheet[1..]);
  }
}
