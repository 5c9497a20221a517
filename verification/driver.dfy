/** `process_file` as a whole and the top-level loop: every expected file that
    exists is processed, in the fixed order, and the per-file frames are
    concatenated. */
module Driver {
  import opened Tables
  import opened Text
  import opened Classifier
  import opened HeaderScan
  import opened Reshape

  /** The suffix shared by the files that run to the latest available week. */
  const LatestTail := "-to_latest_available_dataset.xlsx"

  /** The expected file names, in processing order. */
  const OrderedFiles: seq<string> := [
    "countries_2000_W1" + LatestTail,
    "NUTS1_2000_W1" + LatestTail,
    "NUTS2_2000_W1" + LatestTail,
    "NUTS3_2000_W1-2004_W53.xlsx",
    "NUTS3_2005_W1-2009_W53.xlsx",
    "NUTS3_2010_W1-2014_W52.xlsx",
    "NUTS3_2015_W1-2019_W52.xlsx",
    "NUTS3_2020_W1" + LatestTail
  ]

  /** What reading an existing file yields: its grid, or a read error. */
  datatype Content = Unreadable | Sheet(grid: Grid)

  /** An entry of `all_dfs`: the long frame of a processed file, or the empty
      `DataFrame()` (no columns, no rows) returned for a failed one. */
  datatype Frame = EmptyFrame | LongFrame(records: seq<Record>)

  /** The end of the run: nothing written, or the concatenated frame. */
  datatype Outcome = NoValidFrames | Combined(columns: seq<string>, records: seq<Record>)

  /** Everything `process_file` does to one existing file, as a value. */
  function Process(filename: string, content: Content): Result<seq<Record>>
  {
    match content
    case Unreadable => Err(ReadFailure)
    case Sheet(grid) =>
      match HeaderRow(grid)
      case Err(f) => Err(f)
      case Ok(h) => ReshapeSheet(DetectNutsType(filename), grid, h)
  }

  /** The `except` clause: any failure becomes an empty frame. */
  function FrameOf(r: Result<seq<Record>>): Frame
  {
    match r
    case Ok(records) => LongFrame(records)
    case Err(_) => EmptyFrame
  }

  function Rows(f: Frame): seq<Record>
  {
    match f
    case EmptyFrame => []
    case LongFrame(records) => records
  }

  /** `process_file`: detect the tag, scan for the header row, reshape; an
      error anywhere yields the empty frame. */
  method ProcessFile(filename: string, content: Content) returns (df: Frame)
    ensures df == FrameOf(Process(filename, content))
    ensures df == EmptyFrame <==> Process(filename, content).Err?
  {
    var nutsType := DetectNutsType(filename);
    if content.Unreadable? {
      return EmptyFrame;
    }
    var grid := content.grid;
    var headerRow := LocateHeader(grid);
    if headerRow.Err? {
      return EmptyFrame;
    }
    var long := ReshapeSheet(nutsType, grid, headerRow.value);
    if long.Err? {
      return EmptyFrame;
    }
    return LongFrame(long.value);
  }

  /** The names of `names` present in the folder, in order. */
  function Existing(names: seq<string>, folder: map<string, Content>): (r: seq<string>)
    ensures forall n :: n in r ==> n in names && n in folder
  {
    if names == [] then []
    else (if names[0] in folder then [names[0]] else []) + Existing(names[1..], folder)
  }

  lemma {:induction false} ExistingAppend(names: seq<string>, x: string, folder: map<string, Content>)
    ensures Existing(names + [x], folder) ==
      Existing(names, folder) + (if x in folder then [x] else [])
  {
    if names == [] {
      assert names + [x] == [x];
    } else {
      assert (names + [x])[0] == names[0] && (names + [x])[1..] == names[1..] + [x];
      ExistingAppend(names[1..], x, folder);
    }
  }

  lemma {:induction false} ExistingEmpty(names: seq<string>, folder: map<string, Content>)
    ensures Existing(names, folder) == [] <==> forall n :: n in names ==> n !in folder
  {
    if names != [] {
      ExistingEmpty(names[1..], folder);
      assert forall n :: n in names ==> n == names[0] || n in names[1..];
    }
  }

  /** The frame `process_file` returns for a file; only files that exist are
      ever processed, and a missing one is given the empty frame. */
  function FileFrame(filename: string, folder: map<string, Content>): Frame
  {
    if filename in folder then FrameOf(Process(filename, folder[filename])) else EmptyFrame
  }

  /** The frames of the named files, in order. */
  function Frames(names: seq<string>, folder: map<string, Content>): seq<Frame>
  {
    if names == [] then [] else [FileFrame(names[0], folder)] + Frames(names[1..], folder)
  }

  /** One frame per name, the `k`-th from the `k`-th name. */
  lemma {:induction false} FramesIndex(names: seq<string>, folder: map<string, Content>, k: nat)
    requires k < |names|
    ensures |Frames(names, folder)| == |names|
    ensures Frames(names, folder)[k] == FileFrame(names[k], folder)
  {
    var rest := Frames(names[1..], folder);
    assert Frames(names, folder) == [FileFrame(names[0], folder)] + rest;
    if k > 0 {
      FramesIndex(names[1..], folder, k - 1);
      assert Frames(names, folder)[k] == rest[k - 1];
    } else if |names| > 1 {
      FramesIndex(names[1..], folder, 0);
    }
  }

  /** `all_dfs` after the loop over `names`. */
  function Collected(names: seq<string>, folder: map<string, Content>): seq<Frame>
  {
    Frames(Existing(names, folder), folder)
  }

  /** `pd.concat(all_dfs, ignore_index=True)` on the rows. */
  function ConcatRows(frames: seq<Frame>): seq<Record>
  {
    if frames == [] then [] else Rows(frames[0]) + ConcatRows(frames[1..])
  }

  lemma {:induction false} ConcatRowsAppend(a: seq<Frame>, b: seq<Frame>)
    ensures ConcatRows(a + b) == ConcatRows(a) + ConcatRows(b)
  {
    if a == [] {
      assert a + b == b;
    } else {
      assert (a + b)[0] == a[0] && (a + b)[1..] == a[1..] + b;
      ConcatRowsAppend(a[1..], b);
    }
  }

  /** The final branch: no frame at all means failure; otherwise the
      concatenation, which has the output columns only if some frame has them. */
  function Combine(frames: seq<Frame>): Outcome
  {
    if frames == [] then NoValidFrames
    else
      var columns := if exists k :: 0 <= k < |frames| && frames[k].LongFrame? then OutputColumns else [];
      Combined(columns, ConcatRows(frames))
  }

  /** One more file checked: its frame is appended exactly when it exists. */
  lemma CollectedStep(names: seq<string>, i: nat, folder: map<string, Content>)
    requires i < |names|
    ensures names[i] in folder ==>
      Collected(names[..i + 1], folder) ==
      Collected(names[..i], folder) + [FrameOf(Process(names[i], folder[names[i]]))]
    ensures names[i] !in folder ==> Collected(names[..i + 1], folder) == Collected(names[..i], folder)
  {
    var x := names[i];
    assert names[..i + 1] == names[..i] + [x];
    ExistingAppend(names[..i], x, folder);
    if x in folder {
      var before := Existing(names[..i], folder);
      FramesAppend(before, [x], folder);
      assert Frames([x], folder) == [FileFrame(x, folder)];
    } else {
      var before := Existing(names[..i], folder);
      assert before + [] == before;
    }
  }

  /** The top-level loop: every listed file that exists is processed, in
      order, and its frame appended to `all_dfs`. */
  method CollectFrames(names: seq<string>, folder: map<string, Content>) returns (allDfs: seq<Frame>)
    ensures allDfs == Collected(names, folder)
  {
    allDfs := [];
    for i := 0 to |names|
      invariant allDfs == Collected(names[..i], folder)
    {
      var filename := names[i];
      CollectedStep(names, i, folder);
      if filename in folder {
        var df := ProcessFile(filename, folder[filename]);
        allDfs := allDfs + [df];
      }
    }
    assert names[..|names|] == names;
  }

  /** The script: the loop over the expected files followed by the final branch. */
  method Run(folder: map<string, Content>) returns (allDfs: seq<Frame>, outcome: Outcome)
    ensures allDfs == Collected(OrderedFiles, folder)
    ensures outcome == Combine(allDfs)
  {
    allDfs := CollectFrames(OrderedFiles, folder);
    outcome := Combine(allDfs);
  }

  /** The records of one file when it exists and succeeds, none otherwise. */
  function FileRecords(filename: string, folder: map<string, Content>): seq<Record>
  {
    Rows(FileFrame(filename, folder))
  }

  /** Reference order: the records of each listed file, file after file. */
  function RecordsInOrder(names: seq<string>, folder: map<string, Content>): seq<Record>
  {
    if names == [] then [] else FileRecords(names[0], folder) + RecordsInOrder(names[1..], folder)
  }

  /** The concatenated frame holds every file's records, in file order; a
      missing file and a failed file both contribute nothing. */
  lemma {:induction false} CollectedRecordsInOrder(names: seq<string>, folder: map<string, Content>)
    ensures ConcatRows(Collected(names, folder)) == RecordsInOrder(names, folder)
  {
    if names != [] {
      var rest := Existing(names[1..], folder);
      var head := if names[0] in folder then [names[0]] else [];
      assert Existing(names, folder) == head + rest;
      FramesAppend(head, rest, folder);
      ConcatRowsAppend(Frames(head, folder), Frames(rest, folder));
      assert ConcatRows(Frames(head, folder)) == FileRecords(names[0], folder);
      CollectedRecordsInOrder(names[1..], folder);
    }
  }

  lemma {:induction false} FramesAppend(a: seq<string>, b: seq<string>, folder: map<string, Content>)
    ensures Frames(a + b, folder) == Frames(a, folder) + Frames(b, folder)
  {
    if a == [] {
      assert a + b == b;
    } else {
      assert (a + b)[0] == a[0] && (a + b)[1..] == a[1..] + b;
      FramesAppend(a[1..], b, folder);
    }
  }

  /** `all_dfs` has one entry per existing file, failed ones included, so the
      "no valid dataframes" branch is taken exactly when no expected file exists. */
  lemma NoOutputIffNoFile(names: seq<string>, folder: map<string, Content>)
    ensures Combine(Collected(names, folder)) == NoValidFrames <==>
      forall n :: n in names ==> n !in folder
  {
    ExistingEmpty(names, folder);
  }

  /** The written frame has the six output columns exactly when some existing
      file was processed successfully. */
  lemma ColumnsIffSomeSuccess(names: seq<string>, folder: map<string, Content>)
    requires Combine(Collected(names, folder)).Combined?
    ensures Combine(Collected(names, folder)).columns == OutputColumns <==>
      exists n :: n in names && n in folder && Process(n, folder[n]).Ok?
  {
    var ex := Existing(names, folder);
    FramesSomeLong(ex, folder);
    forall n
      ensures n in ex <==> n in names && n in folder
    {
      ExistingMembers(names, folder, n);
    }
  }

  /** Some frame is a long frame exactly when some name's frame is. */
  lemma {:induction false} FramesSomeLong(ns: seq<string>, folder: map<string, Content>)
    ensures (exists k :: 0 <= k < |Frames(ns, folder)| && Frames(ns, folder)[k].LongFrame?) <==>
      exists n :: n in ns && FileFrame(n, folder).LongFrame?
  {
    if ns != [] {
      var fs := Frames(ns, folder);
      var rest := Frames(ns[1..], folder);
      FramesSomeLong(ns[1..], folder);
      assert fs == [FileFrame(ns[0], folder)] + rest;
      if k :| 0 <= k < |fs| && fs[k].LongFrame? {
        if k > 0 {
          assert rest[k - 1].LongFrame?;
          var n :| n in ns[1..] && FileFrame(n, folder).LongFrame?;
          assert n in ns;
        } else {
          assert ns[0] in ns;
        }
      }
      if n :| n in ns && FileFrame(n, folder).LongFrame? {
        if n == ns[0] {
          assert fs[0].LongFrame?;
        } else {
          assert n in ns[1..];
          var k :| 0 <= k < |rest| && rest[k].LongFrame?;
          assert fs[k + 1] == rest[k];
        }
      }
    }
  }

  lemma {:induction false} ExistingMembers(names: seq<string>, folder: map<string, Content>, n: string)
    ensures n in Existing(names, folder) <==> n in names && n in folder
  {
    if names != [] {
      ExistingMembers(names[1..], folder, n);
      assert n in names <==> n == names[0] || n in names[1..];
    }
  }

  /** The tags the expected files receive: country, nuts1, nuts2, then nuts3
      for the five NUTS3 files. */
  lemma OrderedFilesTags()
    ensures DetectNutsType(OrderedFiles[0]) == Country
    ensures DetectNutsType(OrderedFiles[1]) == Nuts1
    ensures DetectNutsType(OrderedFiles[2]) == Nuts2
    ensures forall i :: 3 <= i < |OrderedFiles| ==> DetectNutsType(OrderedFiles[i]) == Nuts3
  {
    CountriesFileTag();
    Nuts1FileTag();
    Nuts2FileTag();
    Nuts3FilesTag();
  }

  lemma Nuts3FilesTag()
    ensures forall i :: 3 <= i < |OrderedFiles| ==> DetectNutsType(OrderedFiles[i]) == Nuts3
  {
    forall i | 3 <= i < |OrderedFiles|
      ensures DetectNutsType(OrderedFiles[i]) == Nuts3
    {
      assert OrderedFiles[i][..5] == "NUTS3";
      Nuts3PrefixTag(OrderedFiles[i]);
    }
  }

  /** The shared suffix holds no digit and no capital letter. */
  lemma TailPlain()
    ensures forall k :: 0 <= k < |LatestTail| ==> !('0' <= LatestTail[k] <= '9') && !('A' <= LatestTail[k] <= 'Z')
  {
  }

  lemma LowerLatest(head: string)
    ensures Lower(head + LatestTail) == Lower(head) + LatestTail
  {
    LowerAppend(head, LatestTail);
    TailPlain();
    assert forall k :: 0 <= k < |LatestTail| ==> Lower(LatestTail)[k] == LatestTail[k];
  }

  /** A digit does not occur in the shared suffix. */
  lemma TailLacksDigit(d: char)
    requires '0' <= d <= '9'
    ensures d !in LatestTail
  {
    TailPlain();
  }

  /** The lower-cased name of the countries file lacks every NUTS keyword:
      it has no '3', and each of its '2', '1' and '0' follows a character
      other than 's'. */
  lemma CountriesNameKeywords()
    ensures var name := "countries_2000_w1" + LatestTail;
      && !Contains(name, "nuts3") && !Contains(name, "nuts2")
      && !Contains(name, "nuts1") && !Contains(name, "nuts0") && Contains(name, "countries")
  {
    var name := "countries_2000_w1" + LatestTail;
    assert name[..9] == "countries";
    assert MatchAt(name, "countries", 0);
    assert !Contains(name, "nuts3") by {
      TailLacksDigit('3');
      MissingCharNotContained(name, "nuts3", '3');
    }
    CountriesNameDigits('2');
    assert "nuts" + ['2'] == "nuts2";
    CountriesNameDigits('1');
    assert "nuts" + ['1'] == "nuts1";
    CountriesNameDigits('0');
    assert "nuts" + ['0'] == "nuts0";
  }

  lemma CountriesNameDigits(d: char)
    requires d == '2' || d == '1' || d == '0'
    ensures !Contains("countries_2000_w1" + LatestTail, "nuts" + [d])
  {
    var name := "countries_2000_w1" + LatestTail;
    assert name == "countries_" + "2000_w1" + LatestTail;
    TailLacksDigit(d);
    SplitPairNotContained(name, "countries_", "2000_w1", LatestTail, "nuts" + [d], 's', d);
  }

  lemma CountriesFileTag()
    ensures DetectNutsType(OrderedFiles[0]) == Country
  {
    LowerLatest("countries_2000_W1");
    assert Lower("countries_2000_W1") == "countries_2000_w1";
    CountriesNameKeywords();
  }

  lemma Nuts1NameKeywords()
    ensures var name := "nuts1_2000_w1" + LatestTail;
      !Contains(name, "nuts3") && !Contains(name, "nuts2") && Contains(name, "nuts1")
  {
    var name := "nuts1_2000_w1" + LatestTail;
    assert name == "nuts1_" + "2000_w1" + LatestTail;
    TailLacksDigit('3');
    TailLacksDigit('2');
    MissingCharNotContained(name, "nuts3", '3');
    SplitPairNotContained(name, "nuts1_", "2000_w1", LatestTail, "nuts2", 's', '2');
    assert name[..5] == "nuts1";
    assert MatchAt(name, "nuts1", 0);
  }

  lemma Nuts1FileTag()
    ensures DetectNutsType(OrderedFiles[1]) == Nuts1
  {
    LowerLatest("NUTS1_2000_W1");
    assert Lower("NUTS1_2000_W1") == "nuts1_2000_w1";
    Nuts1NameKeywords();
  }

  lemma Nuts2FileTag()
    ensures DetectNutsType(OrderedFiles[2]) == Nuts2
  {
    var name := "nuts2_2000_w1" + LatestTail;
    assert Lower(OrderedFiles[2]) == name by {
      LowerLatest("NUTS2_2000_W1");
      assert Lower("NUTS2_2000_W1") == "nuts2_2000_w1";
    }
    assert !Contains(name, "nuts3") by {
      TailLacksDigit('3');
      MissingCharNotContained(name, "nuts3", '3');
    }
    assert Contains(name, "nuts2") by {
      assert name[..5] == "nuts2";
      assert MatchAt(name, "nuts2", 0);
    }
  }

  lemma Nuts3PrefixTag(filename: string)
    requires |filename| >= 5 && filename[..5] == "NUTS3"
    ensures DetectNutsType(filename) == Nuts3
  {
    assert Lower(filename)[..5] == "nuts3" by {
      assert forall k :: 0 <= k < 5 ==> Lower(filename)[k] == LowerChar(filename[..5][k]);
    }
    assert MatchAt(Lower(filename), "nuts3", 0);
  }
}
