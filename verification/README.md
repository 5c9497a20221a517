# Eurostat weekly mortality: combining the NUTS-level workbooks

This project models `combine_eurostat_mortality.py`. The script reads up to
eight Eurostat workbooks of weekly death counts, one per geographic level
(countries, NUTS1, NUTS2 and five NUTS3 periods). For each file it:

1. tags every row with the file's level, read off the file name;
2. finds the header row (the first of rows 0..4 holding "GEO");
3. picks the code column and the label column;
4. unpivots every other column into (period, count) pairs;
5. drops missing counts;
6. splits the period label `YYYY-Wnn` into year and week.

It then concatenates the per-file frames in a fixed file order.

The model is organised as follows:

- `Tables`: cells, grids and the failure reasons.
- `Text`: Python's `in`, `lower()` and `strip()` on strings.
- `Classifier`: `detect_nuts_type`.
- `HeaderScan`: the header-row loop, written as a method with loop invariants
  and proved equal to a recursive specification.
- `Period`: `str.extract(r"(\d{4})-W(\d{2})")`.
- `Reshape`: the column pick, rename, melt, dropna, extract and projection.
- `Driver`: `process_file` as a method, and the top-level loop as a method.
  The loop is proved equal to a map of the per-file frame over the fixed list
  of expected file names, keeping only the names present in the folder.
  Files in the folder that are not on the list are never looked at.
- `Scenarios`: worked runs on small sheets.

A spreadsheet is a `Grid` of cells. A cell is `Missing` (NaN) or `Present`
with its `str()` text, and a missing cell renders as `"nan"`. The file system
is a map from file name to content (`Unreadable` or a `Sheet`).

Points where the code's behaviour is easy to misread, all modelled as the
code behaves:

- The column tests are case-sensitive. Only "Code"/"code" and "Label"/"label"
  are accepted, so "CODE" is not (`Reshape.CodeTestCaseSensitive`).
- The header scan falls back to row 0 only when the sheet has at least five
  rows. A sheet with fewer rows and no "GEO" row makes `iloc` raise, and the
  file is skipped (`HeaderScan.HeaderRowIsFirstMarked`).
- `detect_nuts_type` tests "nuts0" after "nuts1" and before "countries", and
  tags such a file nuts0.
- The "no valid dataframes" branch tests whether the list of frames is empty.
  Failed files still append an empty frame, so the branch is taken exactly when
  none of the expected files exists (`Driver.NoOutputIffNoFile`).
- If one column name passes both the code test and the label test and comes
  first for both, the rename keeps only "country". `melt` then cannot find
  "nuts" and the file is skipped (`IdColumnsCoincide`).
- The rename works by name, after stripping. Two header cells that differ only
  in surrounding whitespace, such as "GEO (Codes)" and "GEO (Codes) ", both
  become "nuts". `melt` then meets two id columns of one name and raises, so
  the file is skipped (`DuplicateIdColumn`, `Scenarios.PaddedCodeColumn`).

## Model

| member | source | states |
|---|---|---|
| Tables.Render | combine_eurostat_mortality.py:46 | definition: a cell's `astype(str)` text, with a missing cell (NaN) written `"nan"` |
| Tables.At | combine_eurostat_mortality.py:53 | definition: column `j` of a row, reading as missing past the row's end, as pandas pads short rows with NaN |
| Text.Contains | combine_eurostat_mortality.py:23-31 | definition: Python's `t in s`, some position of `s` where `t` starts |
| Text.Lower | combine_eurostat_mortality.py:22 | lower-casing keeps the length of the name |
| Text.LowerIdempotent | combine_eurostat_mortality.py:22 | lower-casing an already lower-cased name changes nothing |
| Text.LowerKeepsContains | combine_eurostat_mortality.py:22-31 | a substring of the name stays a substring after both are lower-cased |
| Text.IsSpace | combine_eurostat_mortality.py:56 | definition: the characters `str.isspace()` accepts, which `strip()` removes |
| Text.TextStart | combine_eurostat_mortality.py:56 | the first non-whitespace position at or after `i`, with only whitespace skipped |
| Text.TextEnd | combine_eurostat_mortality.py:56 | the end of the text before `j`, with only whitespace skipped and a non-whitespace character just before it |
| Text.Strip | combine_eurostat_mortality.py:56 | the stripped name is no longer than the original and has no whitespace at either end |
| Text.StripIsSlice | combine_eurostat_mortality.py:56 | the stripped name is a slice `s[i..j]` of the original with only whitespace outside it |
| Text.StripKeeps | combine_eurostat_mortality.py:56 | a name with no whitespace at either end is unchanged by stripping |
| Text.StripTrailingBlank | combine_eurostat_mortality.py:56 | a name and its copy with one trailing blank strip to the same name |
| Classifier.TagNameDistinct | combine_eurostat_mortality.py:23-34 | the six values written in the `nuts_type` column are distinct, and each NUTS level is written as the keyword that selects it |
| Classifier.DetectNutsType | combine_eurostat_mortality.py:21-34 | a tag other than unknown is given only when its keyword occurs in the lower-cased name |
| Classifier.DetectIsFirstKeyword | combine_eurostat_mortality.py:21-34 | the tag is the first in the order nuts3, nuts2, nuts1, nuts0, countries whose keyword occurs in the lower-cased name; every earlier keyword is absent; unknown means none occurs |
| Classifier.DetectIgnoresCase | combine_eurostat_mortality.py:21-22 | classifying the lower-cased name gives the same tag as the name itself |
| Classifier.KeywordBoundsTag | combine_eurostat_mortality.py:22-34 | a keyword present in any letter case forces the tag to that level or an earlier one |
| Classifier.Nuts3BeatsNuts1 | combine_eurostat_mortality.py:23-28 | a name holding both "NUTS3" and "nuts1" is tagged nuts3 |
| HeaderScan.HasGeo | combine_eurostat_mortality.py:46 | definition: some cell of the row, rendered as a string, contains "GEO" (case-sensitive) |
| HeaderScan.ScanFrom | combine_eurostat_mortality.py:45-50 | a chosen header row is below 5 and inside the sheet |
| HeaderScan.HeaderRow | combine_eurostat_mortality.py:44-50 | a chosen header row is one of rows 0..4 and exists in the sheet |
| HeaderScan.HeaderRowIsFirstMarked | combine_eurostat_mortality.py:44-50 | a marked header row is the least row holding "GEO"; an unmarked choice is row 0, with at least five rows and none of rows 0..4 marked; the scan fails exactly when the sheet has fewer than five rows and none is marked |
| HeaderScan.MarkerInRowThree | combine_eurostat_mortality.py:45-48 | with rows 0..2 unmarked and row 3 marked, row 3 is the header |
| HeaderScan.LocateHeader | combine_eurostat_mortality.py:44-50 | the loop with its `break` and default returns exactly the specified header row or error |
| Period.PeriodAt | combine_eurostat_mortality.py:73 | definition: the pattern `\d{4}-W\d{2}` matches the label at one position |
| Period.FirstPeriodFrom | combine_eurostat_mortality.py:73 | the leftmost position at or after `p` where `\d{4}-W\d{2}` matches, or none if there is no match |
| Period.ExtractPeriod | combine_eurostat_mortality.py:73 | no result exactly when the label holds no match; otherwise a 4-digit year and a 2-digit week, both taken from the leftmost match |
| Period.ExtractKeepsSuffix | combine_eurostat_mortality.py:73 | appending text to a label that holds a period keeps its year and week |
| Period.ExtractExamples | combine_eurostat_mortality.py:73 | "2021-W05" gives ("2021", "05"); "Total" gives nothing |
| Period.ExtractTakesFirstMatch | combine_eurostat_mortality.py:73 | a label with two periods yields the first |
| Reshape.ColumnNames | combine_eurostat_mortality.py:56 | one stripped name per header cell |
| Reshape.IsCodeName | combine_eurostat_mortality.py:59 | definition: the name contains "Code" or "code" |
| Reshape.IsLabelName | combine_eurostat_mortality.py:60 | definition: the name contains "Label" or "label" |
| Reshape.CodeTestCaseSensitive | combine_eurostat_mortality.py:59 | "GEO CODE" is not a code column; "geo code" and "GEO (Codes)" are |
| Reshape.FirstColumn | combine_eurostat_mortality.py:59-60 | the first column passing the test, with every earlier column failing it; none exactly when no column passes |
| Reshape.ValueColumns | combine_eurostat_mortality.py:66-67 | the melted columns are in range, exclude both id columns, keep frame order, and include every other column |
| Reshape.ValueColumnsCount | combine_eurostat_mortality.py:66-67 | with two distinct id columns, all but two columns are melted |
| Reshape.Melt | combine_eurostat_mortality.py:67 | definition: the blocks of the value columns, one after the other, each pairing every data row's id cells with that column's name and cell; its properties are `MeltLength`, `MeltLayout` and `MeltMembers` |
| Reshape.Cross | combine_eurostat_mortality.py:67 | definition: one melted row, pairing a data row's code and label cells with a column's name and that row's cell in it |
| Reshape.MeltLength | combine_eurostat_mortality.py:67 | the melted frame has value columns × data rows rows |
| Reshape.MeltLayout | combine_eurostat_mortality.py:67 | column-major order: position `c*rows + r` pairs data row `r` with the `c`-th value column |
| Reshape.MeltMembers | combine_eurostat_mortality.py:67 | the melted rows are exactly the crossings of a data row with a value column |
| Reshape.DropMissing | combine_eurostat_mortality.py:70 | a row survives exactly when its count is present; nothing is added |
| Reshape.DropMissingAppend | combine_eurostat_mortality.py:70 | dropping distributes over concatenation, so surviving rows keep their order |
| Reshape.PresentInBound | combine_eurostat_mortality.py:70 | the present cells of a column number at most the data rows |
| Reshape.PresentPairsBound | combine_eurostat_mortality.py:70 | the present cells of the value columns number at most columns × rows |
| Reshape.DropMissingColumn | combine_eurostat_mortality.py:67-70 | one melted column keeps one row per present cell |
| Reshape.DropMissingMeltCount | combine_eurostat_mortality.py:67-70 | the melted frame after dropping has one row per present (row, value column) pair |
| Reshape.LongRows | combine_eurostat_mortality.py:66-70 | definition: the melt over the non-id columns with missing counts dropped; its properties are `LongRowsCount` and `LongRowsMembers` |
| Reshape.LongRowsCount | combine_eurostat_mortality.py:66-70 | the long frame has one row per present pair, at most (columns − 2) × data rows |
| Reshape.LongRowsMembers | combine_eurostat_mortality.py:66-70 | the long rows are exactly the present crossings of a data row with a non-id column |
| Reshape.ToRecord | combine_eurostat_mortality.py:73-79 | a record keeps the tag, the id cells and the count of its melted row; year and week are both present exactly when the label holds a period, and then they are the 4-digit and 2-digit groups of the leftmost match |
| Reshape.Project | combine_eurostat_mortality.py:76-79 | definition: one record per long row, in order, with the file's tag; its properties are `ProjectSource` and `ToRecord`'s contract |
| Reshape.ProjectSource | combine_eurostat_mortality.py:76-79 | every projected record comes from one melted row |
| Reshape.NameOnce | combine_eurostat_mortality.py:66-67 | definition: no other column carries the name of column `j`, so the rename by name makes it the only column of its new name |
| Reshape.ReshapeFrame | combine_eurostat_mortality.py:59-79 | definition: the id-column pick with its three failures, then the projection of the long rows; its properties are `ReshapeFailures` and the `ReshapeRecord` lemmas |
| Reshape.ReshapeSheet | combine_eurostat_mortality.py:53-79 | definition: `ReshapeFrame` with header row `h` giving the stripped column names and the rows below it the data |
| Reshape.ReshapeFailures | combine_eurostat_mortality.py:59-67 | missing id column exactly when no name passes the code test or none passes the label test; coinciding columns only when one name passes both; a duplicated id column only when two columns share a name passing a test; success exactly when the two first columns differ and no other column carries either name |
| Reshape.ValueColumnsByName | combine_eurostat_mortality.py:66-67 | once the frame reshapes, a column is melted exactly when its name differs from both id columns' names |
| Reshape.ReshapeRecordShape | combine_eurostat_mortality.py:70-79 | every record carries the file's tag and a present count; year and week are both present (4 and 2 digits) or both missing, and they are what the period extraction gives for some column's name |
| Reshape.ReshapeRecordSound | combine_eurostat_mortality.py:66-79 | every record comes from one data row and one non-id column with a present count |
| Reshape.ReshapeRecordComplete | combine_eurostat_mortality.py:66-79 | every data row and non-id column with a present count yields a record |
| Reshape.ReshapeRecordCount | combine_eurostat_mortality.py:66-79 | the record count equals the number of present pairs and is at most (columns − 2) × data rows |
| Driver.Process | combine_eurostat_mortality.py:37-79 | definition: a read failure, the header scan's error, or the reshaping of the sheet under the file's tag |
| Driver.FrameOf | combine_eurostat_mortality.py:82-86 | definition: a result becomes its long frame, and any failure the empty frame |
| Driver.ProcessFile | combine_eurostat_mortality.py:37-86 | the frame is the long frame of the specified result, and it is empty exactly when reading, the header scan or reshaping fails |
| Driver.Existing | combine_eurostat_mortality.py:90-92 | only names that are both listed and present in the folder are kept |
| Driver.FileFrame | combine_eurostat_mortality.py:92-94 | definition: the frame `process_file` returns for a file of the folder, the empty frame standing in for a missing file, which is never processed |
| Driver.Frames | combine_eurostat_mortality.py:92-94 | definition: the per-file frames of a list of names, in list order; its properties are `FramesIndex`, `FramesAppend` and `FramesSomeLong` |
| Driver.FramesIndex | combine_eurostat_mortality.py:90-94 | there is one frame per processed file, the `k`-th coming from the `k`-th file |
| Driver.FramesAppend | combine_eurostat_mortality.py:90-94 | the frames of two lists of files, joined, are the frames of the joined list |
| Driver.FramesSomeLong | combine_eurostat_mortality.py:90-100 | some frame is a long frame exactly when some processed file yields one |
| Driver.CollectedStep | combine_eurostat_mortality.py:90-96 | checking one more file appends its frame exactly when the file exists and leaves the list unchanged otherwise |
| Driver.Collected | combine_eurostat_mortality.py:89-96 | definition: the frames of the listed names present in the folder, in list order; its properties are `CollectedStep`, `CollectedRecordsInOrder` and `NoOutputIffNoFile` |
| Driver.CollectFrames | combine_eurostat_mortality.py:89-96 | the loop returns exactly one frame per existing listed file, in list order |
| Driver.ExistingAppend | combine_eurostat_mortality.py:90-94 | checking one more file appends it exactly when it exists |
| Driver.ExistingEmpty | combine_eurostat_mortality.py:90-94 | no file is processed exactly when none of the listed files exists |
| Driver.ExistingMembers | combine_eurostat_mortality.py:90-94 | a file is processed exactly when it is listed and exists |
| Driver.ConcatRows | combine_eurostat_mortality.py:100 | definition: the rows of each frame, one frame after the other; an empty frame has none |
| Driver.Combine | combine_eurostat_mortality.py:99-106 | definition: no frame means no output; otherwise the concatenated rows, with the six columns when some frame has them; its properties are `NoOutputIffNoFile` and `ColumnsIffSomeSuccess` |
| Driver.ConcatRowsAppend | combine_eurostat_mortality.py:100 | concatenation distributes over joining lists of frames |
| Driver.Run | combine_eurostat_mortality.py:89-106 | the script collects one frame per existing expected file, in the fixed order, and the outcome is the final branch applied to that list |
| Driver.CollectedRecordsInOrder | combine_eurostat_mortality.py:89-100 | the combined rows are each file's records, file after file; missing and failed files contribute nothing |
| Driver.NoOutputIffNoFile | combine_eurostat_mortality.py:99-106 | nothing is written exactly when none of the listed files exists |
| Driver.ColumnsIffSomeSuccess | combine_eurostat_mortality.py:99-100 | the written frame has the six output columns exactly when some existing file was processed successfully |
| Driver.OrderedFilesTags | combine_eurostat_mortality.py:9-34 | the expected files are tagged country, nuts1, nuts2, then nuts3 five times |
| Driver.CountriesNameKeywords | combine_eurostat_mortality.py:10 | the lower-cased countries file name contains "countries" and none of the NUTS keywords |
| Driver.CountriesNameDigits | combine_eurostat_mortality.py:10 | the lower-cased countries file name contains none of "nuts2", "nuts1", "nuts0" |
| Driver.CountriesFileTag | combine_eurostat_mortality.py:10 | the countries file is tagged country |
| Driver.Nuts1NameKeywords | combine_eurostat_mortality.py:11 | the lower-cased NUTS1 file name contains "nuts1" and neither "nuts3" nor "nuts2" |
| Driver.Nuts1FileTag | combine_eurostat_mortality.py:11 | the NUTS1 file is tagged nuts1 |
| Driver.Nuts2FileTag | combine_eurostat_mortality.py:12 | the NUTS2 file is tagged nuts2 |
| Driver.Nuts3FilesTag | combine_eurostat_mortality.py:13-17 | the five NUTS3 files are tagged nuts3 |
| Driver.Nuts3PrefixTag | combine_eurostat_mortality.py:13-17 | any name starting with "NUTS3" is tagged nuts3 |
| Scenarios.CodesHeaderTests | combine_eurostat_mortality.py:59-60 | "GEO (Codes)" passes the code test and fails the label test |
| Scenarios.LabelsHeaderTests | combine_eurostat_mortality.py:60 | "GEO (Labels)" passes the label test |
| Scenarios.IdColumnsFirst | combine_eurostat_mortality.py:59-60 | with these two headers first, column 0 is the code column and column 1 the label column |
| Scenarios.FranceFile | combine_eurostat_mortality.py:37-86 | a country sheet with one present and one missing weekly count yields a single country record for 2020 week 01 |
| Scenarios.RegionFile | combine_eurostat_mortality.py:37-86 | a one-region NUTS1 sheet yields its single nuts1 record |
| Scenarios.TwoFilesFrames | combine_eurostat_mortality.py:89-94 | with only those two files present, the loop collects their two long frames in list order |
| Scenarios.TwoFileRun | combine_eurostat_mortality.py:89-100 | the combined output has the six columns and the country record followed by the region record |
| Scenarios.PaddedCodeNames | combine_eurostat_mortality.py:56 | "GEO (Codes)" and "GEO (Codes) " strip to the same column name |
| Scenarios.PaddedCodeColumn | combine_eurostat_mortality.py:56-67 | a sheet whose code header appears twice after stripping fails with a duplicated id column, whatever the file name |
| Scenarios.NoCodeNames | combine_eurostat_mortality.py:56-59 | the header "GEO", "2020-W01" has two names and neither passes the code test |
| Scenarios.NoCodeColumn | combine_eurostat_mortality.py:59-63 | a sheet with no code column fails with a missing id column, whatever the file name |

## Left out

- Reading workbooks (`pd.read_excel`), `os.path.join`, `os.path.basename` and `os.path.exists` are not modelled. The folder is a map from file name to content, and a workbook that cannot be read at all is `Unreadable`.
- Writing the CSV (`to_csv`) and all progress messages (`print`) are left out. The outcome carries the columns and records that would be written.
- Exceptions other than those modelled become `Unreadable` or a `Failure`. This covers failures inside pandas when re-reading with a header row.
- Cell values are kept as their `str()` text. Dtype inference is not modelled, nor how pandas renders numbers and dates as strings.
- Missing header cells are named `"nan"`. pandas actually names them `Unnamed: n`; this is not modelled.
- Reshape.ColumnNames: does not apply pandas' renaming of header cells whose `str()` texts are exactly equal (`X`, `X.1`, `X.2`, …, done before stripping). The model keeps both names unchanged. For a repeated period header this gives the same records, because a suffix does not change the first `YYYY-Wnn` match (`Period.ExtractKeepsSuffix`). A header that repeats an id column's cell exactly fails with `DuplicateIdColumn` in the model, while pandas would melt the renamed copy as a period column.
- Data cells beyond the width of the header row are ignored.
- Existing columns that already carry the names "nuts" or "country" are not modelled.
- Text.Lower: folds only the ASCII letters A–Z. Python's `lower()` is Unicode-aware.
- Period.ExtractPeriod: `\d` matches only the ASCII digits 0–9. Python's `\d` also accepts other Unicode decimal digits.
- Driver.Run: the `DataFrame` row index is not modelled (it is renumbered by `ignore_index=True`).
