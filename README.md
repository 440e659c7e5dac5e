# OptiCORD2 core in Dafny

OptiCORD2 tracks how statistical series change between two snapshots, called
*positions*. Each position holds *visualisations*: tables read from the
fixed CORD visualisation CSV export. Each visualisation has one metadata
block and then one data block per periodicity (annual, quarterly, monthly).
The program compares same-named visualisations of two positions cell by
cell. It keeps the numeric difference and a parallel table of reasons that
explain every cell without a number. It then exports the result to an Excel
workbook. The compare page runs this work item by item, with cancellation
and a per-item state machine.

This project models that core and proves properties of it. There is one
Dafny module per source file, plus three shared modules:

- `Wrappers` (wrappers.dfy): `Option`, `Result`, `Outcome`, and the program's exceptions (`InvalidVisualisation`, `InvalidComparison`, anything else).
- `Text` (text.dfy): the string operations the source uses: `find`, `split`/`join`, `rstrip`, `replace` of one character, dropping empty tokens, decimal text.
- `Tables` (tables.dfy): periodicities, dates, row keys, and a table as a set of row keys, a sequence of date columns and a map from cells to optional numbers.
- `Validation` (validation.dfy): `validation.py`: file-path, column, date-header, metadata and uniqueness checks.
- `Visualisations` (visualisations.dfy): `visualisations.py`: the `VisualisationParser` reader (markers, header tokens, periodicities, name, metadata and coverage, column dates, data blocks with forward-filled dimensions), `VisualisationFile`, `VisualisationList` and `VisualisationWorker`.
- `CompareItems` (compare_items.dfy): `ComparisonItem` of `ui/compare.py`: states, check state and messages.
- `Comparisons` (comparison.dfy): `comparison.py`: the dimension and periodicity checks, `post − pre` over the union of rows and columns, the reason table's last-write-wins assignments, the differences flags, and what is stored.
- `Exports` (export.dfy): `export.py`: skip decisions, the date filter, column rendering, recombining the tables, the "Missing Data" label, dropping zero series, the sheet-writing loop, and the metadata key order.
- `CompareUi` (compare_ui.dfy): `ui/compare.py`: the comparison list with its select-all row, the buttons, locking, and the comparison and export workers.
- `Load` (load.dfy): `load.py`: the first reader of visualisation files and its registry.
- `Util` (util.dfy): `util.py`: `NameValidator`, `FileManager`'s changed flag, and saving the working file.

Several things are modelled as plain values:

- A file's lines are a sequence of optional strings. `None` stands for a blank line.
- A missing value (pandas' NaN) is `None`.
- Everything read from the HDF5 store is a parameter of the operation that reads it. This covers metadata, frames, the names of stored comparisons and their stored flags.

Methods change state where the source changes state. Item states, check boxes, the list's rows, button states, the workbook being written and the registry are all fields of classes. Each such method states its new state in terms of specification functions, and lemmas prove the source's promises about those functions.

Where the code and its documentation disagree, or the code does not do what it evidently means to, the model follows the code:

- **Reason table precedence.** The reason table is built by assignments in code order, and the last write wins. So "Date not in …" overwrites "Series not in …". The documented precedence puts row-level absence first.
- **Reason texts.** The reason texts are the ones the code writes: "Series not in X", "Date not in X", "Missing in X" and ".". The docstring's wording ("Series missing in", "Date missing in") is not what the code writes.
- **`Comparison.compare`.** The compare loop runs over `_get_periodicities` as written, which is always post's whole list. A periodicity that pre lacks is therefore read from pre, and the comparison fails with a KeyError (see Findings).
- **The "Missing Data" label.** Cells are matched by prefix, as `str.match` does, so one position name that is a prefix of the other can change the label (see Findings).
- **The metadata sheet.** The export loop adds it with every periodicity written. The second one fails with DuplicateWorksheetName, and the export fails (see Findings).
- **Saving the working file.** A copy that raises leaves the write lock held, as the code leaves it.

## Model

Each row names a member, the source lines it models, and what its contract states.

| member | source | states |
|---|---|---|
| Text.Find | visualisations.py:403-405 | the position found is at or after the start and holds the text searched for, and no earlier position from the start holds it; no position is found only when none from the start holds it, so `sub in s` (Find from 0 succeeds) holds exactly when `sub` occurs somewhere in `s` |
| Text.Split | visualisations.py:431 | splitting gives at least one piece, and no piece holds the separator |
| Text.JoinSplit | visualisations.py:488-489 | joining the pieces of a split with the separator gives back the original text |
| Text.SplitJoin | visualisations.py:431 | splitting a join of separator-free pieces gives back those pieces |
| Text.SplitNoSep | validation.py:24 | a text without the separator splits into itself alone |
| Text.SplitAround | validation.py:24 | splitting at one separator splits the two sides independently |
| Text.JoinSnoc | visualisations.py:488 | joining one more piece appends the separator and that piece |
| Text.CutAtLast | visualisations.py:488-489 | the text after the last separator holds none; with a separator the text before it, the separator and the text after rejoin to the original; without one the text before is empty and the text after is the whole |
| Text.RStrip | visualisations.py:431 | the result is a prefix of the text, does not end in the stripped character, and only that character was removed |
| Text.RemoveChar | visualisations.py:433 | the result holds no occurrence of the removed character, and a text without one is unchanged |
| Text.DropEmpty | visualisations.py:435 | the result is no longer than the input, holds no empty piece, and holds exactly the non-empty pieces of the input |
| Text.DropEmptyNoEmpty | visualisations.py:435 | filtering a list without empty pieces changes nothing |
| Text.DigitChar | validation.py:38-39 | a digit below ten is shown by a digit character of that value |
| Text.NatToString | validation.py:38-39 | the decimal text of a number is non-empty, all digits, and reads back as that number |
| Text.NatToStringLength | export.py:416-421 | a four-digit year is shown by four characters, the first not '0' |
| Text.ParseNatPositive | export.py:416-421 | a digit string without a leading zero has a positive value |
| Text.ParseNatToString | export.py:416-421 | a digit string without a leading zero is the decimal text of its own value |
| Tables.Insert | comparison.py:162 | inserting into an increasing list of dates keeps it increasing, and adds exactly the inserted date |
| Tables.SortedUnion | comparison.py:162 | the aligned column labels are increasing, hold no label twice, and are exactly the labels of both sides |
| Validation.LastIndex | validation.py:19 | the index found is -1 or holds the character, and no later index holds it |
| Validation.Extension | validation.py:19 | the extension is empty, or it starts with '.' and holds no '/' and no further '.'; a non-empty extension ends the path |
| Validation.ValidateFilepath | validation.py:17-29 | the path passes exactly when its extension is ".csv" and its file name carries the download stamp; every failure is an invalid-visualisation error, with the short text "File is not a csv" exactly when the extension is wrong |
| Validation.DownloadFile | validation.py:25-26 | a name followed by two six-digit stamps and ".csv" carries the stamp right after the name, holds no '/', and ends in ".csv" |
| Validation.PathInDirectory | validation.py:19-24 | a file name without '/' that ends in ".csv", placed in any directory, keeps its base name and has the extension ".csv" |
| Validation.DownloadPathValid | validation.py:17-29 | every downloaded-visualisation path, in any directory, passes the path check |
| Validation.ValidateDate | validation.py:43-56 | a periodicity is returned exactly when one of the three date patterns matches the end of the header, and it is that pattern's periodicity; otherwise the error is "Invalid date header" |
| Validation.CanonicalDates | validation.py:43-56 | the headers "YYYY", "YYYYQn" and "YYYYMon" are each recognised as annual, quarterly and monthly |
| Validation.DatePrefixIgnored | validation.py:47-52 | the date patterns are searched at the end only, so a prefix never changes which match |
| Validation.SevenDigitsRejected | validation.py:47-56 | a seven-digit header matches both the annual and the monthly pattern, so it is refused |
| Validation.MatchMeta | validation.py:70 | a match has one group (two for the status pattern), and its first or last group took part |
| Validation.FirstMatch | validation.py:69-72 | the index found is the first line that matches; no earlier line does, and with none found no line does |
| Validation.FirstMatchAt | validation.py:69-72 | a line that matches, with no match before it, is the one found |
| Validation.LastPresent | validation.py:81-84 | a value is found exactly when some group took part |
| Validation.LastPresentIsLast | validation.py:81-84 | the value found is a group that took part, and no later group took part |
| Validation.PickGroup | validation.py:81-84 | the loop over the groups leaves the last group that took part |
| Validation.ValidateMeta | validation.py:59-85 | with no lines the loop never binds its match (an unexpected error); with lines and no match the error is "Missing metadata"; otherwise the value is the last present group of the first matching line |
| Validation.ValidateUnique | validation.py:88-96 | the check fails exactly when the name is already in the position, with the short text "Visualisation already exists in position" |
| Validation.ColumnsWithData | validation.py:35-36 | the count of columns holding some value is at most the column count, and equals it exactly when no column is entirely missing |
| Validation.ValidateColumns | validation.py:32-40 | the check fails exactly when some column is entirely missing, with the short text "File format error" |
| Visualisations.RowsFrom | visualisations.py:403-405 | the indices are increasing, each holds a line containing the text, and every such line from the start on is among them |
| Visualisations.LastNonBlank | visualisations.py:411-414 | the scan back from the last line stops at a non-blank line at or after the last date marker, and every line after it is blank |
| Visualisations.RetrieveMarkers | visualisations.py:398-422 | markers are found exactly when some line holds ",Date" and, with several, there are enough criteria lines; they are then the metadata block up to the line above the first date, each block ending two lines above the next block's criteria line, and the last ending at the last non-blank line; a short criteria list is an unexpected error |
| Visualisations.MarkersFrom | visualisations.py:406-421 | the loop over the date rows builds those same blocks from given date and criteria rows |
| Visualisations.MarkersUnique | visualisations.py:398-422 | the date and criteria rows fix the markers: a file has one list of blocks |
| Visualisations.UnquoteEach | visualisations.py:433 | removing quotes keeps the number of pieces and removes every quote from each piece |
| Visualisations.UnquoteNoQuotes | visualisations.py:433 | pieces without quotes come through unchanged |
| Visualisations.RStripCommas | visualisations.py:431 | stripping trailing commas removes exactly the commas appended to a text that does not end in one |
| Visualisations.JoinLast | visualisations.py:431 | a join ends with the last character of its last piece |
| Visualisations.HeaderRoundTrip | visualisations.py:431-435 | tokenising a header written as comma-joined tokens (without commas, quotes or empty tokens) gives the tokens back, however many trailing commas were appended |
| Visualisations.TokensClean | visualisations.py:431-435 | every token of a header line is non-empty and holds no comma and no quote, so tokenising yields exactly the lists the round trip accepts |
| Visualisations.RetrieveDates | visualisations.py:424-437 | the dates are read exactly when every data block has a line after its marker line, and each block's dates are that line's tokens; a blank line is an unexpected error |
| Visualisations.IndexOf | visualisations.py:452 | the index found holds the element, and no earlier index does |
| Visualisations.RemoveFirst | visualisations.py:452 | removing succeeds exactly when the element is present, and the result is the list without its first occurrence |
| Visualisations.RetrieveDimensions | visualisations.py:439-453 | the dimensions are found exactly when there is a data block and every block's header line holds a "Date" token; they are the last block's tokens without the first "Date"; otherwise the error is unexpected |
| Visualisations.BlockDimensions | visualisations.py:445-452 | one block's dimensions are its header tokens without the first "Date", and a blank header or one without "Date" is an unexpected error |
| Visualisations.NextNonBlank | visualisations.py:382-383 | the index found is the first non-blank line at or after the start; with none found every later line is blank |
| Visualisations.DeterminePeriodicity | visualisations.py:375-387 | the periodicities are found exactly when every data block's first date matches exactly one date pattern, and each is that pattern's periodicity; a date error has the short text "Invalid date header" |
| Visualisations.HeadersUnique | visualisations.py:375-437 | the headers of given blocks have one reading of dates and of periodicities |
| Visualisations.FirstStamp | visualisations.py:391 | the index found is the first where the download stamp starts; no earlier index starts one |
| Visualisations.FirstExported | visualisations.py:391 | the index found is the first where the exported-file suffix starts; no earlier index starts one |
| Visualisations.DetermineName | visualisations.py:389-396 | no name is found exactly when neither alternative matches; a name found is a prefix of the file name; with a stamp the name is the text before the first stamp, and it is missing exactly when the stamp starts the file name |
| Visualisations.DetermineModifiedSpec | visualisations.py:359-373 | a file with a blank line among its first three is not modified, whatever follows, and the same file saved by a spreadsheet program, with its blank lines filled by commas, is |
| Visualisations.StampedNamed | visualisations.py:389-396 | a file name with a download stamp always matches the name pattern |
| Visualisations.DownloadNamed | visualisations.py:297-305 | a downloaded-visualisation path passes the path check and is named by the text before its stamp |
| Visualisations.MetaLines | visualisations.py:476-480 | a negative row count is refused; otherwise every metadata line is non-empty and does not end in a comma |
| Visualisations.StrippedLines | visualisations.py:479-480 | the stripped lines are no more than the lines, each non-empty and not ending in a comma |
| Visualisations.StrippedLinesKeep | visualisations.py:479-480 | lines that are non-empty and do not end in a comma are all kept as they are |
| Visualisations.IndexOfLine | visualisations.py:501 | the index found holds the line and no earlier index does; with none found the line is absent |
| Visualisations.FirstIndexOfLine | visualisations.py:501 | the first occurrence of a line is the one found |
| Visualisations.CoverageKeys | visualisations.py:492-499 | the coverage dictionary's keys are exactly the criteria of the section's lines |
| Visualisations.CoverageLastWins | visualisations.py:497-499 | a criterion holds the value of the last line that names it |
| Visualisations.CoverageStep | visualisations.py:497-499 | storing one more line updates the dictionary at that line's criterion |
| Visualisations.ReadCoverage | visualisations.py:492-503 | the coverage is read exactly when every line after the first "Coverage Descriptors" line unpacks into a criterion and a value; it is then the dictionary those lines build; otherwise the error is unexpected |
| Visualisations.FindHeader | visualisations.py:500-502 | the phase before storing stops at the first "Coverage Descriptors" line |
| Visualisations.ReadSection | visualisations.py:494-499 | the phase after storing succeeds exactly when every line unpacks, and builds the dictionary of the section |
| Visualisations.ReadMeta | visualisations.py:472-504 | a negative row count is an unexpected error; the read succeeds if and only if the lines above the first block have a reading: a statistical activity, a dataset and mode, and a status line, and a coverage section whose every line unpacks; a result is that reading, with the dataset and mode cut at the capture's last colon; with no statistical activity line the error is "Missing metadata" |
| Visualisations.MetaNeeds | visualisations.py:472-504 | a header block that has a reading has non-empty stripped lines with a statistical activity, a dataset and mode, and a status match, and a coverage section whose every line unpacks |
| Visualisations.DatasetModeRejoin | visualisations.py:486-489 | the mode holds no colon, and the dataset and mode rejoin to the capture whenever it holds a colon; without one the dataset is empty and the mode is the capture |
| Visualisations.MonthOf | visualisations.py:516 | a month is found exactly when the text names one of the twelve abbreviations in some letter case, and it is that month's number |
| Visualisations.MonthFrom | visualisations.py:516 | the search from a given month finds the first abbreviation at or after it that the text names |
| Visualisations.ParseDate | visualisations.py:506-516 | a converted date is the first of a month within the timestamp range; its year is the header's first four digits; an annual header is four digits (January), a quarterly one "YYYYQn" (the quarter's first month), a monthly one "YYYY" and a month abbreviation |
| Visualisations.ConvertColumnDates | visualisations.py:506-516 | the headers convert exactly when each does, and each date is its header's conversion; otherwise the error is unexpected |
| Visualisations.LevelOf | visualisations.py:546 | a dimension cell is missing exactly for a missing-value token, and otherwise is the token |
| Visualisations.ParseInt | visualisations.py:545 | a token is a number exactly when it is digits with an optional minus sign, and the number is their value |
| Visualisations.ValueOf | visualisations.py:545-546 | a value cell is missing exactly for a missing-value token, is the number of a numeric token, and is an unexpected error otherwise |
| Visualisations.Fit | visualisations.py:542-546 | a row is cut or padded with empty fields to the width of the names |
| Visualisations.Fields | visualisations.py:542-546 | every data line gives exactly as many fields as there are names |
| Visualisations.FillForward | visualisations.py:548 | forward filling keeps the column's length |
| Visualisations.FillForwardSpec | visualisations.py:548 | each filled cell is the last present cell at or above it, and present cells are unchanged |
| Visualisations.FillForwardPresent | visualisations.py:548 | every filled cell below a present cell is present |
| Visualisations.RawRows | visualisations.py:542-546 | the rows read are those of the slice that exist in the file, each with one field per name |
| Visualisations.DimensionColumn | visualisations.py:548 | a forward-filled dimension column has one cell per row |
| Visualisations.RowValues | visualisations.py:545-546 | a row's values are read exactly when each field after the dimensions is a value, and they are those values |
| Visualisations.AllRowValues | visualisations.py:545-546 | a block's values are read exactly when each row's are, and they are each row's values |
| Visualisations.KeysOf | visualisations.py:548-550 | each row's label holds the forward-filled cell of each dimension column |
| Visualisations.BlockOf | visualisations.py:529-554 | a block is read only when the names are distinct and the slice is well formed; it then has the slice's rows, their forward-filled labels, their values and the converted dates; every failure is unexpected |
| Visualisations.CreateData | visualisations.py:518-557 | the data are created if and only if every periodicity has a data block after it and a date header, and every such block reads; the data then hold one block per periodicity, read from the last data block of that periodicity; every failure is unexpected |
| Visualisations.ReadPrelim | visualisations.py:455-470 | a file without a ",Date" line fails; the read succeeds if and only if the file has preliminary information (blocks, a date line after each data block's header, a "Date" column in every header and one periodicity per block); the markers are then the blocks `_retrieve_markers` finds (the metadata above the first date header, then one block per date header), and the dates, dimensions and periodicities are read from those blocks |
| Visualisations.PrelimAt | visualisations.py:455-470 | once the markers are read, preliminary information exists only with those markers, and then every data block has a date line and a first date matching exactly one periodicity |
| Visualisations.PrelimUnique | visualisations.py:455-470 | a file has at most one reading of its preliminary information |
| Visualisations.ReadContent | visualisations.py:323-325 | without markers the read fails; the read succeeds if and only if the lines above the first block have a metadata reading and every data block reads; the metadata are then those above the first block and the data are those of the blocks |
| Visualisations.ParseLines | visualisations.py:311-325 | a file without a ",Date" line fails; parsing succeeds if and only if the file has preliminary information whose metadata and data blocks read; it then learns the markers of the file's date-header blocks, the dates, dimensions and periodicities of those blocks, the modified flag, the metadata above the first block and the data of the blocks |
| Visualisations.ParseSucceedsAt | visualisations.py:311-325 | once the preliminary information is read, parsing succeeds exactly when the metadata and data of those blocks read |
| Visualisations.FilepathCheck | visualisations.py:297-309 | a path that fails validation fails with that error; a result means the path is valid and the name is the one the file name gives; a name found is new to the position, and a valid, named path fails only as a duplicate |
| Visualisations.VisualisationParser.constructor | visualisations.py:292-295 | the parser starts with its path and nothing read |
| Visualisations.VisualisationParser.CheckFilepath | visualisations.py:297-309 | the result is the path check; once the path is valid the parser holds the name the file name gives and the download time, whether or not the name is new; a path that fails validation leaves both alone |
| Visualisations.VisualisationParser.PrelimRead | visualisations.py:455-470 | a file without a ",Date" line fails; the read succeeds if and only if the file has preliminary information, and the parser then holds the markers of the file's date-header blocks and the dates, dimensions and periodicities read from them |
| Visualisations.VisualisationParser.Fill | visualisations.py:311-325 | the parser's fields become the contents given |
| Visualisations.VisualisationParser.Parse | visualisations.py:311-325 | a file without a ",Date" line fails; parsing succeeds if and only if the file's preliminary information, metadata and data read, and the parser then holds what parse learns about the file, tied to its date-header blocks |
| Visualisations.VisualisationFile.constructor | visualisations.py:189-193 | a new item is queued, shows the file's base name and has no message |
| Visualisations.VisualisationFile.Fail | visualisations.py:602-611 | a failed item keeps its text; an invalid-visualisation error shows its full text as tooltip and its short text as message; any other shows the generic message |
| Visualisations.VisualisationList.constructor | visualisations.py:30-35 | a new list has no items and no names |
| Visualisations.VisualisationList.DetermineUnlockAsWritten | visualisations.py:75-84 | as written, the list unlocks exactly when no item from row 1 on is loading or queued |
| Visualisations.VisualisationList.DetermineUnlock | visualisations.py:75-84 | the list unlocks exactly when no item is loading or queued |
| Visualisations.UnlockMissesFirstRow | visualisations.py:75-84 | the scan as written differs from the full scan exactly when only row 0 is busy, as with two files where the second has loaded and the first still loads |
| Visualisations.VisualisationList.AddToExisting | visualisations.py:124-127 | the name is appended to the names |
| Visualisations.VisualisationList.RemoveExisting | visualisations.py:129-132 | removal fails exactly when the name is absent, leaving the names alone; otherwise the first occurrence is removed |
| Visualisations.VisualisationList.ReadFromFile | visualisations.py:104-121 | every stored name joins the names and the list as a loaded item showing that name, after the items already there |
| Visualisations.VisualisationList.AddFile | visualisations.py:86-102 | the worker's item joins the list; the worker is started exactly when the file passes the check with a name, which then joins the names; otherwise the item has failed; names stay distinct |
| Visualisations.VisualisationList.ChangePosition | visualisations.py:147-157 | the placeholder position changes nothing; any other replaces the position, the names and the items with those stored |
| Visualisations.VisualisationWorker.constructor | visualisations.py:574-590 | a new worker has a queued item and a parser for the file |
| Visualisations.VisualisationWorker.CheckFilepath | visualisations.py:592-612 | the check succeeds exactly when the file passes with a name; the item then shows the name, which joins the names, and keeps its state, message and tooltip; otherwise the item has failed with the error's texts, or the generic message for an unexpected error or a missing name; names stay distinct |
| Visualisations.VisualisationWorker.Run | visualisations.py:614-632 | the item ends a success if and only if parsing succeeds and saving succeeds, then holding what parse learns from the file's date-header blocks; a failure shows the error's texts or the generic message; a file without a ",Date" line shows the generic message |
| CompareItems.ComparisonItem.constructor | ui/compare.py:55-60 | a new item is idle, unchecked and enabled, with no message |
| CompareItems.ComparisonItem.SelectAllRow | ui/compare.py:26-37 | the select-all row is named "Select All" and starts checked |
| CompareItems.ComparisonItem.SetLonely | ui/compare.py:62-67 | a visualisation in one position only is lonely, disabled, with the message "Missing in" and the other position |
| CompareItems.ComparisonItem.UpdateDiffs | ui/compare.py:70-76 | the message is "Differences found" when there were differences and "No differences" otherwise |
| CompareItems.ComparisonItem.Fail | ui/compare.py:792-803 | a failed item shows an invalid comparison's texts when the handler distinguishes one, and the generic message otherwise |
| Comparisons.CheckPeriodicities | comparison.py:46-58 | the result is true exactly when both positions have the same set of periodicities |
| Comparisons.Common | comparison.py:41-42 | the filtered list is no longer than post's and holds exactly the periodicities of both |
| Comparisons.CommonKeepsAll | comparison.py:41-42 | filtering by a list that holds every element keeps the whole list |
| Comparisons.GetPeriodicities | comparison.py:37-44 | the intended list holds exactly the periodicities both positions have, in post's order |
| Comparisons.AsWrittenComparesPost | comparison.py:37-44 | as written, whichever way the periodicity check goes, the list compared is post's whole list |
| Comparisons.AsWrittenReadsMissingPeriod | comparison.py:37-44 | with pre annual only and post annual and quarterly, the quarterly block is compared though pre has none |
| Comparisons.GetPeriodicitiesSpec | comparison.py:37-44 | the intended list holds exactly the periodicities both positions have, and agrees with the code whenever the sets are equal |
| Comparisons.CheckDimensions | comparison.py:60-78 | the check fails exactly when some dimension is in one list only, with the short text "Different dimensions"; otherwise the result says whether the lists differ in order |
| Comparisons.ReorderKey | comparison.py:92-93 | level j of a reordered label is the level of the dimension named j-th in the new order |
| Comparisons.IndexOfDistinct | comparison.py:92-93 | in a list without repeats, an element's index is its position |
| Comparisons.ReorderKeyInverse | comparison.py:92-93 | reordering a label back undoes the reordering |
| Comparisons.ReorderRows | comparison.py:92-93 | the reordered rows are exactly the reordered labels of the rows |
| Comparisons.ReorderCell | comparison.py:92-93 | a reordered cell keeps its column |
| Comparisons.ReorderCellInverse | comparison.py:92-93 | reordering a cell back undoes the reordering |
| Comparisons.ReorderCells | comparison.py:92-93 | a reordered cell holds a value exactly when reordering it back names a source cell, and holds that cell's value |
| Comparisons.ReorderTable | comparison.py:92-93 | the reordered table keeps its columns, its labels follow the new order, and each value moves to its reordered label |
| Comparisons.ReorderRowsInverse | comparison.py:92-93 | reordering the rows back gives the rows it started from |
| Comparisons.ReorderCellsBack | comparison.py:92-93 | each cell reordered and reordered back holds what it held |
| Comparisons.ReorderCellsInverse | comparison.py:92-93 | reordering the cells back gives the cells they started from |
| Comparisons.ReorderTableInverse | comparison.py:92-93 | reordering a table into post's order and back gives the table it started from |
| Comparisons.AlignedColumns | comparison.py:162 | the aligned columns are exactly both sides' columns: one side's when both are equal, otherwise increasing |
| Comparisons.Difference | comparison.py:162 | the difference has both sides' rows and columns and a cell for each pair; a cell holds a value exactly when both sides do, and then it is post's minus pre's |
| Comparisons.DifferenceAntisymmetric | comparison.py:162 | swapping the sides negates every value and leaves the same cells missing |
| Comparisons.ReasonsAtMissingCells | comparison.py:147-219 | the reason table has a cell for each difference cell; "nan" where the difference holds a value, and "." exactly where both sides have the row and the column but neither stores a value |
| Comparisons.Overwrite | comparison.py:193-211 | a masked assignment writes the text at the masked cells and keeps every other cell |
| Comparisons.FillNaN | comparison.py:216 | filling writes the text exactly at the cells that were NaN |
| Comparisons.AssignStep | comparison.py:193-211 | each masked assignment moves the table from one stage of the six to the next |
| Comparisons.CalcDifference | comparison.py:147-219 | the difference table is post minus pre, and the reason table is the one the six assignments build |
| Comparisons.LastWriteIsReason | comparison.py:193-216 | at a missing cell the last write of the six assignments, after the fill, is the reason the code's order gives |
| Comparisons.ReasonsAgree | comparison.py:193-219 | the reason table the assignments build, kept at missing cells, is the specified one |
| Comparisons.CheckDifferences | comparison.py:221-231 | no difference is found exactly when both tables are equal |
| Comparisons.NewComparison | comparison.py:23-44 | a comparison is set up exactly when the dimension check passes, otherwise it fails with that check's error; it starts counting a periodicity mismatch as a difference, reorders when the dimension orders differ, and compares `_get_periodicities` as written, which is post's whole list |
| Comparisons.Comparison.constructor | comparison.py:23-44 | the comparison holds the two positions, the item and the metadata, the periodicity and dimension checks' results, and the periodicities `_get_periodicities` returns as written |
| Comparisons.Comparison.RunningIsOr | comparison.py:97-101 | the running flag is the OR of the starting flag and the changes so far |
| Comparisons.Comparison.StoreStep | comparison.py:83-105 | one iteration stores its record with the running flag |
| Comparisons.Comparison.Pair | comparison.py:86-93 | a frame missing from the store is a KeyError, and every failure to pair is an unexpected error |
| Comparisons.Comparison.Compare | comparison.py:80-107 | compare fails exactly at the first periodicity whose frames cannot be paired, with its error, having stored every earlier periodicity's record and counted its changes in the flag; on success every periodicity's record is stored, the flag is the OR of the starting flag and every change, and the summary and the item's message show it |
| Comparisons.HasLast | comparison.py:83 | every position of a list has a last position with the same periodicity |
| Comparisons.NoDifferenceNoneDifferent | comparison.py:97-105 | a comparison that found no difference stores every periodicity with its flag off |
| Comparisons.ReadPair | comparison.py:86-93 | the frames read are the pair the comparison specifies |
| Comparisons.ComparePeriods | comparison.py:83-105 | the loop stores one record per periodicity compared, stops at the first that cannot be paired with its error, and the flag is the OR of the starting flag and the changes |
| Comparisons.StoreLast | comparison.py:104-105 | after storing, every periodicity holds the record of its last position |
| Exports.DefaultOptions | export.py:110-146 | the options first shown have the metadata sheet, the missing-data column and skipping on, everything else off, and dates from 1 January 1997 to today |
| Exports.FilterDates | export.py:361-368 | the columns kept are exactly the original columns within the range, inclusive at both ends, and no more of them |
| Exports.FilterKeepsOrder | export.py:367 | filtering keeps an increasing header increasing |
| Exports.FilterDatesIdempotent | export.py:361-368 | filtering twice with the same range is filtering once |
| Exports.FilterFrame | export.py:361-368 | a filtered frame keeps its rows, and a cell survives exactly when its column is in the range, with its value unchanged |
| Exports.FilterFrameIdempotent | export.py:361-368 | filtering a frame twice is filtering it once |
| Exports.Header | export.py:409-422 | one rendered header per column, in column order |
| Exports.YearDigits | export.py:417 | a year pandas can hold renders as four digits that read back as that year |
| Exports.FoldedName | export.py:421 | each month abbreviation has three letters, which fold to the lower-case name |
| Exports.DistinctMonths | export.py:421 | no two month abbreviations are equal in any letter case |
| Exports.MonthNamed | export.py:421 | each month abbreviation reads back as its own month |
| Exports.RenderParses | export.py:409-422 | a rendered column header of an annual, quarterly or monthly period start reads back as that date |
| Exports.AnnualParses | export.py:416-417 | an annual header `%Y` reads back as its period start |
| Exports.QuarterParses | export.py:418-419 | a quarterly header `YYYYQn` reads back as its period start |
| Exports.MonthParses | export.py:420-421 | a monthly header `%Y%b` reads back as its period start |
| Exports.LeadingZero | export.py:417 | four digits starting with 0 stand for a year below 1000 |
| Exports.YearRenders | export.py:417 | the year of a header that reads as a date is rendered as the header's first four characters |
| Exports.ParseRenders | export.py:409-422 | a header in the program's form, read and rendered again, is the same text |
| Exports.QuarterRenders | export.py:418-419 | a quarterly header renders back to itself once read |
| Exports.MonthRenders | export.py:420-421 | a monthly header with a proper abbreviation renders back to itself once read |
| Exports.RenderInjective | export.py:409-422 | different period starts never share a header |
| Exports.ReadVis | export.py:279-286 | the frame read keeps its rows, columns and cells; a cell is a number exactly where the stored value exists, and "." where it is missing |
| Exports.ProcessVis | export.py:309-315 | the date filter is applied exactly when it is on, and otherwise the frame is unchanged |
| Exports.Recombine | export.py:330 | every cell keeps the stored difference where there is one, and takes the stored reason text where there is none |
| Exports.RecombinedComparison | export.py:330 | recombining a comparison's stored tables gives post minus pre where both sides have a value, and the reason text where either lacks one |
| Exports.FilteredSameIff | export.py:288-297 | after the date filter, `_has_differences` finds no difference exactly when pre and post have the same rows, the same dates in the range, and the same cells at those dates, in any column order |
| Exports.LastLabelWins | export.py:398-405 | the label left by the five assignments in code order is the label by precedence: BOTH, then a series post lacks, pre lacks, then a value post lacks, pre lacks, else 'None' |
| Exports.Tagged | export.py:407 | a tagged row label has one more level, which holds the row's missing-data label |
| Exports.TaggedInverse | export.py:407 | dropping the appended level gives back the row label |
| Exports.TaggedCell | export.py:407 | a tagged cell keeps its column |
| Exports.TaggedCellInverse | export.py:407 | untagging a tagged cell gives back the cell |
| Exports.TagRows | export.py:407 | the tagged rows are exactly the source rows with their labels appended |
| Exports.TagCells | export.py:407 | each cell moves to its tagged row and keeps its value, and no other cell is there |
| Exports.AppendLabels | export.py:407 | appending the labels keeps the columns |
| Exports.Labels | export.py:398-405 | every row gets a label, and it is the row's label by precedence |
| Exports.Relabel | export.py:401-405 | one assignment gives the selected rows the new label and leaves every other row's label alone |
| Exports.RelabelStep | export.py:401-405 | after the next assignment every row has the label the assignments so far give it |
| Exports.SameLabels | export.py:398-405 | label maps with the same rows and the same label at each row are equal |
| Exports.AddMissingDataCol | export.py:370-407 | the result is the frame with each row's precedence label appended as a last level |
| Exports.LabelNamesACell | export.py:383-394 | under exact matching, a row labelled with a position has a cell saying that the position misses the value or the series |
| Exports.PrefixLabelsBoth | export.py:383-388 | with positions "A" and "AB", a row whose only cell says "Missing in AB" is labelled 'BOTH' by prefix matching but "AB" by exact matching |
| Exports.DropRows | export.py:356-358 | dropping rows removes exactly those rows and their cells, and keeps the columns and the other cells' values |
| Exports.DropZeroSeries | export.py:338-359 | dropping fails with a KeyError exactly when a series to drop is missing from pre or post |
| Exports.DropZeroSeriesKeeps | export.py:338-359 | the difference rows kept are exactly those with a cell that is missing or neither zero nor ".", with their cells; pre and post lose exactly the series of the dropped rows |
| Exports.DropZeroSeriesIdempotent | export.py:338-359 | dropping the zero series a second time changes nothing |
| Exports.ProcessComparison | export.py:317-336 | only the zero-series option can make processing fail, with a KeyError; without it pre and post pass through unchanged; the difference keeps the processed columns; the label matches cell texts by prefix |
| Exports.FilterThenRecombine | export.py:322-330 | filtering both tables and then recombining them is the same as recombining and then filtering |
| Exports.SameEntries | export.py:322-330 | maps with the same keys and the same value at each key are equal |
| Exports.Prepare | export.py:183-200 | a periodicity whose comparison found no difference is skipped when skipping is on, and is skipped only when it is on; reads of missing store contents fail with a KeyError; the sheets it prepares carry the prefix-matched label |
| Exports.AddSheet | export.py:512-513 | after a failure nothing changes; otherwise a table sheet sets the written flag, and the add succeeds and appends the sheet exactly when the workbook has no sheet of that name in any case |
| Exports.AddSheetsCons | export.py:201-210 | adding a first sheet and then the rest is adding them all |
| Exports.AddSheetsAfterFailure | export.py:201-210 | after a failure no later add changes anything |
| Exports.DataSheets | export.py:201-208 | every table sheet of a periodicity has a name ending in the periodicity's parenthesis |
| Exports.NotMetaName | export.py:202-210 | a table sheet's name never clashes with the metadata sheet's |
| Exports.NamedSnoc | export.py:513 | a workbook with one more sheet has a name exactly when it had it already or the new sheet bears it |
| Exports.AddSheetsSnoc | export.py:201-210 | adding sheets ending in one more sheet is adding the others, then that sheet |
| Exports.AddSheetsAppends | export.py:201-210 | sheets added without a failure all appear in the workbook, in order, after the sheets it had |
| Exports.AddSheetsFailsOnDuplicate | export.py:513 | an add that fails does so with DuplicateWorksheetName |
| Exports.AddSheetsEndingInDuplicate | export.py:513 | adding sheets whose last one has a name the workbook already holds always fails with DuplicateWorksheetName |
| Exports.MetaAgainFails | export.py:209-210 | as written, once the metadata sheet exists, the next periodicity written with the metadata option on fails with DuplicateWorksheetName |
| Exports.FirstWriteAddsMeta | export.py:209-210 | the first periodicity written with the metadata option on leaves a metadata sheet in the workbook |
| Exports.MetaOnceNeverFails | export.py:201-210 | when the metadata sheet is added only while missing, a periodicity fails exactly when adding its table sheets fails |
| Exports.AddSheetsWritten | export.py:512 | when no add fails, the written flag stays true exactly when the workbook has a table sheet |
| Exports.PlanWritten | export.py:178-214 | after an export that does not raise, the written flag says whether the workbook has a table sheet |
| Exports.NothingDifferentWritesNothing | export.py:183-185 | with skipping on and no periodicity marked different, the loop writes nothing |
| Exports.SkipAgreesWithExport | export.py:163-170 | a comparison that found no difference is skipped when skipping is on, and exporting it anyway would write nothing |
| Exports.Export.constructor | export.py:152-161 | a new export has an empty workbook, nothing written and no file removed |
| Exports.Export.WriteSheet | export.py:451-528 | writing a table sheet sets the written flag and then adds the sheet unless its name is taken, in which case it fails |
| Exports.Export.WriteMeta | export.py:530-534 | writing the metadata sheet adds it unless the name is taken, and leaves the written flag alone |
| Exports.Export.WriteIf | export.py:201-208 | an optional table sheet is written when its option is on, and a failure ends the periodicity |
| Exports.Export.WritePeriod | export.py:201-210 | the workbook and the flag after one periodicity are those of adding its table sheets in order, then the metadata sheet whenever that option is on |
| Exports.Export.Run | export.py:172-214 | the workbook and the flag are those of the export loop over every stored periodicity, which adds the metadata sheet with each one written, and the file is removed exactly when the export did not raise and wrote no table sheet |
| Exports.KeysOf | export.py:563-568 | one key per item, in order |
| Exports.Put | export.py:564-568 | setting a key keeps every other item in place, adds the key at the end only when it is new, and leaves the key holding the new value |
| Exports.AddNext | export.py:567-568 | the items added so far plus the next one are the items up to and including it |
| Exports.Others | export.py:567-568 | exactly the items whose key is not among the listed ones are kept |
| Exports.Picked | export.py:563-565 | only items with listed keys are picked |
| Exports.KeyOf | export.py:564 | a key is in the dictionary exactly when some item has it |
| Exports.ValueOfItem | export.py:565 | in a dictionary, each item's value is the value at its key |
| Exports.OthersDistinct | export.py:567-568 | the items kept have no key twice |
| Exports.OthersConcat | export.py:567-568 | filtering a concatenation is concatenating the filtered parts |
| Exports.OthersTwice | export.py:563-568 | filtering by one set and then another is filtering by both |
| Exports.OthersNone | export.py:567-568 | filtering keys that do not occur changes nothing |
| Exports.PickedConcat | export.py:563-565 | picking along a concatenated order is picking along each part in turn |
| Exports.PickedItems | export.py:563-565 | exactly the dictionary's items with listed keys are picked |
| Exports.PickedDistinct | export.py:563-565 | picking along an order without repeats gives no key twice |
| Exports.OrderedMetaItems | export.py:556-568 | the ordered metadata has exactly the position's items, with no key twice |
| Exports.ListedFirst | export.py:559-568 | no unlisted key is written before a listed one |
| Exports.OthersKey | export.py:567-568 | after filtering, a key remains exactly when it was there and is not filtered, with its value unchanged |
| Exports.PickedKey | export.py:563-565 | an unlisted key is never picked |
| Exports.OrderStep | export.py:563-565 | each round of the first loop sees a listed key exactly when the position has it, with the same value, and has not picked it before |
| Exports.OrderStepRest | export.py:563-565 | after each round the picked items grow by the listed key's item when the position has it, and the rest lose it |
| Exports.OtherStep | export.py:567-568 | every remaining item's key is new to the ordered dictionary when it is added |
| Exports.OrderMeta | export.py:556-568 | the ordering loops produce the ordered metadata |
| Exports.OrderBy | export.py:563-568 | the loops give the listed keys' items in listed order, then the other items in their original order |
| CompareUi.Keep | ui/compare.py:561-563 | the names kept are exactly those of the first list that are (or are not) in the second; a list all of whose names qualify is kept whole, and one none of whose names qualify is dropped |
| CompareUi.KeepConcat | ui/compare.py:561-563 | the list comprehension filters element by element, in order: what it keeps of two lists joined is what it keeps of the first followed by what it keeps of the second |
| CompareUi.Partition | ui/compare.py:561-563 | a visualisation is common exactly when both positions hold it, and one-sided exactly when only that position holds it |
| CompareUi.PartitionSame | ui/compare.py:561-563 | when both positions hold the same visualisations, all of them are common, in post's order |
| CompareUi.TickedCount | ui/compare.py:138-141 | the checked count never exceeds the checkable count |
| CompareUi.CountsAgree | ui/compare.py:144 | the checked and checkable counts agree exactly when every checkable item is ticked |
| CompareUi.CountPositive | ui/compare.py:156 | the checked count is positive exactly when some checkable item is ticked |
| CompareUi.SelectAllToggled | ui/compare.py:142-151 | toggling the select-all row checks everything unless every checkable item is already ticked, and unchecks everything when it is |
| CompareUi.SelectAllFollows | ui/compare.py:152-166 | after an item is unchecked the select-all row is partial exactly while some item is ticked; after one is checked it is checked exactly when all are ticked, and partial otherwise; a partial item leaves it alone |
| CompareUi.Toggle | ui/compare.py:126-129 | a toggled check box is never partial and always changes |
| CompareUi.CheckedStatesHold | ui/compare.py:238-247 | a state is among the checked states exactly when some checked item is in that state |
| CompareUi.ButtonStates | ui/compare.py:571-594 | compare and export are never both enabled; export is enabled exactly when something is checked and every checked item is compared; compare exactly when some checked item is not compared and none failed |
| CompareUi.MakeItem | ui/compare.py:180-203 | the item for one visualisation is made as the list would make it, and making it fails exactly when its comparison exists but its differences flag cannot be read |
| CompareUi.RowsOf | ui/compare.py:244-246 | one row per item, with its state and check state |
| CompareUi.ComparisonList.constructor | ui/compare.py:100-116 | a new list is empty and has a fresh select-all row |
| CompareUi.ComparisonList.Rows | ui/compare.py:138-139 | the rows after the select-all row, with their states and check states |
| CompareUi.ComparisonList.Clear | ui/compare.py:233-235 | clearing leaves no rows |
| CompareUi.ComparisonList.ToggleItemCheck | ui/compare.py:119-129 | a row is toggled exactly when it is selectable and not LONELY; every other row keeps its check state |
| CompareUi.ComparisonList.CheckItems | ui/compare.py:145-150 | every checkable item takes the new check state; LONELY items and the select-all row keep theirs |
| CompareUi.ComparisonList.SelectAllCheck | ui/compare.py:132-167 | toggling the select-all row sets it and every checkable item as SelectAllToggled says; toggling an item sets only the select-all row, as SelectAllFollows says |
| CompareUi.ComparisonList.Create | ui/compare.py:169-203 | the list holds a fresh checked select-all row and then one item per visualisation, common first, each made as the list makes it; creation fails exactly when some existing comparison has no readable differences flag |
| CompareUi.ComparisonList.LockSelection | ui/compare.py:250-256 | the select-all row and every item become unselectable, and the locked items are remembered |
| CompareUi.ComparisonList.UnlockSelection | ui/compare.py:259-264 | the select-all row and every item that was locked become selectable again, and nothing stays remembered |
| CompareUi.CheckedItems | ui/compare.py:238-247 | exactly the checked items, not yet compared when asked for, are returned, and no others |
| CompareUi.CheckedUnrepeated | ui/compare.py:244-245 | no item appears twice among the checked items |
| CompareUi.ComparisonWorker.constructor | ui/compare.py:759-771 | a new worker queues its item and is not cancelled |
| CompareUi.ComparisonWorker.Cancel | ui/compare.py:773-774 | the worker is marked cancelled |
| CompareUi.ComparisonWorker.Run | ui/compare.py:776-803 | a cancelled worker sets its item to IDLE; otherwise the item ends SUCCESS if and only if the dimension sets agree and every periodicity of post pairs (both frames are stored and pre's rows can be put into post's dimension order when they differ), and FAILURE otherwise, with the comparison's own messages for an invalid pair and the generic message for anything else; on success the item says "Differences found" if and only if the periodicities disagree or some periodicity's frames differ, and "No differences" otherwise |
| CompareUi.PairsAgree | comparison.py:86-93 | the comparison run sets up pairs each periodicity as the worker's inputs say, so its loop fails or finds differences exactly when comparing those inputs does |
| CompareUi.ExportWorker.constructor | ui/compare.py:817-832 | a new worker remembers its item's state, queues the item and is not cancelled |
| CompareUi.ExportWorker.Cancel | ui/compare.py:834-835 | the worker is marked cancelled |
| CompareUi.ExportWorker.Run | ui/compare.py:837-862 | a cancelled worker restores the item's earlier state; otherwise the item ends SUCCESS exactly when the export is skipped or the loop as written (metadata sheet with every periodicity, prefix-matched labels) runs without raising, and FAILURE with the generic message otherwise |
| CompareUi.CompareWidget.constructor | ui/compare.py:447-475 | a new page has an empty list, both buttons disabled with their usual texts, and no workers |
| CompareUi.CompareWidget.ManageUiStates | ui/compare.py:571-594 | the buttons follow the checked items, as ButtonStates says |
| CompareUi.CompareWidget.LoadVisualisations | ui/compare.py:551-569 | every visualisation of either position gets a row that says which positions hold it; loading fails exactly when an existing comparison of a common visualisation has no readable differences flag |
| CompareUi.CompareWidget.NameDescManager | ui/compare.py:539-549 | with both positions chosen the list is loaded, otherwise cleared and both buttons disabled |
| CompareUi.CompareWidget.Lock | ui/compare.py:691-705 | the page and the list's selection are locked, and only the button that cancels is enabled, reading "Cancel" |
| CompareUi.CompareWidget.CancelAll | ui/compare.py:600-602 | every worker the page started is marked cancelled |
| CompareUi.CompareWidget.CompareItems | ui/compare.py:651-665 | the page is locked for comparing, and one new worker per item queues it |
| CompareUi.CompareWidget.CompareAction | ui/compare.py:597-610 | when the button reads "Compare", the checked items not yet compared are each given a worker, and with none the widget's lock, button text and buttons stay as they were; otherwise every worker is cancelled and the button is disabled and reads "Cancelling..." |
| CompareUi.CompareWidget.ExportItems | ui/compare.py:667-689 | the page is locked for exporting, and one new worker per checked item remembers its state and queues it |
| CompareUi.CompareWidget.ExportAction | ui/compare.py:613-648 | a date filter ending before it starts, or a missing folder or name, starts nothing; otherwise every checked item gets an export worker for the chosen folder; when the button does not read "Export" every worker is cancelled |
| CompareUi.CompareWidget.Unlock | ui/compare.py:720-733 | the button texts are restored, the page and the list's selection are unlocked, and the buttons follow the checked items |
| CompareUi.CompareWidget.TryUnlock | ui/compare.py:707-718 | the page is unlocked exactly when no item is PROCESSING, EXPORTING or QUEUED, and otherwise nothing changes |
| CompareUi.StartExports | ui/compare.py:680-689 | one fresh worker per item, in order, each remembering its item's state and queueing the item |
| Load.RetrieveMarkers | load.py:48-65 | the markers are found exactly when the file has a date marker and every block but the last has a criteria line after it; the metadata block ends just above the first date marker, each other block at the next criteria line, the last at the end of the file; otherwise an IndexError |
| Load.MarkersFrom | load.py:55-65 | the loop over the date marker rows succeeds under the same conditions and builds the same blocks |
| Load.MarkersUnique | load.py:48-65 | the date and criteria rows fix the blocks: a file has one list of blocks |
| Load.MarkersCompared | load.py:48-65 | the first reader and the current one find the same number of blocks, the same metadata block and the same block starts; every block but the last ends two lines later here, and the last one ends at the end of the file, after the current reader's end |
| Load.BlocksCompared | load.py:55-65 | the same, stated over the date and criteria marker rows |
| Load.PrelimRead | load.py:97-112 | a file without a date marker fails; the read succeeds if and only if the file has preliminary information; it then gives the markers, then each data block's dates, the last data block's dimensions and each block's periodicity, all as the current reader finds them |
| Load.PrelimAt | load.py:97-112 | once the blocks are known, the preliminary information exists exactly when the headers of those blocks can be read |
| Load.PrelimRest | load.py:67-95 | the headers are read if and only if every data block has a date line, every header has a "Date" column and every block's first date matches one periodicity; the dates, dimensions and periodicities read are then those of the current reader |
| Load.HeadersNeed | load.py:67-95 | headers that can be read give every data block a date line and a first date matching exactly one periodicity |
| Load.PrelimUnique | load.py:97-112 | a file has at most one reading of its preliminary information |
| Load.Stored | load.py:127-145 | the metadata are kept under exactly the keys "Stat Act", "Dataset", "Mode", "Status" and "Coverage" |
| Load.Unstored | load.py:135-145 | the coverage read back is the nested dictionary stored under "Coverage" |
| Load.StoredRoundTrip | load.py:127-145 | storing the metadata under these keys loses nothing |
| Load.MetaOfUnique | load.py:114-145 | a header block has at most one reading, so both readers agree on the metadata they accept |
| Load.ReadMeta | load.py:114-145 | the read succeeds if and only if there are markers and the lines above the first block have a metadata reading, which is then the result (the current reader's reading); without markers the read fails, and a missing statistical activity is reported under "Stat Act" |
| Load.ReadAll | load.py:147-157 | the load succeeds if and only if the file has preliminary information and metadata that read; a successful load has the file's name, the preliminary information and the stored metadata of the file |
| Load.LoadsAt | load.py:147-157 | once the preliminary information is read, the file loads exactly when the metadata above its first block read |
| Load.Name | load.py:150 | the name is the longest prefix of the file's base name without a '.', ending just before the first '.' |
| Load.SplitFirst | load.py:150 | the first piece of a split is a prefix of the text, ending at the first separator or at the end |
| Load.Visualisation.constructor | load.py:8-15 | a new visualisation has its path and nothing else filled in |
| Load.Visualisation.Fill | load.py:147-157 | the fields take the values that were loaded |
| Load.Visualisation.PostInit | load.py:147-157 | a failed csv check is reported as it is; after a passed one the load succeeds if and only if the file's preliminary information and metadata read, and then fills in the name, the preliminary information and the stored metadata of the file |
| Load.DataRegistry.constructor | load.py:163-165 | a new registry is empty |
| Load.DataRegistry.Open | load.py:167-170 | a failed csv check is reported as it is; after a passed one the file is registered if and only if it loads, under its name, replacing any earlier entry of that name and leaving every other entry alone; a file that fails leaves the registry as it was |
| Util.BadChars | util.py:131-146 | the full mode bans the characters a file name may not hold, the partial mode the path separators, the none mode nothing; any other mode fails; no mode bans a lower-case letter or a digit |
| Util.Validate | util.py:148-156 | the empty value is intermediate; any other is acceptable exactly when its last character is not banned, and invalid exactly when it is |
| Util.PartialWithinFull | util.py:139-146 | everything the partial mode bans the full mode bans too, and the full mode bans seven more characters |
| Util.OnlyLastCounts | util.py:149-151 | only the last character is judged: a banned character before it makes no difference |
| Util.MoreBannedIsStricter | util.py:148-156 | a value acceptable with more characters banned is acceptable with fewer, and a value invalid with fewer banned is invalid with more |
| Util.FileManager.constructor | util.py:18-20 | a new manager has no write recorded and no lock held |
| Util.FileManager.LockForWrite | util.py:21-25 | taking the write lock records that the file has changed |
| Util.FileManager.Unlock | util.py:18-25 | releasing the lock never clears the changed flag |
| Util.TempFile.constructor | util.py:28-35 | a new temporary file has no path and no saved path |
| Util.TempFile.SaveToLocation | util.py:78-84 | the outcome is the copy's; after a copy that succeeds the new location is recorded and the manager is released; after one that raises the lock stays held and the saved path is unchanged; either way the working path is unchanged and the change is recorded |

## Left out

- Reading files and the store: `pd.read_csv`, `h5py`, `pd.read_hdf`/`to_hdf`, `os.listdir`, `os.path.isdir`, `copyfile` and `os.remove` are not modelled. Their inputs and outcomes are parameters: the file's lines, the stored frames and metadata, the names of stored comparisons, the outcome of saving a visualisation, and the outcome of `copyfile` in `Util.TempFile.SaveToLocation`.
- The clock, `os.getlogin()` and the file's creation time are parameters or left out. This covers the default end date of the date filter, the export description's default text, the "Exported" and "Exported By" metadata cells, and the download time.
- Threads and the thread pool are not modelled. Workers run one at a time. Cancellation is the `shouldCancel` flag, read once at the start of `run`.
- `QReadWriteLock` blocking is not modelled. `Util.FileManager.LockForWrite` and `Util.TempFile.SaveToLocation` require that the lock is free.
- Qt widgets, painting, delegates, the options tree, `eventFilter` and `get_positions` are UI and are not modelled.
- `ExportDialog.validate_name`, `ask_export` and the `delete_visualisation` confirmation are dialogs. Their outcome is a parameter: the export path, or `None` when the user gives none.
- Values are integers: the float64 values of the frames are modelled as `int`, so rounding is not captured.
- `_add_analysis` (the Total, ABS and percentage analysis columns) is not modelled. The difference table reaches the recombination without those columns.
- The rest of `_write_sheet` and `_write_meta` is not modelled: formats, table styles, column widths, conditional formatting and cell contents. Only the sheets added, their names, the `written` flag and the order of the position metadata keys are modelled.
- Exports.HasDifferences: `assert_frame_equal` is modelled as equality of row sets, column sets and cells, so dtype checks are not captured.
- `load.py` `determine_modified` is the same test as `visualisations.py` `_determine_modified`, which is `Visualisations.DetermineModified`. The first reader only prints the result, so `Load.Visualisation` keeps no flag.
- `validation.validate_csv`, which `load.py` calls, is not defined in `validation.py`. Its outcome is the `csvCheck` parameter of `Load.Visualisation.PostInit` and `Load.DataRegistry.Open`.
- `Visualisations.ReadCoverage` runs the coverage loop in two phases: it finds the "Coverage Descriptors" line, then reads the lines after it. The result and the errors are the same as the single loop's.
- `util.py` `Visualisation.save`, `TempFile.check_existing`, `create_new`, `create_from_existing`, `recover` and `delete` only work on the file system, and are not modelled.
- `Util.NameValidator`: `QApplication.beep()` on an invalid value is not modelled.
- Visualisations.Fields: a data line is split on every comma. The CSV quoting that `read_csv` honours is not modelled, so a quoted field holding a comma (`"Agriculture, forestry"`) gains a field and shifts the values after it, where the program reads it as one field.
- Visualisations.ParseInt: only an optional minus sign followed by digits is a number. Decimals ("12.5"), exponents ("1e3") and a leading plus sign ("+5"), which `read_csv` reads as float64, are not numbers here, because values are modelled as integers.
- Visualisations.ValueOf: a value token that `ParseInt` rejects is an error ("could not convert string to float"), so a file holding decimal values fails here where the program loads it.
- Visualisations.RawRows: inherits the quoting gap of `Visualisations.Fields`.
- Visualisations.RowValues: inherits the decimal gap of `Visualisations.ValueOf`.
- Visualisations.AllRowValues: inherits the decimal gap of `Visualisations.ValueOf`.
- Visualisations.BlockOf: inherits both gaps: a block with a quoted comma or a decimal value is misread or refused.
- Visualisations.CreateData: built from `Visualisations.BlockOf`, so it fails on files with decimal or quoted-comma cells that the program reads.
- Exports.AddSheet: only xlsxwriter's duplicate-name error is modelled. Its InvalidWorksheetName error, for a name over 31 characters (a position name over 27 characters with the per-position sheets on) or holding one of `[]:*?/\`, is not.
- Exports.Says: `str.match` takes its pattern as a regular expression. The model matches the pattern as plain text, so a position name with regular-expression metacharacters ("P (1)", or an unbalanced `[` that makes `re` raise) is not modelled as the program treats it.
- Validation.StampAt, Validation.ValidateDate: `\d` and `\w` are taken as ASCII digits and word characters. Python's `re` also accepts other Unicode digits and letters.
- Validation.BaseName: splits on '/' only. `os.path.basename` on Windows also splits on '\'.
- Visualisations.ParseDate: accepts only the three header forms of the download format (year, year and quarter, year and month name). `pd.PeriodIndex` also parses other forms.
- Comparisons.CalcDifference: the masked assignments that build the reason table are taken never to raise. The comments at comparison.py:203-209 note that pandas can raise a TypeError ("Cannot do inplace boolean setting on mixed-types with a non np.nan value") when such an assignment meets a frame that already mixes numbers and texts. Here a cell holds a value or a reason text and every assignment succeeds. In the program that error would end the comparison with the generic failure message.
- CompareUi.CompareWidget.LoadVisualisations: a missing differences flag is modelled as a failed load that leaves the rows added so far. In the program the KeyError escapes a Qt slot, and PyQt5 with no `sys.excepthook` set ends the application instead.
- Visualisations.ReadContent, Visualisations.ParseLines, Visualisations.VisualisationParser.Parse, Visualisations.VisualisationWorker.Run: built on `Visualisations.CreateData`, so they inherit its gaps: a file with decimal or quoted-comma cells that the program reads fails here.

## Findings

The operations above model these four as written. Each corrected member states the intended behaviour on its own.

| source | as written | input that shows it | evidently intended | confidence | as-written member | corrected member |
|---|---|---|---|---|---|---|
| comparison.py:37-44 | `diff_pers` is true when the periodicity sets are equal, so the filtered list is returned only when filtering changes nothing; when the sets differ, post's whole list is returned | pre has `[A]`, post has `[A, Q]`: Q is compared, and reading pre's quarterly table raises a KeyError | compare only the periodicities both positions have | not executed | Comparisons.AsWrittenReadsMissingPeriod | Comparisons.GetPeriodicitiesSpec |
| visualisations.py:75-84 | `determine_unlock` scans rows from 1, but the visualisation list has no select-all row at row 0 | two files: the second, at row 1, has loaded and its worker's signal runs the scan while the first, at row 0, still loads: the list unlocks | scan every row from 0 | not executed | Visualisations.UnlockMissesFirstRow | Visualisations.VisualisationList.DetermineUnlock |
| export.py:383-394 | `str.match` tests whether a cell's text starts with "Missing in X", so a position name that is a prefix of the other matches both | positions "A" and "AB", a row whose only cell says "Missing in AB": labelled 'BOTH' instead of "AB" | match the whole cell text | not executed | Exports.PrefixLabelsBoth | Exports.LabelNamesACell |
| export.py:209-210 | the metadata sheet is added for every periodicity written, under the same name | metadata option on, two periodicities with differences: the second `add_worksheet('MetaData')` raises DuplicateWorksheetName, and the export fails | write the metadata sheet once per workbook | not executed | Exports.MetaAgainFails | Exports.MetaOnceNeverFails |
