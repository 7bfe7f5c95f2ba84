# Adobe Font Extractor, modelled in Dafny

The Adobe Font Extractor is a small window that reads the font-sync cache of
Adobe's desktop application. It reads the `entitlements.xml` manifest into a
list of font records (id, family, style) and lists the fonts with a checkbox
each under a live search filter. It copies the ticked fonts' files, which sit
under one-letter subdirectories of the cache and are named by id, into a
chosen folder as `"<family> - <style>.otf"`, and then counts successes,
errors and skips.

This project models the logic of that window, leaving out the widgets:

- `wrappers.dfy` (`Wrappers`): `Option` and `Result`.
- `text.dfy` (`Text`): ASCII lower-casing in place of `str.lower`, substring
  search (Python's `in`), one-character `str.replace`, and decimal formatting
  of counts. The substring search is proved equal to "occurs at some
  position", and the formatting to read back to the same number.
- `manifest.dfy` (`Manifest`): the records the manifest reader keeps from
  the parsed `font` elements (`get_font_metadata`).
- `locator.dfy` (`Locator`): `find_font_file`, the ordered probe of
  `e r t u w x`, over a file system given as sets of file and directory
  paths. It is modelled as written and in corrected form; see "Findings".
- `selection.dfy` (`Selection`): the listing and selection as values. This
  covers which ids a filter shows, the map a redraw builds, select and
  deselect all, and the export selection (the comprehension in
  `export_selected`).
- `export.dfy` (`Export`): the destination file name, the per-font
  outcome, the tally loop, the files the successful copies write, and the
  status text.
- `extractor.dfy` (`Extractor`): class `FontExtractor`, which holds the
  window's state: `fonts`, the `checkboxes` map from font id to ticked, and
  the `status` line. Its methods change that state the way the source's
  methods change `self`. Its invariant `Valid()` says that the checkbox keys
  are exactly the ids the last filter shows.

Three behaviours of the code are worth stating:

- The locator accepts any existing path, not only a regular file, and the
  export uses it as written: a directory found in place of the font file
  makes the copy raise, and that font is counted as an error (see
  "Findings").
- The status text leaves out the skipped count.
- Font ids are not checked for uniqueness. Each shown font gets its own
  checkbox, but the map keeps only the last one drawn for an id; an earlier
  checkbox with that id stays on screen and no longer affects anything. The
  kept checkbox decides for every font with that id, so a font the filter
  hides is exported when a shown font has its id
  (`Selection.SharedIdExportsHiddenFont`). The property "hidden fonts are
  never exported" is therefore proved for unique ids only.

## Model

| member | source | states |
|---|---|---|
| `Manifest.GetFontMetadata` | adobe-font-extractor-gui.py:93-122 | An unparsable document fails with a parse error. A document without a `fonts` container fails with that error. Otherwise the result is the records kept from its `font` elements, reduced one at a time. |
| `Manifest.KeptRecordsMembers` | adobe-font-extractor-gui.py:103-117 | A record comes out of the reader iff some element has an id, a familyName and a variationName that are present and non-empty, with those values. |
| `Manifest.KeptRecordsAppend` | adobe-font-extractor-gui.py:102-114 | Records keep document order: reading two runs of elements yields the first run's records followed by the second's. |
| `Manifest.KeptRecordsCount` | adobe-font-extractor-gui.py:103-117 | The number of records is the number of elements minus those dropped, so it is at most the number of elements. |
| `Locator.FirstIn` | adobe-font-extractor-gui.py:132-147 | The answer is the first candidate that is found, with no candidate before it found. "None" means no candidate at all is found. |
| `Locator.FindFontFileAsWritten` | adobe-font-extractor-gui.py:124-147 | The loop skips missing subdirectories and tries the flat path before the nested one. It returns the first candidate that exists at all, file or directory. |
| `Locator.FindFontFile` | adobe-font-extractor-gui.py:124-147 | The same probe, returning the first candidate that is a regular file (the corrected locator). |
| `Locator.LocateFound` | adobe-font-extractor-gui.py:130-147 | (corrected locator) A found file lies under one of `e r t u w x` that exists, never under `c`, at `<sub>/<id>` or `<sub>/<id>/<id>`. "Not found" means neither path is a file under any existing listed subdirectory. |
| `Locator.LocateFoundAsWritten` | adobe-font-extractor-gui.py:130-147 | (locator as written) A found path exists, as a file or a directory, under one of `e r t u w x` that exists, never under `c`, at `<sub>/<id>` or `<sub>/<id>/<id>`. "Not found" means neither path exists under any existing listed subdirectory. |
| `Locator.LocateIgnoresOtherDirs` | adobe-font-extractor-gui.py:129-130 | (corrected locator) Nothing under `c`, or anywhere outside the six listed subdirectories, changes the answer. |
| `Locator.LocateAsWrittenIgnoresOtherDirs` | adobe-font-extractor-gui.py:129-147 | (locator as written) Nothing under `c`, or anywhere outside the six listed subdirectories, changes the answer. |
| `Locator.AsWrittenNeverNested` | adobe-font-extractor-gui.py:138-145 | On a real tree, where every parent is a directory, the as-written probe never returns the nested path. |
| `Locator.AsWrittenReturnsDirectory` | adobe-font-extractor-gui.py:138-145 | Take a directory `r/42` that holds `r/42/42`. The as-written probe returns the directory, while the corrected probe returns the file. |
| `Locator.LocateAgreesWithoutDirectories` | adobe-font-extractor-gui.py:132-147 | When no candidate path is a directory, the as-written probe returns what the corrected one returns, and never a directory. |
| `Selection.EmptyFilterShowsAll` | adobe-font-extractor-gui.py:257-258 | An empty filter gives every font of the list a checkbox. |
| `Selection.SelectedMembers` | adobe-font-extractor-gui.py:151-154 | A font is selected iff it is in the list, its id has a checkbox, and that checkbox is ticked. |
| `Selection.SelectedAppend` | adobe-font-extractor-gui.py:151-154 | The selection keeps list order. |
| `Selection.RedrawSelectsNothing` | adobe-font-extractor-gui.py:255-266 | Right after a redraw nothing is selected, whatever was ticked before. |
| `Selection.SelectAllSelectsWithIds` | adobe-font-extractor-gui.py:268-271 | After "Select All", the selection is every font whose id has a checkbox, in list order. |
| `Selection.DeselectAllSelectsNothing` | adobe-font-extractor-gui.py:273-276 | After "Deselect All", nothing is selected. |
| `Selection.SelectAllExportsVisible` | adobe-font-extractor-gui.py:251-271 | With unique ids, redrawing with a filter and then pressing "Select All" selects exactly the fonts the filter matches, in list order. |
| `Selection.HiddenNeverSelected` | adobe-font-extractor-gui.py:151-154 | With unique ids and checkboxes only for visible ids, a font the filter hides is never selected. |
| `Selection.SharedIdExportsHiddenFont` | adobe-font-extractor-gui.py:266 | Two fonts share an id and only one matches the filter. After "Select All", both are selected. |
| `Text.ContainsOccurs` | adobe-font-extractor-gui.py:258 | The substring search holds iff the needle occurs at some position of the text. |
| `Text.ReplaceChar` | adobe-font-extractor-gui.py:183 | Replacing one character keeps the length, turns every occurrence of that character into the new one, and leaves every other character in place. |
| `Text.NatToString` | adobe-font-extractor-gui.py:211-213 | A count is formatted as a non-empty string of digits. It starts with `0` iff the count is 0. |
| `Text.DecimalRoundTrip` | adobe-font-extractor-gui.py:211-213 | Reading the formatted count back yields the count. |
| `Export.Sanitize` | adobe-font-extractor-gui.py:183 | The three chained replacements keep the length. They turn every `/`, `\` and `:` into `-` and leave every other character in place. |
| `Export.SanitizeIdempotent` | adobe-font-extractor-gui.py:183 | Sanitizing an already sanitized name changes nothing. |
| `Export.DestinationName` | adobe-font-extractor-gui.py:181-183 | The file name is `"<name> - <weight>.otf"` with every `/`, `\` and `:` turned into `-` and every other character kept in place; it is as long as that string, holds none of the three characters and ends in `.otf`. |
| `Export.SafeNameUnchanged` | adobe-font-extractor-gui.py:181-183 | A family and style without unsafe characters give exactly `"<name> - <weight>.otf"`. |
| `Export.Tally` | adobe-font-extractor-gui.py:167-209 | The loop locates each font with `find_font_file` as written. Nothing found is a skip; a found directory, or a copy that raises, is an error; any other hit is a success. The three counts are those of the per-font outcomes and add up to the number of selected fonts. The map of written files records the destination names of the successful copies, each with the source of the last copy to that name. |
| `Export.IntendedOutcomes` | adobe-font-extractor-gui.py:171-204 | With the corrected locator, only regular files are copied, and a font whose file is under an existing listed subdirectory, flat or nested, is never skipped. |
| `Export.OutcomesAgreeWithoutDirectories` | adobe-font-extractor-gui.py:132-204 | When no candidate path of a selected font is a directory, the export as written and the corrected export have the same outcome for every font. |
| `Export.DirectoryCopyCountsAsError` | adobe-font-extractor-gui.py:138-213 | With the font file at `r/42/42` inside the directory `r/42`, the export as written counts 0 successes and 1 error and reports "Successfully exported 0 fonts (1 errors)"; the corrected export copies `r/42/42`. |
| `Export.CountsPartition` | adobe-font-extractor-gui.py:171-209 | Every font lands in exactly one of skipped, success and error. |
| `Export.NotFoundIsSkipped` | adobe-font-extractor-gui.py:173-178 | A font for which `find_font_file` finds no existing path is skipped, whatever the other fonts are. |
| `Export.UnfoundNameNotWritten` | adobe-font-extractor-gui.py:173-187 | When `find_font_file` finds no path for any selected font with a given destination name, each of them is skipped and nothing is written under that name. (A name is written iff some font was copied to it: `Export.WrittenNames`.) |
| `Export.WrittenNames` | adobe-font-extractor-gui.py:184-187 | A destination name is in the written map iff some font was successfully copied to it. |
| `Export.WrittenLastWins` | adobe-font-extractor-gui.py:184-187 | Of several successful copies to one name, the written map holds the last one's source file. |
| `Export.StatusMentionsErrors` | adobe-font-extractor-gui.py:211-213 | The status text has the parenthesised error note iff the error count is above 0. |
| `Export.StatusUnambiguous` | adobe-font-extractor-gui.py:211-213 | The status text determines both the success count and the error count. |
| `Export.SampleExport` | adobe-font-extractor-gui.py:171-204 | Font 42, whose file is `r/42`, is copied to `"<family> - <style>.otf"`, as written and corrected alike. The tally is one success, no error and no skip, and the text is "Successfully exported 1 fonts". |
| `Extractor.FontExtractor.constructor` | adobe-font-extractor-gui.py:20-33 | The window loads the fonts and lists them unfiltered. A failed load leaves an empty list. The status line reports the load. |
| `Extractor.FontExtractor.LoadFonts` | adobe-font-extractor-gui.py:224-245 | A missing manifest and a reader failure leave the list unchanged and set the error status. Otherwise the read fonts replace the list, they are drawn with an empty filter, and the status line gives their number. |
| `Extractor.FontExtractor.DisplayFonts` | adobe-font-extractor-gui.py:247-266 | The checkbox map becomes one unticked entry per id whose font name contains the filter, case-insensitively. Nothing of the previous map survives. |
| `Extractor.FontExtractor.SelectAll` | adobe-font-extractor-gui.py:268-271 | Every existing checkbox becomes ticked. None is added or removed. |
| `Extractor.FontExtractor.DeselectAll` | adobe-font-extractor-gui.py:273-276 | Every existing checkbox becomes unticked. None is added or removed. |
| `Extractor.FontExtractor.Toggle` | adobe-font-extractor-gui.py:259-264 | Clicking the checkbox kept for an id flips that id's flag and no other; it decides the selection of every listed font with that id. An id without a checkbox in the map changes nothing. |
| `Extractor.FontExtractor.SelectedFonts` | adobe-font-extractor-gui.py:151-154 | The export selection is the listed fonts whose id has a checkbox that is ticked. Each of them has an id that the current filter shows. |
| `Extractor.FontExtractor.ExportSelected` | adobe-font-extractor-gui.py:149-222 | An empty selection gives a warning and does nothing more. A cancelled folder dialog does nothing. A folder that cannot be created sets "Export error". Otherwise the export loop runs and the status line shows its counts. |
| `Extractor.FilterSelectExport` | adobe-font-extractor-gui.py:247-276 | With unique ids, typing a filter, pressing "Select All" and then exporting exports exactly the fonts the filter shows. Each is counted once. |

## Findings

| source | as written | input that shows it | evidently intended | confidence | as-written member | corrected member |
|---|---|---|---|---|---|---|
| adobe-font-extractor-gui.py:138-145 | `os.path.exists(file_path)` also holds for a directory. When `<sub>/<id>` is a directory, that directory is returned as the font file and the nested probe `<sub>/<id>/<id>` is never reached. | a cache with directory `r/42` holding the font file `r/42/42` | return `r/42/42`: only a regular file counts as a hit | not executed; high that the nested branch is unreachable on a real disk | `Locator.FindFontFileAsWritten` | `Locator.FindFontFile` |
| adobe-font-extractor-gui.py:173-209 | The export copies whatever the probe returns. A directory makes `shutil.copy2` raise, so the font is counted as an error. | the same cache, with font 42 selected | copy `r/42/42` and count a success | not executed; high | `Export.Tally` | `Export.IntendedOutcomes` |

`Locator.AsWrittenReturnsDirectory` shows this input, and
`Locator.AsWrittenNeverNested` proves that the nested branch is
unreachable. `Export.Tally`, and with it `export_selected`, is modelled as
written; `Export.DirectoryCopyCountsAsError` shows the error it reports on
that input, where `Export.IntendedOutcomes` copies the nested file.
`Export.OutcomesAgreeWithoutDirectories` proves that the two exports differ
only when some candidate path is a directory.

## Left out

- Widgets: the window, the canvas, the scrollbar, the buttons, the message boxes and the folder dialog (`setup_gui`). They are UI only. The folder dialog's answer is the `exportDir` parameter, with an empty string for a cancel. A checkbox is represented by its boolean, and a click by `Toggle`.
- The `StringVar` trace: `on_search_change` is a call to `DisplayFonts` with the typed text.
- `platform_setup` and `os.path.expandvars`: configuration lookup in the environment. The model starts from the cache tree and the parsed manifest.
- XML parsing (`ElementTree.parse`, `find`, `findall`): a library. The model starts from the parsed elements, and a parse error is the `Unparsable` document.
- Real file-system effects: `os.path.exists` on the manifest is the `manifestExists` parameter. `os.makedirs` is the `makeDirsOk` parameter. Whether each `shutil.copy2` of a regular file succeeds is an entry of `copyOk`; copying a directory always fails. The `chmod` step is left out: any failure of it is only logged.
- Path joining: a path is its list of components, so ids that contain a separator or are absolute paths (which `os.path.join` would treat differently) are not modelled.
- Logging calls: they have no effect on behaviour.
- Python's full Unicode `str.lower()`: only ASCII `A`-`Z` are folded.
- The outer `except` of `export_selected` is modelled only for a failing `os.makedirs`. The loop's own `except` catches everything else, so a copy failure is counted as an error.
- `Export.Tally`: on Windows, `attrib` is run after the copy and only its `CalledProcessError` is caught. Any other exception from it (the command missing, say) reaches the loop's handler, so the font counts as an error although its file was written. The model has a font either copied and counted a success, or not copied and counted an error; this case is not modelled. Likewise a `shutil.copy2` that raises may already have left a file: a complete one when `copystat` is refused (a share or a FAT mount that rejects metadata changes), a truncated one when the copy fails part-way (a full disk). Such a file may replace an earlier copy with the same destination name. The written map (`Export.Written`, and the `Export.WrittenNames` and `Export.WrittenLastWins` statements about it) records successful copies only, not what a failed copy left behind. It also compares destination names as exact strings. On the default file systems of Windows and macOS, two names that differ only in letter case (or, on macOS, in Unicode normalisation) are one file, so the later copy replaces the earlier one, while the map keeps both names.
- The checkbox of an earlier font whose id a later shown font repeats: it stays on screen but is no longer in the map, so ticking it changes nothing. The model keeps only the map, where that widget does not appear.
- `Selection.HiddenNeverSelected`: proved only for lists with unique ids, because the source does not enforce them and the property fails without them (`Selection.SharedIdExportsHiddenFont`).
