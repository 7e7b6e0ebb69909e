# AutoRenamer rename engine in Dafny

AutoRenamer is a desktop tool for print shops. Each customer ("party") has a folder
under a root folder, and a party code comes from `parties.csv`. A new file in a party
folder is renamed by a rule and moved into a `Done` folder beside it:

    <code>_<original stem> <machine>(FT.<w>x<h>)(Q.<qty>)%%<ext>

- The size class in feet is read from the first `<w> x <h>` in the name.
- The quantity is read from a number next to a quantity keyword such as `copy` or `pcs`.

Later, in "finalize mode", a file in a `Done` folder gets its quantity and category
filled in, and its machine label is tagged `[ok]`. Every rename is logged in a
linear undo/redo history.

This project models that engine in `main.py`:

- the undo/redo history (`RenameLog`);
- the pure name interpretation:
  - `extract_dimensions` and its feet table (`Dimensions`);
  - `detect_quantity` (`Quantity`);
  - `generate_new_filename` and the finalize rewrite (`Naming`);
- the collision loops that pick a free target name (`Collision`);
- the keyword editor (`Keywords`), the party map (`Parties`), and the scan and search filters (`Listing`);
- the actions `rename_file`, `select_all_files`, `undo_rename`, `undo_all_batch`, `redo_rename` and `finalize_and_next` (`Engine`).

Modelling choices:

- The filesystem is a finite set of paths, and a path is a sequence of segments.
- `Path.rename`, `shutil.move` and `mkdir` are set updates. Each one may raise instead.
- Which calls raise is an input (`Engine.Faults`), one record per action.
- Timestamps are inputs too.
- The regular expressions are modelled pattern by pattern:
  - a function computes what `re.search` reports;
  - a predicate states the pattern's shape;
  - lemmas prove the computed match is the leftmost one, with the extent the pattern gives it.
- Text is treated as ASCII:
  - `\d` is `[0-9]`;
  - `\w` is `[A-Za-z0-9_]`;
  - `\s` and `str.strip` use tab through carriage return, code points 28 to 31, and the space.
- Inch values are exact reals, not floats.
- The imperative parts keep their form:
  - `RenameHistory` and the keyword list are classes whose methods update their fields;
  - the collision, batch, undo-all, scan, search and party-map loops are `while`/`for` loops;
  - each loop is proved equal to a function, and the promised properties are lemmas about that function.

Modules, by file:

| file | module | contents |
|---|---|---|
| `wrappers.dfy` | `Wrappers` | `Option` |
| `text.dfy` | `Text` | ASCII character classes, `lower`, `strip`, whitespace collapsing, `in`, `replace`, integer text |
| `paths.dfy` | `Paths` | `name`, `parent`, `/`, `suffix` and `stem` of pathlib |
| `rename_log.dfy` | `RenameLog` | the history's state as a value, and the `RenameHistory` class |
| `dimensions.dfy` | `Dimensions` | `extract_dimensions` |
| `quantity.dfy` | `Quantity` | `detect_quantity` |
| `naming.dfy` | `Naming` | `generate_new_filename` and the finalize rewrite |
| `collision.dfy` | `Collision` | the `while new_path.exists()` loops |
| `keywords.dfy` | `Keywords` | the keyword editor and `load_keywords` |
| `listing.dfy` | `Listing` | `scan_folder` and `on_search_change` filters |
| `parties.dfy` | `Parties` | the party map built from `parties.csv` rows |
| `engine.dfy` | `Engine` | the rename actions and the `Renamer` class |

## Model

| member | source | states |
|---|---|---|
| RenameLog.Recorded | main.py:68-75 | `add` keeps the entries up to the cursor, appends the new entry, and leaves the cursor on it. The state stays valid: `-1 <= index < len(history)`. |
| RenameLog.Undone | main.py:77-82 | `undo` returns nothing exactly when `index < 0`, and then changes nothing. Otherwise it returns `history[index]` and decrements the cursor. The list is never changed. |
| RenameLog.Redone | main.py:84-88 | `redo` returns nothing exactly when `index >= len(history)-1`. Otherwise it advances the cursor and returns the entry now under it. The list is never changed. |
| RenameLog.RedoAfterRecord | main.py:68-88 | A `redo` straight after `add` returns nothing and changes nothing. |
| RenameLog.UndoAfterRecord | main.py:68-82 | An `undo` straight after `add` returns the entry just added. |
| RenameLog.UndoRedo | main.py:77-88 | Whenever there is something to undo, undo then redo returns the same entry and restores the state. |
| RenameLog.RedoUndo | main.py:77-88 | Whenever there is something to redo, redo then undo returns the same entry and restores the state. |
| RenameLog.RecordAfterUndoDiscardsRedo | main.py:68-88 | An `add` after an `undo` discards the undone entry and everything after it, so nothing is left to redo. |
| RenameLog.UndoOrder | main.py:77-82 | The entries that repeated undos return, in order: newest first, from the cursor down. |
| RenameLog.UndoWalk | main.py:77-82 | `n` undos leave the list unchanged and the cursor at `index - n`, but never below -1. The k-th undo returns `history[index-k]` while `k <= index`, and nothing after that. |
| RenameLog.RenameHistory.constructor | main.py:64-66 | A new history is empty, with `index == -1`. |
| RenameLog.RenameHistory.Add | main.py:68-75 | Keeps the invariant. The new state is `Recorded` of the old state. |
| RenameLog.RenameHistory.Undo | main.py:77-82 | Keeps the invariant. The new state and the returned entry are `Undone` of the old state. |
| RenameLog.RenameHistory.Redo | main.py:84-88 | Keeps the invariant. The new state and the returned entry are `Redone` of the old state. |
| RenameLog.RenameHistory.Clear | main.py:90-92 | Empties the list and resets `index` to -1. |
| Dimensions.NumberEndIsNumber | main.py:681 | The number the pattern reads starting at a digit matches `\d+\.?\d*`. |
| Dimensions.NumberForced | main.py:681 | No match of `\d+\.?\d*` from a position reads further than the greedy number does. |
| Dimensions.PairMatchSound | main.py:681 | The match reported at a position has the shape `<number>\s*x\s*<number>`. |
| Dimensions.PairMatchComplete | main.py:681 | If any `<number>\s*x\s*<number>` starts at a position, the search reports a match there. Its first number and its `x` are in the same places, and its second number is at least as long. |
| Dimensions.FirstPairLeftmost | main.py:681 | `re.search` reports the leftmost position where a match starts. When it reports nothing, no position has a match. |
| Dimensions.ToFeet | main.py:686-696 | Every size class is one of 1, 2, 3, 4, 5, 6, 8 or 10 feet. Both 26 < v <= 32 and 32 < v <= 38 map to 3. |
| Dimensions.ToFeetMonotone | main.py:686-696 | The feet table never decreases as the inch value grows. |
| Dimensions.Bucketed | main.py:698-704 | Both sides are at least 1 and the area is at least 2. A product below 2 becomes exactly `1x2`; otherwise the pair is the two table values. |
| Dimensions.Measure | main.py:680-702 | When a size is found, both sides are at least 1 and the area is at least 2. |
| Dimensions.ExtractDimensionsSpec | main.py:678-704 | The result is `""` exactly when no `<num> x <num>` occurs in the lower-cased, whitespace-collapsed name. Otherwise it is `"{w}x{h}"` with w, h >= 1 and w*h >= 2. |
| Dimensions.ExtractDimensions | main.py:678-704 | The result is empty exactly when no size is found. Otherwise it is `"{w}x{h}"` for some w, h >= 1 with w*h >= 2. |
| Dimensions.MeasureIsLeftmost | main.py:680-702 | The size comes from the leftmost match, read greedily. Both sides are mapped through the feet table, then the result is clamped. |
| Quantity.StripPairsIdentity | main.py:713 | Text with no integer `\d+\s*x\s*\d+` passes through the removal unchanged. |
| Quantity.StripPairsFirst | main.py:713 | The removal keeps the text before the leftmost integer pair, drops the pair, and goes on after it. |
| Quantity.StripPairsKeeps | main.py:713 | A character where no pair starts is kept. |
| Quantity.CountAtSpec | main.py:718 | At a position, `\b(\d+)\s*KW\b` matches when a count/keyword pair starts there. Its digit group is the longest one that lets the keyword follow. |
| Quantity.CountSearchLeftmost | main.py:718 | The search reports the leftmost position where the pattern matches, or no position at all. |
| Quantity.CountBeforeSpec | main.py:718-720 | No count is found exactly when the pattern matches nowhere. Otherwise the count is the digit group of the leftmost match, read as far as any match there reads. |
| Quantity.KeywordAtForced | main.py:721 | Any match of `\bKW\s*(\d+)\b` at a position is the one the search reports there. |
| Quantity.KeywordSearchLeftmost | main.py:721 | The search reports the leftmost position where the pattern matches, or no position at all. |
| Quantity.CountAfterSpec | main.py:721-723 | No count is found exactly when the pattern matches nowhere. Otherwise the count is the digit group of the leftmost match. |
| Quantity.DetectDefault | main.py:716-725 | When no keyword hits in either form, the quantity is 1. |
| Quantity.DetectFirstHit | main.py:716-724 | The first keyword in list order that hits decides the quantity, with number-before tried before keyword-before. The value is the digit run's value, which can be 0. |
| Quantity.DetectIn | main.py:716-725 | The quantity is 1, or the count that some keyword of the list hits. |
| Quantity.DetectQuantity | main.py:706-725 | The quantity is 1, or the count some keyword hits in the prepared name. |
| Quantity.DetectWithoutDigits | main.py:706-725 | A name without digits gets quantity 1. |
| Naming.DimPart | main.py:730 | The dimension part is empty exactly when the dimension text is. Otherwise it is `(FT.<dim>)`. |
| Naming.FirstPassStem | main.py:727-731 | The first-pass name before its extension always ends in `%%`. |
| Naming.GenerateNewFilename | main.py:727-731 | The name always ends with `"%%" + ext`. When `ext` is a real suffix, the name's suffix is `ext` and its stem is `code_stem machine(FT.wxh)?(Q.n)%%`. |
| Naming.FirstPassSplit | main.py:727-731 | The suffix and stem of a generated name split it back at `ext`. |
| Naming.QBlockFromLeftmost | main.py:846 | The split finds the leftmost `(Q.\d+)%` in the stem, or none. |
| Naming.FinalBase | main.py:845-848 | The base is the text before the leftmost `(Q.\d+)%%?`, or the whole stem when there is no such block. |
| Naming.Tagged | main.py:850-851 | When the base holds the machine label and no `[ok]`, the result holds `<machine>[ok]`. Whenever the base holds the label, the result holds `[ok]`. Without the label, or with `[ok]` already there, the base is returned unchanged. |
| Naming.CatPart | main.py:853 | The category part is `%cat%`, or `%%` for an empty category. Either way it starts and ends with `%`. |
| Naming.FinalizedName | main.py:842-854 | There is no new name exactly when the name already contains `[ok]`. Otherwise the new name is the tagged `FinalBase` of the stem, then `(Q.qty)`, the category part and the old suffix, and a non-empty old suffix stays the new name's suffix. It carries `[ok]` whenever the base held the machine label. |
| Naming.FinalizeOnce | main.py:842-854 | A finalized name whose base held the machine label is left alone by a second finalize. |
| Naming.FirstPassBase | main.py:845-848 | The base of a first-pass stem is everything before `(Q.n)%%`. |
| Naming.FinalizeFirstPassName | main.py:842-854 | Finalizing a first-pass name gives the tagged head, then `(Q.qty)`, the category part and the extension. |
| Naming.HeadHasMachine | main.py:731 | The head of a generated name contains the machine label. |
| Naming.FinalizeGenerated | main.py:842-854 | For a name from `generate_new_filename`, finalizing gives the head with the machine label tagged `[ok]`, then `(Q.qty)`, the category part and the extension. |
| Collision.Candidate | main.py:929 | The n-th candidate lies in the same folder and is named `<prefix> (n)<ext>`. |
| Collision.CandidateInjective | main.py:928-930 | Different counters give different candidates. |
| Collision.TakenGrows | main.py:928-930 | Each taken candidate leaves fewer existing paths untried, which is why the loop ends on a finite set. |
| Collision.FreeIndex | main.py:926-930 | The counter the loop stops at names a free candidate. |
| Collision.FreeIndexLeast | main.py:926-930 | Every counter the loop passed before stopping names a taken candidate. |
| Collision.Target | main.py:926-930 | The target is not an existing path. It is the wanted path itself when that is free. |
| Collision.TargetIsLeastFree | main.py:926-930 | When the wanted path exists, the target is the candidate with the smallest free n >= 1. |
| Collision.TargetName | main.py:926-930 | The target lies in the folder, and is named either the wanted name or `<prefix> (n)<ext>` for some n >= 1. |
| Paths.Stem | main.py:921 | The stem followed by the suffix is the name; a name with a suffix has a non-empty stem. |
| Paths.Suffix | main.py:922 | The suffix is empty or a dot, then at least one character, then no dot, and ends the name. A name without a dot has no suffix. |
| Collision.FreeTarget | main.py:926-930 | The `while` loop computes `Target`. |
| Keywords.Normalized | main.py:646 | A typed keyword is stripped and lower-cased: never longer, neither starting nor ending with whitespace, and without upper-case letters. |
| Keywords.IndexOf | main.py:642 | The first occurrence of the keyword. |
| Keywords.RemoveFirst | main.py:642 | `list.remove` drops exactly one copy of the keyword: the first one. The result is the list before that position followed by the list after it. |
| Keywords.RemoveKeepsNoRepeats | main.py:641-650 | In a list without repeats, removal leaves the keyword absent and the list still without repeats. |
| Keywords.KeywordList.Add | main.py:645-650 | A keyword is added exactly when its normalized form is non-empty and not already listed. It is appended at the end, and the list stays free of repeats. |
| Keywords.KeywordList.Remove | main.py:641-643 | Drops the first occurrence of a listed keyword, and changes nothing otherwise. |
| Keywords.KeywordSettings.LoadAsWritten | main.py:571-583 | `load_keywords` takes the stored list. Without one, it takes the default list object itself. |
| Keywords.KeywordSettings.Load | main.py:571-583 | `load_keywords` with the fallback copied. The keywords are the stored list, or the defaults. |
| Keywords.KeywordSettings.Reset | main.py:657-659 | `reset_default` takes a fresh copy of the default list object. |
| Keywords.KeywordSettings.AddKeyword | main.py:645-650 | Adds to the active list, as `KeywordList.Add` does, also when the active list is the default list object itself. A valid state stays valid. |
| Keywords.KeywordSettings.RemoveKeyword | main.py:641-643 | Removes from the active list, as `KeywordList.Remove` does, also when the active list is the default list object itself. A valid state stays valid. |
| Keywords.ResetAfterAddAsWritten | main.py:571-583 | As written: after the fallback load, adding `layout` with `AddKeyword` and then `reset_default` keeps `layout`. |
| Keywords.ResetAfterEdits | main.py:657-659 | With the fallback copied, reset after any load and any edits gives exactly the default keywords. |
| Listing.Upper | main.py:773 | `str.upper` keeps the length. |
| Listing.ScanFilter | main.py:780-789 | A file is listed exactly when it matches an allowed extension glob and its in-`done` flag equals the mode. In finalize mode its name must also not contain `[ok]`. |
| Listing.ScanFilterAppend | main.py:780-789 | The filter keeps the input order: filtering a concatenation is filtering each part and concatenating. |
| Listing.Scan | main.py:780-789 | The scan loop computes `ScanFilter`. |
| Listing.ScanModes | main.py:767-789 | No file is listed in both modes. A finalize-mode file sits directly in a `Done` folder and has no `[ok]`. A new-mode file has no path part that lower-cases to `done`. |
| Listing.SearchFilter | main.py:800-810 | A file is kept exactly when the stripped, lower-cased query occurs in its lower-cased name. |
| Listing.SearchFilterAppend | main.py:804-810 | The search keeps the input order: searching a concatenation is searching each part and concatenating. |
| Listing.Search | main.py:804-810 | The search loop computes `SearchFilter`. |
| Listing.BlankQueryKeepsAll | main.py:800-810 | A blank query keeps every file, in order. |
| Parties.PartyMap | main.py:1060-1064 | Every stored party name and code is non-empty. |
| Parties.BuildPartyMap | main.py:1060-1064 | The row loop computes `PartyMap`. |
| Parties.PartyMapStops | main.py:1060-1064 | Once a short row raises, later rows change nothing. |
| Parties.PartyMembership | main.py:1060-1064 | A party is in the map exactly when some row has a non-empty trimmed name and code for it. |
| Parties.PartyLastWins | main.py:1060-1064 | A party's code is that of the last row naming it. |
| Engine.Moved | main.py:932-936 | A successful move puts the file at its destination and changes no other path. |
| Engine.FileAway | main.py:931-936 | The file either ends at `<folder>/Done/<target name>`, or the first failing call leaves it in place, renamed or not. |
| Engine.FileAwayKeepsFiles | main.py:931-936 | With both destinations free, no file is lost. A full success only replaces the source path by the final path. |
| Engine.FileAwayReplacesDone | main.py:933-936 | A file already at the final path in `Done` is overwritten: the new filesystem is the old one without the source. |
| Engine.CodeFor | main.py:918-920 | A party code is found exactly when the parent folder's name maps to a non-empty code. |
| Engine.BatchPrefix | main.py:967 | `new_name[:-len(ext)]` is the name without the extension. It is empty for an empty extension. |
| Engine.TargetsAgree | main.py:965-968 | For a file with an extension, `rename_file` and `select_all_files` pick the same target. |
| Engine.RenameOneGuards | main.py:913-920 | A rename happens only for a selected, existing file with a machine label and a party code. |
| Engine.RenameOne | main.py:912-937 | Without a selection, a machine label, an existing file or a party code, nothing happens. A file that gets filed ends in the `Done` folder beside the selected file. |
| Engine.NewName | main.py:921-924 | The generated name keeps the file's non-empty suffix. |
| Engine.RenameOneOutcome | main.py:921-937 | A successful rename picks a free target in the file's folder, named as generated or `<prefix> (n)<ext>`. The file ends in `Done` under the target's name, and the new filesystem is the old one with the file replaced by its final path. |
| Engine.RenameOneLeast | main.py:926-930 | The target is the generated name when that is free. Otherwise it is the candidate with the least n >= 1 whose path is free; every smaller candidate exists. |
| Engine.RenameStep | main.py:912-937 | The steps of `rename_file` compute `RenameOne`. |
| Engine.Tally | main.py:969-977 | A success is logged as (file, final path, stamp) and counted as renamed. A failure adds one error and leaves the log and the renamed count alone. The filesystem is that of the step. |
| Engine.BatchStep | main.py:955-977 | One file of the batch keeps the log valid. |
| Engine.BatchRun | main.py:954-977 | The batch keeps the log valid. |
| Engine.BatchStepRecords | main.py:955-977 | Each file has exactly one of three effects: nothing changes (a skip), one error is counted with the log and renamed count unchanged (a failure), or one filed entry is appended and one rename counted (a success). |
| Engine.BatchStepFails | main.py:969-977 | For an attempted file whose move fails, the batch counts one error, logs nothing, and leaves the file renamed in place, or untouched when the rename itself failed. |
| Engine.AppendOneFiled | main.py:969-974 | One more filed entry extends an append-only run of filed entries. |
| Engine.BatchRecords | main.py:954-977 | The number renamed equals the number of entries appended after the cursor. Every such entry's new path is `<old folder>/Done/<name>`. The two counters sum to at most the number of files. |
| Engine.BatchSkips | main.py:956-959 | A missing file, or one without a party code, changes nothing and counts nowhere. |
| Engine.BatchAttempt | main.py:960-974 | The steps for one file of the batch compute its `FileAway`. |
| Engine.RenameBatch | main.py:954-977 | The batch loop's filesystem, history and counters are those of `BatchRun`. |
| Engine.MoveBack | main.py:994-999 | The move back succeeds exactly when neither `mkdir` nor the move raises and the new path exists. Success replaces the new path by the old one; failure changes nothing. |
| Engine.UndoAfterRename | main.py:1006-1014 | Undoing a successful rename restores the filesystem exactly. |
| Engine.UndoAllRun | main.py:990-1000 | At most one file is restored per undone entry. |
| Engine.UndoNewestFirst | main.py:990-1001 | The loop undoes from the cursor down to the first entry, newest first, moving each file back. It leaves the list unchanged and the cursor at -1. |
| Engine.RedoTarget | main.py:1025-1029 | The redo target is free and lies in the recorded new path's folder. |
| Engine.RedoNestsDone | main.py:1030-1033 | Redoing a filed entry moves the file into `<folder>/Done/Done/`. |
| Engine.RedoMove | main.py:1022-1033 | A filed redo needs the old path to exist, and ends in `Done` beside the recorded new path, under the free redo target's name. A failed redo changes nothing, or leaves the file renamed to the redo target. |
| Engine.FinalizeOne | main.py:842-861 | A finalize renames the file in place to `FinalizedName`, and only when that path is free. Otherwise nothing changes. |
| Engine.FinalizedLeavesList | main.py:842-861 | A finalized file whose base held the machine label drops out of the finalize listing, and would be left alone by another finalize. |
| Engine.Renamer.constructor | main.py:106-118 | The app starts with an empty history, an empty party map, machine `(C.S)`, and new-files mode. |
| Engine.Renamer.RenameFile | main.py:912-937 | The filesystem follows `RenameOne`. Only a successful rename is logged, as (old path, final path). |
| Engine.Renamer.RenameAll | main.py:946-977 | Without files, in finalize mode, without a machine label, or unconfirmed, nothing happens. Otherwise the result is `BatchRun`. |
| Engine.Renamer.UndoRename | main.py:1006-1017 | The cursor moves as `undo` says, even when the move back fails. The filesystem follows `MoveBack` of the undone entry. |
| Engine.Renamer.UndoAll | main.py:981-1004 | With an empty history, or unconfirmed, nothing happens. Otherwise every entry up to the cursor is moved back, newest first, and the whole history, redo entries included, is cleared. |
| Engine.Renamer.RedoRename | main.py:1019-1037 | The cursor moves as `redo` says. The file is moved as `RedoMove` says. Nothing is logged. |
| Engine.Renamer.Finalize | main.py:839-861 | Takes a quantity the dialog accepts (digits, at least 1). The filesystem follows `FinalizeOne`. Only a successful finalize is logged. |

## Left out

- The customtkinter interface is not modelled. This covers windows, popups, menus, status texts, listbox geometry, and the finalize popup's move to the next file. It is presentation only.
- The update check, browser links and network calls are not modelled. They are foreign calls.
- The watchdog observer and auto-scan are not modelled. They are asynchronous notification.
- Backups, `config.json`, `keywords.json` and `parties.csv` reading and writing, `save_keywords`, and logging are not modelled. They are file I/O.
  - A stored keyword list arrives as an `Option`.
  - A CSV row arrives as two cells.
- Timestamps are parameters. `datetime.now()` is a clock.
- Text is ASCII. There is no Unicode case mapping, and no Unicode `\s`, `\d` or `\w`.
- Inch values are exact reals. Float rounding of very long fractions is not modelled.
- Folders are not modelled as paths, only files.
  - `mkdir` can only succeed or raise.
  - `shutil.move` onto an existing folder, and case-insensitive filesystems, are not modelled.
- The scan takes the files found by `rglob` as its input sequence. The glob patterns themselves are modelled (`Listing.Globbed`); the enumeration, the set dedupe and the sort by lower-cased name are not.
- Listing.Globbed: matches the patterns case-sensitively, as `rglob` does on POSIX. On Windows `rglob` is case-insensitive, so `a.Plt` or a folder `done` would also match there; that is not modelled.
- A party code containing `/` or `\` makes pathlib nest the target below the file's folder. The model treats the generated name as one path segment, so this nesting is not modelled.
- The party and code display text of the scan and search lists is not modelled. It is presentation only.
- The `Renamer` keeps the listed files outside its state. `RenameAll` takes the filtered list as a parameter.
- Quantity.DetectFirstHit: the pair removal is applied once, to the whole text, as `re.sub` does. A digit of an overlapping second pair (`1x2x3` leaves `x3`, which the keyword `x` reads as 3) can still be read as a count. This is stated through `StripPairsFirst`, not as a separate lemma.
- Engine.UndoNewestFirst: the loop is related to `UndoOrder`, the newest-first list of entries. `UndoWalk` states the same walk for the bare history state.

## Findings

| source | as written | input that shows it | evidently intended | confidence | as-written member | corrected member |
|---|---|---|---|---|---|---|
| main.py:571-583 | With no `keywords.json`, or an unreadable one, `load_keywords` binds the active list to the module's `DEFAULT_KEYWORDS` object itself. `add_keyword` and `remove_keyword` then change the defaults, and `reset_default` copies the changed defaults. | No keywords file. Add `layout`, then reset. The list is still `copy, copies, pcs, pieces, x, layout`. | Reset restores `copy, copies, pcs, pieces, x` | not executed | Keywords.ResetAfterAddAsWritten | Keywords.ResetAfterEdits |
