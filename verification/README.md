# Conflict-block parser and classifier, in Dafny

This project models the pure core of the `git-conflict-resolver` plugin's
`parse_conflicts.py`. That core has three parts:

- **the marker scanner** (`parse_conflict_blocks`). It normalises line
  endings and splits the text into lines. One forward pass then cuts out
  every region between a `<<<<<<<` opening marker and the next `>>>>>>>`
  closing marker, and sorts the lines in between into the ours, base
  (after `|||||||`) and theirs (after `=======`) sections. Each region
  becomes a block record, with up to three lines of context on each side.
  An opening marker that is never closed yields a last block that carries
  an error and is already tagged `complex`.
- **the classifier** (`classify_conflict`). It is a first-match chain of
  heuristics that gives each block one of ten tags: `complex`,
  `both_empty`, `whitespace`, `ours_deleted`, `theirs_deleted`,
  `import_order`, `theirs_superset`, `ours_superset`, `reorder` and
  `version_diff`.
- **the per-file tally** in `main`. It classifies every block that has
  no tag yet. It counts the blocks whose tag is one of the six automatic
  ones, and reports the rest as needing a decision.

Modules, one per file:

| file | module | contents |
|---|---|---|
| `text.dfy` | `Text` | Python's whitespace set and `str.strip`; `replace("\r\n","\n").replace("\r","\n")`; `split("\n")` and `"\n".join` |
| `blocks.dfy` | `Blocks` | the `Block` record, the ten `Tag`s and their report names |
| `scanner.dfy` | `Scanner` | marker lines, the inner and outer loops, the block records, and what they satisfy |
| `patterns.dfy` | `Patterns` | the import and version regexes, written out as predicates |
| `classifier.dfy` | `Classifier` | `Classify`, the rule table it follows, and what each tag guarantees |
| `report.dfy` | `Report` | classifying and counting the blocks of one file |

The scanner is stated twice:

- **as the source runs it.** `ScanBody` is the inner loop and `Regions`
  is the outer loop. `Closed` and `Unclosed` build the two kinds of
  record.
- **as a reference description of each block.** `SectionAt` gives the
  section in force at each interior line. `Select` gives the lines of one
  section. `ClosedBlockOf`, `UnclosedBlockOf` and `ContextOf` describe a
  whole block.

The lemmas connect the two descriptions. The classifier is also stated
twice: as the source's `if` chain (`Classify`), and as a table of
independent conditions that is read first-match (`FactsOf`, `Table`,
`FirstMatch`).

Four behaviours of `parse_conflicts.py` are easy to miss, and the model
reproduces each of them as written:

- **Context may hold marker lines.** The context on either side of a
  block is a plain slice of the neighbouring lines (lines 101-104), so it
  can contain another block's markers (`Scanner.ContextMayHoldMarkers`).
  The comment above that slice says marker lines are filtered out; the
  code does not filter them.
- **Every base marker switches the section.** Line 88 sets the section to
  base on every base marker, including one after `=======`. The lines that
  follow such a marker go to base, not theirs
  (`Scanner.BaseAfterSeparatorExample`).
- **An unclosed block has no base text.** The record built at lines
  136-149 has no base text even when a base marker was seen, although its
  `hasBase` flag is true.
- **An empty ours side is `ours_deleted`.** Lines 178-179 return
  `ours_deleted` when ours has no non-blank line. So ours `""` against
  theirs `"line1"` is tagged `ours_deleted`
  (`Classifier.EmptySideIsDeleted`).

## Model

All source paths are in `plugins/git-conflict-resolver/scripts/`.

| member | source | states |
|---|---|---|
| Text.TrimStartSpec | plugins/git-conflict-resolver/scripts/parse_conflicts.py:74 | trimming the front removes exactly the leading run of whitespace, and what is left does not start with whitespace |
| Text.TrimEndSpec | plugins/git-conflict-resolver/scripts/parse_conflicts.py:74 | trimming the back removes exactly the trailing run of whitespace, and what is left does not end with whitespace |
| Text.StripSpec | plugins/git-conflict-resolver/scripts/parse_conflicts.py:167-171 | `strip()` keeps an infix with no whitespace at either end; everything cut away on either side is whitespace |
| Text.StripEmptyIffAllSpace | plugins/git-conflict-resolver/scripts/parse_conflicts.py:167 | `not s.strip()` holds exactly when every character of `s` is whitespace |
| Text.StripPadded | plugins/git-conflict-resolver/scripts/parse_conflicts.py:171 | whitespace added around a text that neither starts nor ends with whitespace is exactly what `strip()` removes |
| Text.StripIdempotent | plugins/git-conflict-resolver/scripts/parse_conflicts.py:174-175 | stripping a stripped line changes nothing |
| Text.CrToLf | plugins/git-conflict-resolver/scripts/parse_conflicts.py:66 | after `replace("\r", "\n")` no CR is left, every other character keeps its place, and LF stands exactly where the input had CR or LF |
| Text.CrToLfLineBreaks | plugins/git-conflict-resolver/scripts/parse_conflicts.py:66-67 | each CR becomes one more LF, so the later split sees one more piece per CR |
| Text.Normalize | plugins/git-conflict-resolver/scripts/parse_conflicts.py:66 | no CR is left after normalisation |
| Text.NormalizeIsUniversalNewlines | plugins/git-conflict-resolver/scripts/parse_conflicts.py:66 | the two-pass replace equals one left-to-right pass that turns each CRLF pair or lone CR into one LF |
| Text.NormalizeWithoutCr | plugins/git-conflict-resolver/scripts/parse_conflicts.py:66 | text without CR is left unchanged by normalisation |
| Text.Split | plugins/git-conflict-resolver/scripts/parse_conflicts.py:67 | `split("\n")` gives one more piece than there are LFs |
| Text.SplitHasNoNewline | plugins/git-conflict-resolver/scripts/parse_conflicts.py:67 | no piece of a split contains LF |
| Text.JoinSplit | plugins/git-conflict-resolver/scripts/parse_conflicts.py:67 | joining the pieces of a split with LF gives back the text |
| Text.SplitJoin | plugins/git-conflict-resolver/scripts/parse_conflicts.py:112-113 | splitting the LF-join of one or more LF-free lines gives back the lines, so `ours.split("\n")` recovers a section that has at least one line (an empty section joins to `""`, which splits to `[""]`) |
| Text.AllSpaceJoin | plugins/git-conflict-resolver/scripts/parse_conflicts.py:167 | joined text is all whitespace exactly when each line is |
| Text.LineCountAfterNormalize | plugins/git-conflict-resolver/scripts/parse_conflicts.py:66-67 | the scanner sees one more line than the raw text has line breaks of any flavour (a CRLF pair counts once) |
| Text.CountUniversal | plugins/git-conflict-resolver/scripts/parse_conflicts.py:66 | normalised text has one LF per line break of the raw text |
| Blocks.TagNameInjective | plugins/git-conflict-resolver/scripts/parse_conflicts.py:157-217 | distinct tags are reported under distinct names |
| Scanner.MarkerIsGlyphOrGlyphSpace | plugins/git-conflict-resolver/scripts/parse_conflicts.py:73 | a marker line is the seven-character glyph alone, or the glyph followed by a space |
| Scanner.SeparatorIsSeparatorLine | plugins/git-conflict-resolver/scripts/parse_conflicts.py:91 | the separator is exactly `=======` and has no label form |
| Scanner.MarkerLabel | plugins/git-conflict-resolver/scripts/parse_conflicts.py:74 | the label is a stretch of the line after the seven glyph characters that neither starts nor ends with whitespace, with only whitespace between it and the glyph and between it and the end of the line; a bare marker has an empty label |
| Scanner.ScanBody | plugins/git-conflict-resolver/scripts/parse_conflicts.py:85-132 | where the inner loop stops is a closing-marker line at or after its start |
| Scanner.ScanBodyStopsAtFirstClose | plugins/git-conflict-resolver/scripts/parse_conflicts.py:95-98 | the inner loop stops at the first closing marker, and runs off the end only when there is none |
| Scanner.Step | plugins/git-conflict-resolver/scripts/parse_conflicts.py:86-131 | one non-closing line of the inner loop; `Scanner.ExpectedStep` states that it turns the reference description of an interior into that of the interior one line longer |
| Scanner.ExpectedStep | plugins/git-conflict-resolver/scripts/parse_conflicts.py:86-131 | one non-closing line changes the gathered sections as the reference description of the longer interior says |
| Scanner.ScanBodyMeetsExpected | plugins/git-conflict-resolver/scripts/parse_conflicts.py:83-132 | what the inner loop gathers is the reference description of the interior it walked: the lines of each section chosen by the nearest marker before them, and whether a base marker occurred |
| Scanner.SectionsPartition | plugins/git-conflict-resolver/scripts/parse_conflicts.py:124-131 | every interior line is a section marker or lands in exactly one of ours, base and theirs: nothing lost, nothing counted twice |
| Scanner.OneSeparatorRoundTrip | plugins/git-conflict-resolver/scripts/parse_conflicts.py:91-94 | with one separator and no base marker, ours, then `=======`, then theirs is exactly the interior |
| Scanner.BaseMarkerAlwaysSwitches | plugins/git-conflict-resolver/scripts/parse_conflicts.py:86-90 | the line after any base marker, even one after the separator, is a base line of the interior and joins neither ours nor theirs, unless it is itself a section marker |
| Scanner.Regions | plugins/git-conflict-resolver/scripts/parse_conflicts.py:71-152 | every region the outer loop finds opens at an opening marker at or after where the scan started, and closes, if at all, at a later closing marker |
| Scanner.ParseConflictBlocks | plugins/git-conflict-resolver/scripts/parse_conflicts.py:62-154 | the parser end to end: normalise, split, run the two loops and build one record per region; what the records are is stated by `Scanner.BlockFaithful`, `Scanner.ClosedBlockContext`, `Scanner.BlocksDisjoint`, `Scanner.BlocksCover` and `Scanner.NoBlocksIffNoOpeningMarker` |
| Scanner.Closed | plugins/git-conflict-resolver/scripts/parse_conflicts.py:95-119 | the record for a closed region; its fields are stated by `Scanner.ClosedBlockFaithful` and `Scanner.ClosedBlockContext` |
| Scanner.Unclosed | plugins/git-conflict-resolver/scripts/parse_conflicts.py:135-149 | the record for an opener that is never closed; its fields are stated by `Scanner.UnclosedBlockFaithful` |
| Scanner.Assemble | plugins/git-conflict-resolver/scripts/parse_conflicts.py:121-122 | one block record per region |
| Scanner.Lines | plugins/git-conflict-resolver/scripts/parse_conflicts.py:66-67 | there is at least one line, and no line holds CR or LF |
| Scanner.RegionsFaithful | plugins/git-conflict-resolver/scripts/parse_conflicts.py:71-132 | every region ends at the first closing marker after its opening one (or runs to the end) and holds what its interior calls for |
| Scanner.RegionsSequential | plugins/git-conflict-resolver/scripts/parse_conflicts.py:121-123 | only the last region can lack a closing marker, and each region opens after the previous one closes |
| Scanner.RegionsCover | plugins/git-conflict-resolver/scripts/parse_conflicts.py:71-73 | every opening marker lies inside some region |
| Scanner.NoOpenerNoRegions | plugins/git-conflict-resolver/scripts/parse_conflicts.py:71-73 | lines without an opening marker yield no region |
| Scanner.ClosedBlockFaithful | plugins/git-conflict-resolver/scripts/parse_conflicts.py:95-119 | a closed region's record has the marker line numbers, the labels, the section texts, `hasBase` exactly when a base marker occurred, and base text only then |
| Scanner.ClosedBlockContext | plugins/git-conflict-resolver/scripts/parse_conflicts.py:100-104 | a closed record's context is the up to three lines right before and right after it, clamped to the text |
| Scanner.UnclosedBlockFaithful | plugins/git-conflict-resolver/scripts/parse_conflicts.py:135-149 | an unclosed region's record runs to the last line, has no closing label, no context and no base text, carries the error and is tagged `complex` |
| Scanner.BlockFaithful | plugins/git-conflict-resolver/scripts/parse_conflicts.py:62-154 | block `j` has index `j` and is a faithful closed block, or else it is the last block and a faithful unclosed one |
| Scanner.BlocksDisjoint | plugins/git-conflict-resolver/scripts/parse_conflicts.py:97-123 | every block but the last is closed, starts before it ends, and ends before the next one starts |
| Scanner.BlocksCover | plugins/git-conflict-resolver/scripts/parse_conflicts.py:71-73 | every opening-marker line lies within some block's line span |
| Scanner.NoBlocksIffNoOpeningMarker | plugins/git-conflict-resolver/scripts/parse_conflicts.py:71-73 | a text yields no block exactly when none of its lines is an opening marker |
| Scanner.NestedExampleRegions | plugins/git-conflict-resolver/scripts/parse_conflicts.py:85-132 | the inner loop walks straight over a second opening marker |
| Scanner.NestedOpeningMarkerIsContent | plugins/git-conflict-resolver/scripts/parse_conflicts.py:85-132 | a nested opening marker is ordinary ours content of one single block |
| Scanner.BaseAfterSeparatorExample | plugins/git-conflict-resolver/scripts/parse_conflicts.py:86-94 | a base marker after the separator moves the following lines from theirs to base |
| Scanner.ContextMayHoldMarkers | plugins/git-conflict-resolver/scripts/parse_conflicts.py:100-104 | with two adjacent blocks, the context after the first is the marker lines of the second |
| Scanner.UnclosedExample | plugins/git-conflict-resolver/scripts/parse_conflicts.py:135-149 | an opening marker with nothing closing it yields one `complex` block that runs to the last line |
| Patterns.IsImportLine | plugins/git-conflict-resolver/scripts/parse_conflicts.py:184-187 | the import regex as split points; what it admits is stated by `Patterns.ImportLineKeywords`, `Patterns.NoKeywordIsNotImport`, `Patterns.ExportFromLine` and `Patterns.ConstRequireLine` |
| Patterns.ImportLineKeywords | plugins/git-conflict-resolver/scripts/parse_conflicts.py:184-187 | an import line starts with one of the keywords the pattern names |
| Patterns.ExportFromLine | plugins/git-conflict-resolver/scripts/parse_conflicts.py:185 | `export <names> from <module>` matches the import pattern whatever names it lists on one line |
| Patterns.ReExportIsImport | plugins/git-conflict-resolver/scripts/parse_conflicts.py:185 | `export { a } from './a'` matches the import pattern |
| Patterns.ConstRequireLine | plugins/git-conflict-resolver/scripts/parse_conflicts.py:186 | `const <binding> = require…` matches the import pattern for any one-line binding that starts with a word character or `{` |
| Patterns.ConstRequireIsImport | plugins/git-conflict-resolver/scripts/parse_conflicts.py:186 | `const { b } = require('b')` matches the import pattern |
| Patterns.NoKeywordIsNotImport | plugins/git-conflict-resolver/scripts/parse_conflicts.py:184-187 | a line that starts with none of the pattern's keywords does not match, the contrapositive of `Patterns.ImportLineKeywords` |
| Patterns.ReturnIsNotImport | plugins/git-conflict-resolver/scripts/parse_conflicts.py:184-187 | the line `return a` does not match |
| Patterns.IsVersionLine | plugins/git-conflict-resolver/scripts/parse_conflicts.py:212 | the version regex as split points; what it admits is stated by `Patterns.QuotedPairIsVersionLine` and `Patterns.UnquotedIsNotVersionLine` |
| Patterns.QuotedPairIsVersionLine | plugins/git-conflict-resolver/scripts/parse_conflicts.py:212 | a quoted key, a colon and a quoted value that starts like a version range match the version pattern |
| Patterns.UnquotedIsNotVersionLine | plugins/git-conflict-resolver/scripts/parse_conflicts.py:212 | a line with no double quote never matches the version pattern |
| Patterns.VersionLineExamples | plugins/git-conflict-resolver/scripts/parse_conflicts.py:212 | a manifest dependency line matches the version pattern and a bare word does not |
| Classifier.StripNonBlank | plugins/git-conflict-resolver/scripts/parse_conflicts.py:174-175 | the kept lines are non-empty and no more than the input lines; which lines are kept is fixed by `Classifier.StripNonBlankSingle` and `Classifier.StripNonBlankAppend` |
| Classifier.StripNonBlankSingle | plugins/git-conflict-resolver/scripts/parse_conflicts.py:174-175 | one line is kept, as its strip, exactly when it is not all whitespace |
| Classifier.StripNonBlankAppend | plugins/git-conflict-resolver/scripts/parse_conflicts.py:174-175 | lines are kept or dropped one at a time and in order: the kept lines of two stretches of lines, concatenated, are the kept lines of the concatenation |
| Classifier.StripNonBlankEmpty | plugins/git-conflict-resolver/scripts/parse_conflicts.py:174-175 | no line is kept exactly when every line is all whitespace |
| Classifier.NonBlankEmptyIffAllSpace | plugins/git-conflict-resolver/scripts/parse_conflicts.py:174-181 | a side has no non-blank lines exactly when it is all whitespace |
| Classifier.StripNonBlankStripped | plugins/git-conflict-resolver/scripts/parse_conflicts.py:174-175 | every kept line is already stripped |
| Classifier.NonBlankLinesOfJoin | plugins/git-conflict-resolver/scripts/parse_conflicts.py:174-175 | the non-blank lines of LF-joined lines are those lines, stripped, with blank ones dropped |
| Classifier.Classify | plugins/git-conflict-resolver/scripts/parse_conflicts.py:157-217 | the ten-step `if` chain; `Classifier.ClassifyIsFirstMatch` states it is the first-match reading of the rule table over conditions stated on their own, `Classifier.ClassifySound` what each tag implies, and `Classifier.ClassifySwap` its symmetry between the sides |
| Classifier.WithinGrowth | plugins/git-conflict-resolver/scripts/parse_conflicts.py:201-204 | the size guard `len(larger) <= len(smaller) * 1.3 + 5` in exact arithmetic; `Classifier.AddedLineIsTheirsSuperset`, `Classifier.GuardRejectsRewrite` and `Classifier.OneAgainstSevenIsComplex` show it admitting and rejecting |
| Classifier.FirstMatch | plugins/git-conflict-resolver/scripts/parse_conflicts.py:157-217 | the first-match result is the default or the tag of some rule that holds |
| Classifier.FirstMatchAt | plugins/git-conflict-resolver/scripts/parse_conflicts.py:157-217 | the first rule that holds decides the tag |
| Classifier.ProperSubset | plugins/git-conflict-resolver/scripts/parse_conflicts.py:196-203 | "ours within theirs and not theirs within ours" is proper multiset inclusion |
| Classifier.TableFirstMatch | plugins/git-conflict-resolver/scripts/parse_conflicts.py:157-217 | the rule table read first-match is the fixed priority order of the ten rules |
| Classifier.ClassifyIsFirstMatch | plugins/git-conflict-resolver/scripts/parse_conflicts.py:157-217 | the classifier returns the tag of the first rule of the table whose condition holds; the conditions are stated independently (all-whitespace sides, proper multiset inclusion) |
| Classifier.ClassifySound | plugins/git-conflict-resolver/scripts/parse_conflicts.py:157-217 | each tag carries its facts: `both_empty` and `whitespace` exactly when their conditions hold; a deletion has one blank and one non-blank side; a superset is a proper multiset inclusion within the size guard; a reorder has equal multisets but different stripped text; `version_diff` has different multisets |
| Classifier.FactsOfSwap | plugins/git-conflict-resolver/scripts/parse_conflicts.py:157-217 | exchanging the sides exchanges the one-sided conditions (which side is blank, which side grows) and leaves the others as they were |
| Classifier.ClassifySwap | plugins/git-conflict-resolver/scripts/parse_conflicts.py:157-217 | exchanging ours and theirs only exchanges which side the tag names |
| Classifier.PlainJoin | plugins/git-conflict-resolver/scripts/parse_conflicts.py:167-175 | text joined from stripped non-blank lines is its own strip, is not blank, and has exactly those lines as its non-blank lines |
| Classifier.AddedLineIsTheirsSuperset | plugins/git-conflict-resolver/scripts/parse_conflicts.py:193-202 | appending one line to the other side gives `theirs_superset` unless every line of both sides is an import: n + 1 lines are always within the size guard of n |
| Classifier.GuardRejectsRewrite | plugins/git-conflict-resolver/scripts/parse_conflicts.py:199-217 | a proper superset beyond the size guard falls through to `complex` when the lines are neither imports nor version lines |
| Classifier.PermutedLinesAreReorder | plugins/git-conflict-resolver/scripts/parse_conflicts.py:207-209 | the same lines in another order give `reorder`, unless every line is an import, which lines 188-190 tag `import_order` first |
| Classifier.PermutedImportsAreImportOrder | plugins/git-conflict-resolver/scripts/parse_conflicts.py:183-209 | the same lines in another order, all of them imports, give `import_order`, because lines 188-190 come before the reorder test |
| Classifier.SameLinesInOrderIsReorder | plugins/git-conflict-resolver/scripts/parse_conflicts.py:171-209 | sides with equal non-blank lines in the same order, differing by more than surrounding whitespace, give `reorder`, unless every line is an import, which lines 188-190 tag `import_order` first |
| Classifier.SupersetCountsDuplicates | plugins/git-conflict-resolver/scripts/parse_conflicts.py:193-202 | ours `[a, a, b]` against theirs `[a, a, b, c]` gives `theirs_superset` |
| Classifier.OneAgainstSevenIsComplex | plugins/git-conflict-resolver/scripts/parse_conflicts.py:199-217 | one line against itself plus six or more others gives `complex`, not a superset, when the line is neither an import nor a version line (7 > 1 × 1.3 + 5) |
| Classifier.SwappedLinesAreReorder | plugins/git-conflict-resolver/scripts/parse_conflicts.py:207-209 | `[a, b]` against `[b, a]` gives `reorder` |
| Classifier.PaddingIsWhitespace | plugins/git-conflict-resolver/scripts/parse_conflicts.py:171-172 | a line with any whitespace around it, against the bare line, gives `whitespace` |
| Classifier.SurroundingSpaceIsWhitespace | plugins/git-conflict-resolver/scripts/parse_conflicts.py:171-172 | `"  foo  "` against `"foo"` gives `whitespace` |
| Classifier.BlankSideIsDeleted | plugins/git-conflict-resolver/scripts/parse_conflicts.py:167-181 | a blank side against a non-blank one gives the deletion tag of the blank side, whichever side it is; against another blank side it gives `both_empty` |
| Classifier.EmptySideIsDeleted | plugins/git-conflict-resolver/scripts/parse_conflicts.py:167-181 | an empty ours against `"line1"` gives `ours_deleted`, the reverse gives `theirs_deleted`, and two blank sides give `both_empty` |
| Report.IsAuto | plugins/git-conflict-resolver/scripts/parse_conflicts.py:363-366 | the six tags counted as automatic; `Report.TotalsPartition` states that every tag is counted on exactly one side |
| Report.IsAutoByName | plugins/git-conflict-resolver/scripts/parse_conflicts.py:363-367 | testing a tag's spelling against the set of six automatic names, as line 367 does, is testing the tag itself, because distinct tags are spelled differently |
| Report.Classified | plugins/git-conflict-resolver/scripts/parse_conflicts.py:358-360 | afterwards the block has a tag: an untagged block gets the tag `Classify` gives it, a block that arrived tagged is left as it was, and nothing else about the block changes |
| Report.ClassifyAll | plugins/git-conflict-resolver/scripts/parse_conflicts.py:358-360 | every block is tagged; a preset tag (that of an unclosed block) is kept; the others get the classifier's tag; nothing else changes |
| Report.TotalsPartition | plugins/git-conflict-resolver/scripts/parse_conflicts.py:363-368 | every tag is counted exactly once, as automatic or as needing a decision |
| Report.CountAuto | plugins/git-conflict-resolver/scripts/parse_conflicts.py:363-367 | the block-by-block count equals the number of tags in the automatic set, counted tag by tag |
| Report.Tally | plugins/git-conflict-resolver/scripts/parse_conflicts.py:358-368 | the remainder `len(blocks) - auto_count` is exactly the number of `complex`, `ours_deleted`, `theirs_deleted` and `version_diff` blocks |
| Report.AnalyzeText | plugins/git-conflict-resolver/scripts/parse_conflicts.py:357-371 | one file: the blocks are exactly the parsed blocks with their tags filled in, an unclosed block stays `complex`, the two counts split the blocks by tag, and the line total is the LF count of the text plus one, which for a text without CR is the number of lines the scanner walks |

## Left out

- Git plumbing is not modelled: `get_git_dir`, `get_conflict_files`, `detect_merge_type` and `get_branch_names` call subprocesses and read the filesystem.
- File handling in `main` is not modelled. This covers the binary sniff, the lock-file name check, reading a file with replacement-character decoding, the encoding warning, JSON printing and exit codes. `Report.AnalyzeText` takes the text as a parameter.
- Report.AnalyzeText: the newline translation of the text-mode reader (line 345) is not modelled. The text is taken as given. For a text that still holds CR, the line total counts LFs only, while the scanner also breaks lines at CR. In the program the reader has already turned every CRLF and CR into LF, and then the two agree, as the contract states for a text without CR.
- The summary totals across files are not modelled. They are sums of the per-file counts.
- Patterns.IsImportLine: `\w` is taken as the ASCII word characters `[A-Za-z0-9_]`. Python's Unicode `\w` also admits non-ASCII letters and digits after `const `.
- Patterns.IsVersionLine: the same ASCII reading of `\w` applies to the first character of the version.
- Classifier.WithinGrowth: the guard `len(a) <= len(b) * 1.3 + 5` is stated exactly, as `10·a ≤ 13·b + 50`. The source compares floating-point numbers. The two agree unless line counts approach 2^53, where the float product rounds.
- Text.IsSpace: whitespace is the fixed set Python's `str.strip` and `\s` use for `str`. Strings are sequences of Unicode scalar values, and undecodable bytes have already been replaced by the reader, which is not modelled.
- `plugins/pm-proto-builder/templates/vue/src/router.js` is not part of this model. It is a router template with no logic.
