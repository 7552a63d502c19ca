# Documentation-comment sorter, modelled in Dafny

This project models the core of a C# utility that normalizes `///` documentation-comment
blocks. The utility reads a C# source file line by line. It copies every line outside a block
unchanged. For each block it does the following:

- It routes every line into one of six sections: summary, remarks, typeparam, param (which
  also receives `value`), returns and exception.
- It repairs `<remark>`/`<return>` synonyms, lone `</remark>`/`</return>` closing tags and
  doubled `/// ///` markers. Each repair is always reported; the text changes only when
  renaming is enabled.
- It drops configured empty elements such as `/// <returns></returns>`.
- It writes the sections back in that fixed order. A trailing
  `// ReSharper disable once Unused…` line is moved to the very end.
- It reports the block as changed exactly when the result differs from the lines read.

The modules follow the three source files:

- `options.dfy` (`Options`): the option record of `SortUtilityOptions.cs` with its defaults,
  its derived "effective" flags and its small predicates.
- `runtime.dfy` (`Runtime`): the per-file state of `RuntimeData.cs` as a class. The file's
  `StreamReader` is a `LineReader` cursor over `seq<string>`. The output list is a `LineList`
  that is only appended to.
- `dotnet_text.dfy` (`DotNetText`) and `patterns.dfy` (`Patterns`): the .NET string operations
  the sorter uses, and its four regular expressions written as string predicates.
- `routing.dfy` (`Routing`) and `renaming.dfy` (`Renaming`): what the block loop does with ONE
  line (repair, classification, elision, target section), as a pure function `RouteLine`,
  with lemmas for every branch.
- `blocks.dfy` (`Blocks`): one block as a fold (`Scan`) over its routed lines, the block's
  extent, the reassembly (`Assemble`) and the block outcome (`ProcessBlock`). It also holds
  the lemmas on section order, conservation and the change verdict.
- `filescan.dfy` (`FileScan`): the file loop as a function `SortFrom`, with the identity and
  conservation lemmas at file level.
- `warnings.dfy` (`Warnings`): the warn-once discipline of the warning helpers.
- `sorter.dfy` (`Sorter`): the imperative sorter class. `ProcessDocumentationBlock` and
  `SortDocumentationComments` run `while` loops over a `RuntimeData` object. They are proved
  equal to the functions of `Blocks` and `FileScan`.

Line `k` (0-based) of a file is line number `k + 1`, as in the source's `CurrentLineNumber`.

## Model

| member | source | states |
|---|---|---|
| `Options.Defaults` | SortUtilityOptions.cs:24-67 | RemoveEmptyBlocks, RenameInvalidElements and VerboseMode default to true; RemoveEmptyRemarks, RemoveEmptyReturns, RemoveEmptyValueTags, UpdateFiles, QuietMode and RecurseDirectories default to false; no input path is set |
| `Options.UmbrellaRemoval` | SortUtilityOptions.cs:120-121 | RemoveEmptyBlocks switches on all three empty-element removals; without it, each removal follows its own flag |
| `Options.QuietOverridesVerbose` | SortUtilityOptions.cs:125-126 | effective verbose is off in quiet mode and otherwise equals VerboseMode |
| `Options.DefaultsRemoveAllEmptyElements` | SortUtilityOptions.cs:31-35 | with the default options, every empty-element removal is in effect and output is verbose |
| `Options.PathHasWildcard` | SortUtilityOptions.cs:93-96 | true iff the path contains `*` or `?` |
| `Options.Validate` | SortUtilityOptions.cs:139-148 | true iff an input path is given and it holds a character that is not white space |
| `Options.BoolToEnabledDisabled` | SortUtilityOptions.cs:74-77 | "Enabled" exactly for true and "Disabled" exactly for false |
| `DotNetText.ReplaceFirst` | DocCommentSortUtilty.cs:426-430 | only the first occurrence of the pattern is replaced (none starts before the replaced index); the text is unchanged when the pattern does not occur |
| `Patterns.ElementName` | DocCommentSortUtilty.cs:19 | a matched element name is a non-empty run of characters other than space, `/` and `>`, on a line that opens with blanks and `///` |
| `Patterns.LastClosingIndex` | DocCommentSortUtilty.cs:21 | the greedy `.+` of the invalid-closing pattern selects the LAST `</remark>` or `</return>` after the marker, and none of them lies between it and the end of the line |
| `Patterns.InvalidClosingName` | DocCommentSortUtilty.cs:21 | a match names `remark` or `return`, on a line that opens with blanks and `///` |
| `Patterns.MarkerSurvivesTrim` | DocCommentSortUtilty.cs:333 | a line matching the element pattern also starts with `///` after TrimStart |
| `Patterns.TripleSlashIsNotComment` | DocCommentSortUtilty.cs:15 | a line that starts with `///` after TrimStart never matches the plain-comment pattern |
| `Patterns.ScopeIsComment` | DocCommentSortUtilty.cs:15-17 | every commented-out declaration also matches the plain-comment pattern |
| `Routing.DoubledMarkerRepair` | DocCommentSortUtilty.cs:234-242 | the first `/// ///` of a doubled-marker line sits right after its leading white space; collapsing it to `///` keeps that white space and leaves a `///` line |
| `Routing.DoubledMarkerIsReported` | DocCommentSortUtilty.cs:581-592 | a doubled marker is reported first among the line's warnings, whether renaming is on or off, and the warning shows the repaired, trimmed line |
| `Routing.SynonymIsReported` | DocCommentSortUtilty.cs:43-45 | a line opening `<remark>` or `<return>` is reported as a misnamed `remarks`/`returns`, whether renaming is on or off |
| `Routing.LoneClosingTagRepair` | DocCommentSortUtilty.cs:333-350 | a `///` line with no element but a lone `</remark>`/`</return>` stays in the current section; every closing tag of that name gets the plural only when renaming is on; it is reported as a closing tag either way |
| `Routing.TextChangesOnlyWhenRenaming` | DocCommentSortUtilty.cs:47-56 | RouteLine: a line's text changes only when renaming is on, and every change comes with a warning; with renaming off every line keeps its text |
| `Routing.RouteElementSections` | DocCommentSortUtilty.cs:263-318 | only summary, typeparam/typeparamref, param/paramref/value, remarks/remark, returns/return and exception open a section (the one SectionOf names), and each of them does unless elided |
| `Routing.RouteElementOthers` | DocCommentSortUtilty.cs:290-330 | example/inheritdoc/para/see and unknown names stay in the current section unchanged; only names outside both tables are reported as unrecognized |
| `Routing.RouteElementElides` | DocCommentSortUtilty.cs:59-86 | IsEmptyBlockToSkip: an element line is dropped iff its (renamed) trimmed text is the empty form of the name as matched and the options remove that element |
| `Routing.ElementRouting` | DocCommentSortUtilty.cs:259-331 | RouteLine: for a whole raw line, an opened section is the one SectionOf names for the line's element, a section element opens or is elided, any other element stays in the current section, and an unknown one is reported after any doubled-marker warning |
| `Routing.ElisionRule` | DocCommentSortUtilty.cs:59-63 | a raw line is elided iff it is an element line whose text is the empty form of the name as matched, under the options' removal switches |
| `Routing.ElisionFollowsEffectiveFlags` | DocCommentSortUtilty.cs:76-85 | the removal test consults exactly RemoveEmptyRemarks/Returns/ValueTags, each or-ed with RemoveEmptyBlocks |
| `Routing.EmptyFormIsElided` | DocCommentSortUtilty.cs:69-81 | the empty form of a removable element is skipped however much white space indents it |
| `Routing.TerminatorIsVerbatim` | DocCommentSortUtilty.cs:352-363 | RouteLine: a line ends the block iff it is non-empty, not a plain comment and does not start with `///` after TrimStart (a white-space line qualifies); such a line keeps its text and raises no warning |
| `Routing.ScopeCommentStops` | DocCommentSortUtilty.cs:250-258 | a line is appended and stops the block iff it is a commented-out declaration; it keeps its text and raises no warning |
| `Routing.BlockLineStaysInBlock` | DocCommentSortUtilty.cs:465-474 | a line that starts a block (`///` after TrimStart) neither ends nor stops it |
| `Routing.ReportingOptionsDoNotRoute` | DocCommentSortUtilty.cs:232-363 | only the rename flag and the four removal flags influence a line; verbose, quiet, update, recursion and the path never do |
| `Renaming.RenamedSectionElement` | DocCommentSortUtilty.cs:43-67 | RouteSectionElement (HandleElement): with renaming on, a `remark`/`return` line has both tags renamed, is reported, and opens its section; it is never elided, even when it was the empty form of the synonym |
| `Renaming.RenamedIsNotEmptyForm` | DocCommentSortUtilty.cs:49-59 | after both tags of a synonym are renamed, the line's trimmed text can no longer be the synonym's empty form |
| `Renaming.UnrenamedSynonymElision` | DocCommentSortUtilty.cs:59-80 | RouteSectionElement (HandleElement): with renaming off, a synonym line keeps its text, is reported, and is elided iff it is the synonym's empty form and its removal switch is on |
| `Blocks.BlockExtentEnds` | DocCommentSortUtilty.cs:352-371 | a block ends at a terminator line, after a commented-out declaration, or at the end of the input |
| `Blocks.BlockExtentScope` | DocCommentSortUtilty.cs:232-377 | no line before a block's end is a terminator, and none before its last line stops it |
| `Blocks.ProcessBlock` | DocCommentSortUtilty.cs:211-424 | the lines read are the file from the block's start up to its end, the terminator being handed back as the next line; the block is changed iff the lines written differ from the lines read |
| `Blocks.TerminatorIsSilent` | DocCommentSortUtilty.cs:352-363 | the line that ends a block raises no warning |
| `Blocks.BlockStartIsConsumed` | DocCommentSortUtilty.cs:222-227 | the line that starts a block is the first line read into it |
| `Blocks.CurrentIsLastOpened` | DocCommentSortUtilty.cs:220 | Scan/Step: the current section is the one opened last, Summary at first; elided lines, comments and the end of the block never change it |
| `Blocks.BucketContents` | DocCommentSortUtilty.cs:246-351 | Scan/Step: each section holds exactly the kept lines routed to it, in the order they were read |
| `Blocks.SortedLinesStayInPlace` | DocCommentSortUtilty.cs:393-398 | Scan/Step: lines already routed in section order, none elided and a commented-out declaration allowed, come back in the order they were read |
| `Blocks.AssemblePermutes` | DocCommentSortUtilty.cs:379-403 | Assemble: moving the suppression line to the end keeps the same lines |
| `Blocks.RelocationMovesToEnd` | DocCommentSortUtilty.cs:381-403 | Assemble: a relocated suppression line is the last line written, preceded by the sections without it, and the block keeps its length |
| `Blocks.ScanConserves` | DocCommentSortUtilty.cs:232-377 | every line of a block lands in exactly one section or is elided; none is duplicated or invented |
| `Blocks.BlockConservation` | DocCommentSortUtilty.cs:393-407 | the lines written are the lines read (after repair) less the elided ones, as multisets |
| `Blocks.BlockNeverGrows` | DocCommentSortUtilty.cs:224-227 | a block written back is as long as the block read less its elided lines |
| `Blocks.BlockIsPermutationWithoutRenaming` | DocCommentSortUtilty.cs:376 | when no line of the block had its text repaired, the lines written plus the elided ones are the lines read; with none elided, the output is a permutation of the input |
| `Blocks.RoutedTextUnchanged` | DocCommentSortUtilty.cs:238-241 | with renaming off, every routed line keeps the text it was read with |
| `Blocks.SortedBlockComesBack` | DocCommentSortUtilty.cs:379-403 | Scan/Step and Assemble: lines routed in section order are written back exactly as read, a suppression line that ends the block included |
| `Blocks.SortedBlockUnchanged` | DocCommentSortUtilty.cs:405 | a block already in section order, with no repair and no elision, is reported unchanged, including one that ends in a suppression line or a commented-out declaration |
| `FileScan.BlockSplitsFile` | DocCommentSortUtilty.cs:474-480 | a block, the line that ended it (if one was read) and the rest of the file make up the file from the block on |
| `FileScan.OutputNeverLonger` | DocCommentSortUtilty.cs:454-481 | SortFrom/SortFile: sorting never makes the file longer |
| `FileScan.UnchangedIffIdentity` | DocCommentSortUtilty.cs:476-477 | SortFrom/SortFile: no block is counted as updated iff the output equals the input lines |
| `FileScan.NoDocCommentsNoChange` | DocCommentSortUtilty.cs:459-469 | a file without `///` lines is copied unchanged, with no update and no warning |
| `FileScan.NothingInventedWithoutRenaming` | DocCommentSortUtilty.cs:454-481 | when no line is repaired, every line written was read |
| `FileScan.SortingOnlyDropsLinesWithoutRenaming` | DocCommentSortUtilty.cs:47-56 | with renaming off, the file written is a sub-multiset of the file read |
| `FileScan.RewriteOnlyOnChange` | DocCommentSortUtilty.cs:489-510 | the file is rewritten iff updating is enabled and sorting changed its content |
| `Warnings.EveryDiagnosticReported` | DocCommentSortUtilty.cs:574-592 | every diagnostic gets its line-numbered detail warning, once and in order |
| `Warnings.FormatHeaderOnce` | DocCommentSortUtilty.cs:566-572 | the invalid-format/invalid-element header is printed at most once per file, by the first such diagnostic, under one shared flag |
| `Warnings.UnrecognizedHeaderOnce` | DocCommentSortUtilty.cs:320-327 | the unrecognized-element header is printed at most once per file, before the first such diagnostic |
| `Runtime.LineReader.ReadLine` | DocCommentSortUtilty.cs:370-374 | reading returns the line at the cursor and advances the cursor by one |
| `Runtime.LineList.AddRange` | DocCommentSortUtilty.cs:407 | the added lines follow the previous contents |
| `Runtime.LineList.Add` | DocCommentSortUtilty.cs:479-480 | the added line follows the previous contents |
| `Runtime.RuntimeData.constructor` | RuntimeData.cs:32-44 | the counters are 0, the first line is empty, the next line is absent, both warn flags are false, and the reader, path and output list are the caller's |
| `Sorter.DocCommentSortUtility.constructor` | DocCommentSortUtilty.cs:29-32 | the sorter keeps the caller's options and starts with no warnings |
| `Sorter.DocCommentSortUtility.ListsMatch` | DocCommentSortUtilty.cs:94-107 | true iff both lists have the same length and the same string at every index |
| `Sorter.DocCommentSortUtility.WarnInvalidElementName` | DocCommentSortUtilty.cs:566-579 | the header only while the shared flag is off, then the detail; the flag is set afterwards |
| `Sorter.DocCommentSortUtility.WarnInvalidFormat` | DocCommentSortUtilty.cs:581-593 | the same warn-once discipline on the same shared flag |
| `Sorter.DocCommentSortUtility.WarnUnrecognizedElement` | DocCommentSortUtilty.cs:320-327 | the header only while the unrecognized flag is off, then the detail |
| `Sorter.DocCommentSortUtility.RouteCurrentLine` | DocCommentSortUtilty.cs:244-263 | the line just read is classified as RouteLine classifies line `j`, numbered `j + 1` |
| `Sorter.DocCommentSortUtility.HandleLine` | DocCommentSortUtilty.cs:246-368 | after placing line `j`, the sections, current section and last non-blank line are those of the block's lines up to `j` |
| `Sorter.DocCommentSortUtility.AssembleBlock` | DocCommentSortUtilty.cs:379-403 | the lines written are the sections in fixed order, with a trailing suppression line moved to the end |
| `Sorter.DocCommentSortUtility.ReadBlockLine` | DocCommentSortUtilty.cs:232-377 | one pass of the block loop: a terminator is handed back in NextLine and dropped from the lines read; any other line is placed; the loop goes on only within the block's extent |
| `Sorter.DocCommentSortUtility.ReadBlock` | DocCommentSortUtilty.cs:211-377 | the block loop reads exactly the block's extent, leaves the terminator in NextLine, and keeps CurrentLineNumber equal to the lines read |
| `Sorter.DocCommentSortUtility.ProcessDocumentationBlock` | DocCommentSortUtilty.cs:211-424 | appends Assemble(Scan(block)) to the file contents and returns true iff that differs from the lines read; also sets NextLine, the reader position and the warnings |
| `Sorter.DocCommentSortUtility.SortBlockAt` | DocCommentSortUtilty.cs:471-480 | the block's sorted form and the line that ended it are appended, and the count goes up iff the block changed |
| `Sorter.DocCommentSortUtility.CopyLine` | DocCommentSortUtilty.cs:459-469 | a line outside a block is appended to the file contents unchanged |
| `Sorter.DocCommentSortUtility.SortNextLine` | DocCommentSortUtilty.cs:454-481 | one pass of the file loop keeps the loop invariant: contents, count and warnings so far, followed by SortFrom of the rest, are the whole file's outcome |
| `Sorter.DocCommentSortUtility.SortDocumentationComments` | DocCommentSortUtilty.cs:432-481 | the file contents, the count of updated blocks and the warnings are exactly those of SortFile |

## Left out

- File I/O in SortDocumentationComments: the temp file written as UTF-8 with a byte order
  mark, the numbered backup names probed with `File.Exists`, and the two `MoveTo` renames.
  The model returns the lines to write, and `FileScan.Rewrites` says when they would be written.
- `ProcessFile`, `ProcessFilesWildcard` and `StartProcessing`: file existence, wildcard
  discovery, exception handling and the success/failure tally.
- Console and log text: the status and debug events, the verbose echo of updated blocks,
  `OutputSetOptions` and path compaction. Warnings are kept as a `seq<Warning>` log of
  headers and line-numbered details, not as message text.
- `GetAppVersion` (reflection) and all of Program.cs (command-line parsing, event wiring).
- The .NET regex engine is replaced by hand-written predicates for the
  four patterns; they agree with the patterns as written, including `.` not matching a line feed.
- Options.PathHasWildcard: takes a non-null string; every caller passes a validated path.
- The case-insensitive prefix test (`StartsWithIgnoreCase`) folds only ASCII letters, where .NET's OrdinalIgnoreCase
  also folds other letters; it is used only for the ReSharper prefix test.
- The prefix test (`StartsWith`) is an ordinal comparison, where .NET's `StartsWith(string)` is
  culture-sensitive and skips code points its collation ignores. The two agree only when no such
  code point (U+0000, U+00AD, U+200B, U+FEFF, ...) comes before or inside the `///` or `/// ///`
  prefix after `TrimStart`, which leaves these in place. For a line such as `\u00AD/// x`, the
  source starts a block (DocCommentSortUtilty.cs:465) and treats the line as a `///` line (:333)
  or a doubled marker (:234). The model copies that line as plain text, and `RouteLine` would make
  it a terminator.
- Strings are sequences of Dafny characters, not UTF-16 code units.
- The six aliased `List<string>` buckets and the `currentSection` reference are
  one `Buckets` value and a `Section` tag. HandleElement's `ref` parameters become the
  `Routed` value that `RouteLine` returns. Aliasing between `currentSection` and a bucket is
  therefore not modelled.
- The StreamReader is a cursor over `seq<string>`. Reading
  requires that the stream has not ended, as every call site checks `EndOfStream` first.
  A null line from the reader cannot occur.
- `RemoveEmptyValueTags` is read by the sorter but not declared
  with the options. It is modelled as a further flag that defaults to false.
- The sorter reads and writes `InvalidFormatWarned`, but RuntimeData.cs
  declares `InvalidElementWarned`. The model has one flag, `invalidFormatWarned`, shared by
  both warning helpers.
