/**
  The sorter itself (DocCommentSortUtilty.cs): the block loop of ProcessDocumentationBlock and
  the file loop of SortDocumentationComments, working on a RuntimeData object, each proved
  against the functions of Blocks and FileScan; the warn-once helpers; and ListsMatch.
 */
module Sorter {
  import opened Wrappers
  import opened DotNetText
  import opened Options
  import opened Patterns
  import opened Routing
  import opened Blocks
  import opened FileScan
  import opened Runtime
  import opened Warnings
  import opened Sequences

  class DocCommentSortUtility {
    const options: SortUtilityOptions
    /** The warnings raised so far, in order. */
    var warnings: seq<Warning>

    constructor (options: SortUtilityOptions)
      ensures this.options == options && warnings == []
    {
      this.options := options;
      warnings := [];
    }

    /** True exactly when the two lists hold the same strings in the same order. */
    static method ListsMatch(list1: seq<string>, list2: seq<string>) returns (r: bool)
      ensures r <==> list1 == list2
    {
      if |list1| != |list2| {
        return false;
      }
      for i := 0 to |list2|
        invariant list1[..i] == list2[..i]
      {
        if list1[i] != list2[i] {
          return false;
        }
      }
      assert list1 == list1[..|list1|] && list2 == list2[..|list2|];
      return true;
    }

    /** A warning about a misnamed element; the first format issue of a file prints a header. */
    method WarnInvalidElementName(rt: RuntimeData, d: Diagnostic)
      requires d.InvalidElementName?
      modifies this`warnings, rt`invalidFormatWarned
      ensures warnings == old(warnings) + Report(rt.inputFilePath, old(rt.Flags()), d).warnings
      ensures rt.Flags() == Report(rt.inputFilePath, old(rt.Flags()), d).flags
    {
      if !rt.invalidFormatWarned {
        warnings := warnings + [InvalidElementHeader(rt.inputFilePath)];
        rt.invalidFormatWarned := true;
      }
      warnings := warnings + [Detail(d)];
    }

    /** A warning about a doubled `/// ///` marker, under the same warn-once flag. */
    method WarnInvalidFormat(rt: RuntimeData, d: Diagnostic)
      requires d.InvalidFormat?
      modifies this`warnings, rt`invalidFormatWarned
      ensures warnings == old(warnings) + Report(rt.inputFilePath, old(rt.Flags()), d).warnings
      ensures rt.Flags() == Report(rt.inputFilePath, old(rt.Flags()), d).flags
    {
      if !rt.invalidFormatWarned {
        warnings := warnings + [InvalidFormatHeader(rt.inputFilePath)];
        rt.invalidFormatWarned := true;
      }
      warnings := warnings + [Detail(d)];
    }

    /** A warning about an element name the sorter does not know, with its own flag. */
    method WarnUnrecognizedElement(rt: RuntimeData, d: Diagnostic)
      requires d.UnrecognizedElement?
      modifies this`warnings, rt`unrecognizedElementWarned
      ensures warnings == old(warnings) + Report(rt.inputFilePath, old(rt.Flags()), d).warnings
      ensures rt.Flags() == Report(rt.inputFilePath, old(rt.Flags()), d).flags
    {
      if !rt.unrecognizedElementWarned {
        warnings := warnings + [UnrecognizedHeader(rt.inputFilePath)];
        rt.unrecognizedElementWarned := true;
      }
      warnings := warnings + [Detail(d)];
    }

    /** Raises the warnings of one line, in the order the line's checks produce them, after
        those of the diagnostics `done` reported since the flags were `flags0`. */
    method WarnAll(rt: RuntimeData, ds: seq<Diagnostic>, ghost before: seq<Warning>, ghost flags0: WarnFlags,
                   ghost done: seq<Diagnostic>)
      requires warnings == before + ReportAll(rt.inputFilePath, flags0, done).warnings
      requires rt.Flags() == ReportAll(rt.inputFilePath, flags0, done).flags
      modifies this`warnings, rt`invalidFormatWarned, rt`unrecognizedElementWarned
      ensures warnings == before + ReportAll(rt.inputFilePath, flags0, done + ds).warnings
      ensures rt.Flags() == ReportAll(rt.inputFilePath, flags0, done + ds).flags
    {
      assert done + ds[..0] == done;
      for i := 0 to |ds|
        invariant warnings == before + ReportAll(rt.inputFilePath, flags0, done + ds[..i]).warnings
        invariant rt.Flags() == ReportAll(rt.inputFilePath, flags0, done + ds[..i]).flags
      {
        ghost var next := done + ds[..i + 1];
        ghost var prior := ReportAll(rt.inputFilePath, flags0, done + ds[..i]);
        assert next[..|next| - 1] == done + ds[..i] && next[|next| - 1] == ds[i];
        ghost var last := Report(rt.inputFilePath, prior.flags, ds[i]);
        assert ReportAll(rt.inputFilePath, flags0, next) == Reported(prior.warnings + last.warnings, last.flags);
        Warn(rt, ds[i]);
        AppendAssociates(before, prior.warnings, last.warnings);
      }
      assert ds[..|ds|] == ds;
    }

    /** Raises one warning through the helper of its kind. */
    method Warn(rt: RuntimeData, d: Diagnostic)
      modifies this`warnings, rt`invalidFormatWarned, rt`unrecognizedElementWarned
      ensures warnings == old(warnings) + Report(rt.inputFilePath, old(rt.Flags()), d).warnings
      ensures rt.Flags() == Report(rt.inputFilePath, old(rt.Flags()), d).flags
    {
      match d
      case InvalidFormat(_, _, _) => WarnInvalidFormat(rt, d);
      case InvalidElementName(_, _, _, _, _) => WarnInvalidElementName(rt, d);
      case UnrecognizedElement(_, _) => WarnUnrecognizedElement(rt, d);
    }

    /** The classification of one line of a block, with its repairs and the warnings it
        raises. */
    method RouteCurrentLine(dataLine: string, lineNumber: int, ghost lines: seq<string>, ghost rs: seq<Routed>, ghost j: nat)
      returns (routed: Routed)
      requires rs == RouteAll(options, lines)
      requires j < |lines| && dataLine == lines[j] && lineNumber == j + 1
      ensures routed == rs[j]
    {
      routed := RouteLine(options, dataLine, lineNumber);
      RouteAllAt(options, lines, j);
    }

    /** Raises the warnings of line `j` of a block: afterwards the warnings of the block are
        those of its lines up to `j`. */
    method WarnLine(rt: RuntimeData, routed: Routed, ghost rs: seq<Routed>, ghost start: nat, ghost j: nat,
                    ghost before: seq<Warning>, ghost flags0: WarnFlags)
      requires start <= j < |rs| && routed == rs[j]
      requires var ds := Diags(rs[start..j]);
               && warnings == before + ReportAll(rt.inputFilePath, flags0, ds).warnings
               && rt.Flags() == ReportAll(rt.inputFilePath, flags0, ds).flags
      modifies this`warnings, rt`invalidFormatWarned, rt`unrecognizedElementWarned
      ensures var ds := Diags(rs[start..j + 1]);
              && warnings == before + ReportAll(rt.inputFilePath, flags0, ds).warnings
              && rt.Flags() == ReportAll(rt.inputFilePath, flags0, ds).flags
    {
      WarnAll(rt, routed.diags, before, flags0, Diags(rs[start..j]));
      WarnOneMore(rs, start, j);
    }

    /** The end of ProcessDocumentationBlock: a trailing ReSharper suppression comment moves
        to the end of the block, and the sections are joined in their fixed order. */
    static method AssembleBlock(lists: Buckets, currentSection: Section, finalLine: string)
      returns (updatedComments: seq<string>)
      ensures updatedComments == Assemble(ScanState(lists, currentSection, finalLine))
    {
      var sections := lists;
      var resharperDisableLine: string;
      var cur := Get(sections, currentSection);
      if StartsWithIgnoreCase(TrimStart(finalLine), ReSharperPrefix) && |cur| > 0 && cur[|cur| - 1] == finalLine {
        RelocatedLineIsNotEmpty(ScanState(lists, currentSection, finalLine));
        sections := RemoveLast(sections, currentSection);
        resharperDisableLine := finalLine;
      } else {
        resharperDisableLine := "";
      }

      updatedComments := Concat(sections);
      if |resharperDisableLine| > 0 {
        updatedComments := updatedComments + [resharperDisableLine];
      }
    }

    /** One line of a block that does not end it, put where it belongs: appended to the
        current section or to the section it opens, or dropped; the last line read that is
        not blank is remembered. After line `j` the state is that of the block's lines up
        to `j`. */
    static method HandleLine(lists: Buckets, currentSection: Section, finalLine: string, routed: Routed,
                             ghost rs: seq<Routed>, ghost start: nat, ghost j: nat)
      returns (lists': Buckets, currentSection': Section, finalLine': string)
      requires start <= j < |rs| && routed == rs[j] && routed.action != EndBlock
      requires ScanState(lists, currentSection, finalLine) == Scan(rs[start..j])
      ensures ScanState(lists', currentSection', finalLine') == Scan(rs[start..j + 1])
    {
      ReadOneMore(rs, start, j);
      lists', currentSection', finalLine' := lists, currentSection, finalLine;
      if routed.action == AppendAndStop {
        lists' := Append(lists, currentSection, routed.text);
        return;
      } else if routed.action == AppendToCurrent {
        lists' := Append(lists, currentSection, routed.text);
      } else if routed.action.Open? {
        lists' := Append(lists, routed.action.target, routed.text);
        currentSection' := routed.action.target;
      }
      if !IsNullOrWhiteSpace(routed.text) {
        finalLine' := routed.text;
      }
    }

    /** One pass of the loop of ProcessDocumentationBlock over line `j` of the block that
        starts at line `start`: the line is routed and its warnings raised; the line that ends
        the block is handed back in `nextLine` and dropped from the lines read; any other line
        is put in its section. `more` says whether the loop goes on to the next line; the
        block read so far then reaches line `stop`. */
    method ReadBlockLine(rt: RuntimeData, lists: Buckets, currentSection: Section, finalLine: string,
                         originalComments: seq<string>, dataLine: string,
                         ghost lines: seq<string>, ghost rs: seq<Routed>, ghost start: nat, ghost j: nat,
                         ghost w0: seq<Warning>, ghost f0: WarnFlags)
      returns (lists': Buckets, currentSection': Section, finalLine': string, originalComments': seq<string>,
               more: bool, ghost stop: nat, ghost terminated: bool)
      requires lines == rt.reader.lines && rs == RouteAll(options, lines)
      requires start <= j < |lines| && rt.reader.pos == j + 1
      requires dataLine == lines[j] && rt.currentLineNumber == j + 1
      requires originalComments == lines[start..j + 1]
      requires ScanState(lists, currentSection, finalLine) == Scan(rs[start..j])
      requires warnings == w0 + ReportAll(rt.inputFilePath, f0, Diags(rs[start..j])).warnings
      requires rt.Flags() == ReportAll(rt.inputFilePath, f0, Diags(rs[start..j])).flags
      requires rt.nextLine == None
      modifies this`warnings, rt`nextLine, rt`invalidFormatWarned, rt`unrecognizedElementWarned
      ensures start <= stop <= |lines|
      ensures ScanState(lists', currentSection', finalLine') == Scan(rs[start..stop])
      ensures originalComments' == lines[start..stop]
      ensures warnings == w0 + ReportAll(rt.inputFilePath, f0, Diags(rs[start..stop])).warnings
      ensures rt.Flags() == ReportAll(rt.inputFilePath, f0, Diags(rs[start..stop])).flags
      ensures more ==> stop == j + 1 < |lines| && BlockExtent(rs, j) == BlockExtent(rs, j + 1) && rt.nextLine == None
      ensures !more ==> BlockExtent(rs, j) == Extent(stop, terminated)
      ensures !more && terminated ==> stop == j && rt.nextLine == Some(lines[j])
      ensures !more && !terminated ==> stop == j + 1 && rt.nextLine == None
    {
      var routed := RouteCurrentLine(dataLine, rt.currentLineNumber, lines, rs, j);
      WarnLine(rt, routed, rs, start, j, w0, f0);

      if routed.action == EndBlock {
        TerminatorAddsNoWarning(options, lines, rs, start, j);
        rt.nextLine := Some(dataLine);
        DropLast(lines, start, j, originalComments);
        lists', currentSection', finalLine' := lists, currentSection, finalLine;
        originalComments' := originalComments[..|originalComments| - 1];
        more, stop, terminated := false, j, true;
        return;
      }

      lists', currentSection', finalLine' := HandleLine(lists, currentSection, finalLine, routed, rs, start, j);
      originalComments' := originalComments;
      stop, terminated := j + 1, false;
      more := !(routed.action == AppendAndStop || rt.reader.EndOfStream());
      if more {
        ExtentGoesOn(rs, j);
      }
    }

    /** The loop of ProcessDocumentationBlock: reads the lines of the block that starts at the
        line the caller has just read, up to where BlockExtent stops it, sorting them into
        sections and raising their warnings. The line that ends the block, if any, is left in
        `nextLine`; the lines read are returned as they were. */
    method ReadBlock(rt: RuntimeData, ghost lines: seq<string>, ghost rs: seq<Routed>, ghost start: nat)
      returns (lists: Buckets, currentSection: Section, finalLine: string, originalComments: seq<string>,
               ghost stop: nat, ghost terminated: bool)
      requires lines == rt.reader.lines && rs == RouteAll(options, lines)
      requires start < |lines| && rt.reader.pos == start + 1
      requires rt.commentBlockFirstLine == lines[start]
      requires rt.currentLineNumber == rt.reader.pos
      modifies this`warnings, rt`nextLine, rt`currentLineNumber, rt`invalidFormatWarned,
               rt`unrecognizedElementWarned, rt.reader`pos
      ensures BlockExtent(rs, start) == Extent(stop, terminated)
      ensures start <= stop <= |lines|
      ensures ScanState(lists, currentSection, finalLine) == Scan(rs[start..stop])
      ensures originalComments == lines[start..stop]
      ensures terminated ==> stop < |lines| && rt.nextLine == Some(lines[stop]) && rt.reader.pos == stop + 1
      ensures !terminated ==> rt.nextLine == None && rt.reader.pos == stop
      ensures warnings == old(warnings) + ReportAll(rt.inputFilePath, old(rt.Flags()), Diags(rs[start..stop])).warnings
      ensures rt.Flags() == ReportAll(rt.inputFilePath, old(rt.Flags()), Diags(rs[start..stop])).flags
      ensures rt.currentLineNumber == rt.reader.pos
    {
      ghost var e := BlockExtent(rs, start);
      ghost var j := start;
      ghost var w0, f0 := warnings, rt.Flags();

      lists := NoLines;
      currentSection := Summary;
      var dataLine := rt.commentBlockFirstLine;
      originalComments := [dataLine];
      rt.nextLine := None;
      finalLine := "";
      Grow(lines, start, start);

      while true
        invariant start <= j < |lines| && rt.reader.pos == j + 1
        invariant dataLine == lines[j]
        invariant rt.currentLineNumber == j + 1
        invariant originalComments == lines[start..j + 1]
        invariant ScanState(lists, currentSection, finalLine) == Scan(rs[start..j])
        invariant e == BlockExtent(rs, j)
        invariant warnings == w0 + ReportAll(rt.inputFilePath, f0, Diags(rs[start..j])).warnings
        invariant rt.Flags() == ReportAll(rt.inputFilePath, f0, Diags(rs[start..j])).flags
        invariant rt.nextLine == None
        decreases |lines| - j
      {
        var more: bool;
        lists, currentSection, finalLine, originalComments, more, stop, terminated :=
          ReadBlockLine(rt, lists, currentSection, finalLine, originalComments, dataLine, lines, rs, start, j, w0, f0);
        if !more {
          return;
        }

        dataLine := rt.reader.ReadLine();
        rt.currentLineNumber := rt.currentLineNumber + 1;
        Grow(lines, start, j + 1);
        originalComments := originalComments + [dataLine];
        j := j + 1;
      }
    }

    /** Reads one documentation block whose first line the caller has just read, writes its
        sorted form to the file contents, and leaves the line that ended it in `nextLine`.
        The result says whether the block changed. The block is the run of routed lines from
        the first line to where BlockExtent stops it. */
    method ProcessDocumentationBlock(rt: RuntimeData, ghost lines: seq<string>, ghost rs: seq<Routed>, ghost start: nat)
      returns (commentBlockUpdated: bool, ghost stop: nat, ghost terminated: bool)
      requires lines == rt.reader.lines && rs == RouteAll(options, lines)
      requires start < |lines| && rt.reader.pos == start + 1
      requires rt.commentBlockFirstLine == lines[start]
      requires rt.currentLineNumber == rt.reader.pos
      modifies this`warnings, rt`nextLine, rt`currentLineNumber, rt`invalidFormatWarned,
               rt`unrecognizedElementWarned, rt.reader`pos, rt.fileContents
      ensures BlockExtent(rs, start) == Extent(stop, terminated)
      ensures start <= stop <= |lines|
      ensures rt.fileContents.items == old(rt.fileContents.items) + Assemble(Scan(rs[start..stop]))
      ensures commentBlockUpdated <==> lines[start..stop] != Assemble(Scan(rs[start..stop]))
      ensures terminated ==> stop < |lines| && rt.nextLine == Some(lines[stop]) && rt.reader.pos == stop + 1
      ensures !terminated ==> rt.nextLine == None && rt.reader.pos == stop
      ensures warnings == old(warnings) + ReportAll(rt.inputFilePath, old(rt.Flags()), Diags(rs[start..stop])).warnings
      ensures rt.Flags() == ReportAll(rt.inputFilePath, old(rt.Flags()), Diags(rs[start..stop])).flags
      ensures rt.currentLineNumber == rt.reader.pos
    {
      var lists, currentSection, finalLine, originalComments;
      lists, currentSection, finalLine, originalComments, stop, terminated := ReadBlock(rt, lines, rs, start);
      ghost var updated := Assemble(Scan(rs[start..stop]));

      var updatedComments := AssembleBlock(lists, currentSection, finalLine);
      assert updatedComments == updated;
      var matched := ListsMatch(originalComments, updatedComments);
      commentBlockUpdated := !matched;

      rt.fileContents.AddRange(updatedComments);
    }

    /** ProcessDocumentationBlock called from the file loop for the block that starts at line
        `p`, restated as the outcome ProcessBlock describes, with the block's warnings added
        to those of the file so far. */
    method ProcessBlockOfFile(rt: RuntimeData, ghost lines: seq<string>, ghost rs: seq<Routed>, ghost p: nat,
                              ghost w0: seq<Warning>, ghost done: seq<Diagnostic>)
      returns (sectionUpdated: bool, ghost o: BlockOutcome)
      requires lines == rt.reader.lines && rs == RouteAll(options, lines)
      requires p < |lines| && rt.reader.pos - 1 == p
      requires rt.commentBlockFirstLine == rt.reader.lines[p]
      requires rt.currentLineNumber == rt.reader.pos
      requires warnings == w0 + ReportAll(rt.inputFilePath, NoneWarned, done).warnings
      requires rt.Flags() == ReportAll(rt.inputFilePath, NoneWarned, done).flags
      modifies this`warnings, rt`nextLine, rt`currentLineNumber, rt`invalidFormatWarned,
               rt`unrecognizedElementWarned, rt.reader`pos, rt.fileContents
      ensures o == ProcessBlock(lines, rs, p)
      ensures rt.fileContents.items == old(rt.fileContents.items) + o.updated
      ensures sectionUpdated == o.changed
      ensures rt.nextLine == o.nextLine && rt.reader.pos == o.resume
      ensures rt.currentLineNumber == rt.reader.pos
      ensures warnings == w0 + ReportAll(rt.inputFilePath, NoneWarned, done + o.diags).warnings
      ensures rt.Flags() == ReportAll(rt.inputFilePath, NoneWarned, done + o.diags).flags
    {
      ghost var before := ReportAll(rt.inputFilePath, NoneWarned, done);
      ghost var stop, terminated;
      sectionUpdated, stop, terminated := ProcessDocumentationBlock(rt, lines, rs, p);
      BlockOutcomeByStop(lines, rs, p, stop, terminated);
      o := ProcessBlock(lines, rs, p);
      ReportAllAppend(rt.inputFilePath, NoneWarned, done, o.diags);
      AppendAssociates(w0, before.warnings, ReportAll(rt.inputFilePath, before.flags, o.diags).warnings);
    }

    /** The block branch of the file loop: the block that starts at line `pos`, just read, is
        sorted into the file contents followed by the line that ended it, and counted if it
        changed; its warnings follow those of the file so far. */
    method SortBlockAt(rt: RuntimeData, dataLine: string, sectionsUpdated: nat,
                       ghost lines: seq<string>, ghost rs: seq<Routed>, ghost pos: nat,
                       ghost done: seq<Diagnostic>, ghost w0: seq<Warning>)
      returns (sectionsUpdated': nat, ghost o: BlockOutcome)
      requires lines == rt.reader.lines && rs == RouteAll(options, lines)
      requires pos < |lines| && rt.reader.pos == pos + 1 && rt.currentLineNumber == rt.reader.pos
      requires dataLine == lines[pos]
      requires warnings == w0 + ReportAll(rt.inputFilePath, NoneWarned, done).warnings
      requires rt.Flags() == ReportAll(rt.inputFilePath, NoneWarned, done).flags
      modifies this`warnings, rt`nextLine, rt`currentLineNumber, rt`invalidFormatWarned,
               rt`unrecognizedElementWarned, rt`commentBlockFirstLine, rt`commentBlockStartLineNumber,
               rt.reader`pos, rt.fileContents
      ensures o == ProcessBlock(lines, rs, pos)
      ensures rt.fileContents.items ==
                old(rt.fileContents.items) + o.updated + (if o.nextLine.Some? then [o.nextLine.value] else [])
      ensures sectionsUpdated' == sectionsUpdated + (if o.changed then 1 else 0)
      ensures rt.reader.pos == o.resume && rt.currentLineNumber == o.resume
      ensures warnings == w0 + ReportAll(rt.inputFilePath, NoneWarned, done + o.diags).warnings
      ensures rt.Flags() == ReportAll(rt.inputFilePath, NoneWarned, done + o.diags).flags
    {
      rt.commentBlockFirstLine := dataLine;
      rt.commentBlockStartLineNumber := rt.currentLineNumber;

      var sectionUpdated;
      sectionUpdated, o := ProcessBlockOfFile(rt, lines, rs, pos, w0, done);

      sectionsUpdated' := sectionsUpdated;
      if sectionUpdated {
        sectionsUpdated' := sectionsUpdated + 1;
      }

      if rt.nextLine.Some? {
        rt.fileContents.Add(rt.nextLine.value);
      } else {
        assert rt.fileContents.items == old(rt.fileContents.items) + o.updated + [];
      }
    }

    /** The block branch of the file loop restated as the file loop's invariant: after the
        block that starts at line `pos`, the file contents, the count and the warnings so far,
        followed by what the loop yields from where it goes on, are what it yields for the
        whole file. */
    method SortBlockStep(rt: RuntimeData, dataLine: string, sectionsUpdated: nat,
                         ghost lines: seq<string>, ghost rs: seq<Routed>, ghost pos: nat,
                         ghost total: FileOutcome, ghost done: seq<Diagnostic>, ghost w0: seq<Warning>)
      returns (sectionsUpdated': nat, ghost done': seq<Diagnostic>, ghost pos': nat)
      requires lines == rt.reader.lines && rs == RouteAll(options, lines)
      requires pos < |lines| && rt.reader.pos == pos + 1 && rt.currentLineNumber == rt.reader.pos
      requires dataLine == lines[pos] && StartsBlock(dataLine)
      requires rt.fileContents.items + SortFrom(lines, rs, pos).output == total.output
      requires sectionsUpdated + SortFrom(lines, rs, pos).sectionsUpdated == total.sectionsUpdated
      requires done + SortFrom(lines, rs, pos).diags == total.diags
      requires warnings == w0 + ReportAll(rt.inputFilePath, NoneWarned, done).warnings
      requires rt.Flags() == ReportAll(rt.inputFilePath, NoneWarned, done).flags
      modifies this`warnings, rt`nextLine, rt`currentLineNumber, rt`invalidFormatWarned,
               rt`unrecognizedElementWarned, rt`commentBlockFirstLine, rt`commentBlockStartLineNumber,
               rt.reader`pos, rt.fileContents
      ensures pos < pos' <= |lines| && rt.reader.pos == pos' && rt.currentLineNumber == pos'
      ensures rt.fileContents.items + SortFrom(lines, rs, pos').output == total.output
      ensures sectionsUpdated' + SortFrom(lines, rs, pos').sectionsUpdated == total.sectionsUpdated
      ensures done' + SortFrom(lines, rs, pos').diags == total.diags
      ensures warnings == w0 + ReportAll(rt.inputFilePath, NoneWarned, done').warnings
      ensures rt.Flags() == ReportAll(rt.inputFilePath, NoneWarned, done').flags
    {
      ghost var o;
      sectionsUpdated', o := SortBlockAt(rt, dataLine, sectionsUpdated, lines, rs, pos, done, w0);
      done', pos' := done + o.diags, o.resume;
      BlockAdvance(lines, rs, pos, total, old(rt.fileContents.items), sectionsUpdated, done,
                   rt.fileContents.items, sectionsUpdated', done');
    }

    /** The branches of the file loop for a line outside any block, just read: it is copied to
        the file contents and the file loop's invariant carries over to the next line. */
    static method CopyLine(rt: RuntimeData, text: string, ghost lines: seq<string>, ghost rs: seq<Routed>,
                           ghost pos: nat, ghost total: FileOutcome)
      requires |rs| == |lines| && pos < |lines| && text == lines[pos] && !StartsBlock(text)
      requires rt.fileContents.items + SortFrom(lines, rs, pos).output == total.output
      modifies rt.fileContents
      ensures rt.fileContents.items + SortFrom(lines, rs, pos + 1).output == total.output
      ensures SortFrom(lines, rs, pos).sectionsUpdated == SortFrom(lines, rs, pos + 1).sectionsUpdated
      ensures SortFrom(lines, rs, pos).diags == SortFrom(lines, rs, pos + 1).diags
    {
      LineAdvance(lines, rs, pos, rt.fileContents.items);
      rt.fileContents.Add(text);
    }

    /** One pass of the file loop of SortDocumentationComments: reads the line at `pos` and
        copies it, or sorts the block it starts; the file loop's invariant carries over to the
        line where the loop goes on. */
    method SortNextLine(rt: RuntimeData, sectionsUpdated: nat,
                        ghost lines: seq<string>, ghost rs: seq<Routed>, ghost pos: nat,
                        ghost total: FileOutcome, ghost done: seq<Diagnostic>, ghost w0: seq<Warning>)
      returns (sectionsUpdated': nat, ghost done': seq<Diagnostic>, ghost pos': nat)
      requires lines == rt.reader.lines && rs == RouteAll(options, lines)
      requires pos < |lines| && rt.reader.pos == pos && rt.currentLineNumber == pos
      requires rt.fileContents.items + SortFrom(lines, rs, pos).output == total.output
      requires sectionsUpdated + SortFrom(lines, rs, pos).sectionsUpdated == total.sectionsUpdated
      requires done + SortFrom(lines, rs, pos).diags == total.diags
      requires warnings == w0 + ReportAll(rt.inputFilePath, NoneWarned, done).warnings
      requires rt.Flags() == ReportAll(rt.inputFilePath, NoneWarned, done).flags
      modifies this`warnings, rt`nextLine, rt`currentLineNumber, rt`invalidFormatWarned,
               rt`unrecognizedElementWarned, rt`commentBlockFirstLine, rt`commentBlockStartLineNumber,
               rt.reader`pos, rt.fileContents
      ensures pos < pos' <= |lines| && rt.reader.pos == pos' && rt.currentLineNumber == pos'
      ensures rt.fileContents.items + SortFrom(lines, rs, pos').output == total.output
      ensures sectionsUpdated' + SortFrom(lines, rs, pos').sectionsUpdated == total.sectionsUpdated
      ensures done' + SortFrom(lines, rs, pos').diags == total.diags
      ensures warnings == w0 + ReportAll(rt.inputFilePath, NoneWarned, done').warnings
      ensures rt.Flags() == ReportAll(rt.inputFilePath, NoneWarned, done').flags
    {
      var dataLine := rt.reader.ReadLine();
      rt.currentLineNumber := rt.currentLineNumber + 1;

      if dataLine == "" {
        CopyLine(rt, "", lines, rs, pos, total);
        sectionsUpdated', done', pos' := sectionsUpdated, done, pos + 1;
      } else if !StartsWith(TrimStart(dataLine), Marker) {
        CopyLine(rt, dataLine, lines, rs, pos, total);
        sectionsUpdated', done', pos' := sectionsUpdated, done, pos + 1;
      } else {
        sectionsUpdated', done', pos' := SortBlockStep(rt, dataLine, sectionsUpdated, lines, rs, pos, total, done, w0);
      }
    }

    /** Sorts the documentation comments of one file, given as its lines. Returns the lines to
        write back and the number of blocks that changed. */
    method SortDocumentationComments(inputFilePath: string, lines: seq<string>)
      returns (fileContents: seq<string>, sectionsUpdated: nat)
      modifies this`warnings
      ensures fileContents == SortFile(options, lines).output
      ensures sectionsUpdated == SortFile(options, lines).sectionsUpdated
      ensures warnings == old(warnings) + ReportAll(inputFilePath, NoneWarned, SortFile(options, lines).diags).warnings
    {
      sectionsUpdated := 0;
      var reader := new LineReader(lines);
      var contents := new LineList();
      var rt := new RuntimeData(inputFilePath, reader, contents);
      ghost var rs := RouteAll(options, lines);
      ghost var total := SortFrom(lines, rs, 0);
      ghost var done: seq<Diagnostic> := [];
      ghost var w0 := warnings;
      assert [] + total.output == total.output && [] + total.diags == total.diags;

      ghost var pos := 0;
      while !reader.EndOfStream()
        invariant rt.reader == reader && rt.fileContents == contents && rt.inputFilePath == inputFilePath
        invariant reader.lines == lines && pos <= |lines| && reader.pos == pos
        invariant rt.currentLineNumber == pos
        invariant contents.items + SortFrom(lines, rs, pos).output == total.output
        invariant sectionsUpdated + SortFrom(lines, rs, pos).sectionsUpdated == total.sectionsUpdated
        invariant done + SortFrom(lines, rs, pos).diags == total.diags
        invariant warnings == w0 + ReportAll(inputFilePath, NoneWarned, done).warnings
        invariant rt.Flags() == ReportAll(inputFilePath, NoneWarned, done).flags
        decreases |lines| - pos
      {
        sectionsUpdated, done, pos := SortNextLine(rt, sectionsUpdated, lines, rs, pos, total, done, w0);
      }

      FileLoopEnds(lines, rs, contents.items, sectionsUpdated, done, total);
      fileContents := contents.items;
    }
  }
}
