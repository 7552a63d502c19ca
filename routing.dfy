/**
  What the block sorter does with ONE line of a documentation block
  (DocCommentSortUtilty.cs:34-86 and the body of the loop at 232-363): the doubled-marker
  repair, the classification by the four patterns, the synonym and closing-tag repairs,
  the empty-element elision, and the section the line is routed to. The result does not
  depend on which section is current: `Action` says what to do with it.
 */
module Routing {
  import opened Wrappers
  import opened DotNetText
  import opened Options
  import opened Patterns

  /** The six buckets, in the order they are written back. `Argument` holds `param`,
      `paramref` and `value` lines. */
  datatype Section = Summary | Remarks | TypeParam | Argument | Returns | Exception

  /** What a line does to the block being sorted. */
  datatype Action =
    | AppendToCurrent        // appended to the current bucket, which stays current
    | Open(target: Section)  // appended to `target`, which becomes current
    | Elide                  // dropped: an empty element the options remove
    | AppendAndStop          // a commented-out declaration: appended, and the block ends
    | EndBlock               // not part of the block: it ends the block and is not consumed

  /** The line-numbered warning details (the per-file headers are added by the sorter). */
  datatype Diagnostic =
    | InvalidFormat(lineNumber: int, correction: string, autoUpdating: bool)
    | InvalidElementName(lineNumber: int, found: string, expected: string, closingTag: bool, autoUpdating: bool)
    | UnrecognizedElement(lineNumber: int, elementName: string)

  /** A line after repair, what it does, and the warnings it raises. */
  datatype Routed = Routed(text: string, action: Action, diags: seq<Diagnostic>)

  const DoubledMarker := "/// ///"

  /** The elements that open a bucket of their own. */
  const SectionOf: map<string, Section> := map[
    "summary" := Summary,
    "typeparam" := TypeParam, "typeparamref" := TypeParam,
    "param" := Argument, "paramref" := Argument, "value" := Argument,
    "remarks" := Remarks, "remark" := Remarks,
    "returns" := Returns, "return" := Returns,
    "exception" := Exception]

  /** The elements that continue the current bucket without a warning. */
  const InlineElements: set<string> := {"example", "inheritdoc", "para", "see"}

  /** The trimmed line starts with a doubled documentation marker. */
  predicate HasDoubledMarker(raw: string) {
    StartsWith(TrimStart(raw), DoubledMarker)
  }

  /** The doubled-marker repair: only its first occurrence is collapsed, and only when
      renaming is enabled. */
  function RepairDoubled(opts: SortUtilityOptions, raw: string): string {
    if HasDoubledMarker(raw) && opts.renameInvalidElements then ReplaceFirst(raw, DoubledMarker, Marker) else raw
  }

  /** The warning raised for a doubled marker, if any. */
  function DoubledDiagnostics(opts: SortUtilityOptions, raw: string, lineNumber: int): seq<Diagnostic> {
    if HasDoubledMarker(raw)
    then [InvalidFormat(lineNumber, Trim(ReplaceFirst(raw, DoubledMarker, Marker)), opts.renameInvalidElements)]
    else []
  }

  /** The one-line empty form of an element. */
  function EmptyElement(name: string): string {
    "/// <" + name + "></" + name + ">"
  }

  /** The element is removed when empty, by the switch the source consults for it. */
  predicate RemovedWhenEmpty(opts: SortUtilityOptions, elementName: string) {
    || ((elementName == "remarks" || elementName == "remark") && (opts.removeEmptyBlocks || opts.removeEmptyRemarks))
    || ((elementName == "returns" || elementName == "return") && (opts.removeEmptyBlocks || opts.removeEmptyReturns))
    || (elementName == "value" && (opts.removeEmptyBlocks || opts.removeEmptyValueTags))
  }

  /** IsEmptyBlockToSkip: the trimmed line is exactly the empty form of the element, and
      the options remove that element when empty. */
  predicate IsEmptyBlockToSkip(opts: SortUtilityOptions, elementName: string, dataLine: string) {
    Trim(dataLine) == EmptyElement(elementName) && RemovedWhenEmpty(opts, elementName)
  }

  /** Both the opening and the closing tag of `from` renamed to `to`, everywhere in the line. */
  function RenameTags(line: string, from: string, to: string): string {
    ReplaceAll(ReplaceAll(line, "<" + from + ">", "<" + to + ">"), "</" + from + ">", "</" + to + ">")
  }

  /** HandleElement: warn about (and, when enabled, rename) a deprecated synonym; then either
      elide the line or route it to `target`. */
  function RouteSectionElement(opts: SortUtilityOptions, elementName: string, expected: string,
                               synonym: string, target: Section, dataLine: string, lineNumber: int): Routed
  {
    var isSynonym := !IsNullOrWhiteSpace(synonym) && elementName == synonym;
    var text := if isSynonym && opts.renameInvalidElements then RenameTags(dataLine, synonym, expected) else dataLine;
    var diags := if isSynonym then [InvalidElementName(lineNumber, synonym, expected, false, opts.renameInvalidElements)] else [];
    Routed(text, if IsEmptyBlockToSkip(opts, elementName, text) then Elide else Open(target), diags)
  }

  /** The `switch (elementName)` of the block loop. */
  function RouteElement(opts: SortUtilityOptions, elementName: string, line: string, lineNumber: int): Routed {
    if elementName == "summary" then Routed(line, Open(Summary), [])
    else if elementName == "typeparam" || elementName == "typeparamref" then Routed(line, Open(TypeParam), [])
    else if elementName == "param" || elementName == "paramref" then Routed(line, Open(Argument), [])
    else if elementName == "value" then RouteSectionElement(opts, elementName, "value", "", Argument, line, lineNumber)
    else if elementName in InlineElements then Routed(line, AppendToCurrent, [])
    else if elementName == "remarks" || elementName == "remark" then
      RouteSectionElement(opts, elementName, "remarks", "remark", Remarks, line, lineNumber)
    else if elementName == "returns" || elementName == "return" then
      RouteSectionElement(opts, elementName, "returns", "return", Returns, line, lineNumber)
    else if elementName == "exception" then Routed(line, Open(Exception), [])
    else Routed(line, AppendToCurrent, [UnrecognizedElement(lineNumber, elementName)])
  }

  /** The classification chain of the block loop, applied to a line whose doubled marker
      has already been dealt with. */
  function RouteRepaired(opts: SortUtilityOptions, line: string, lineNumber: int): Routed {
    if line == "" then Routed("", AppendToCurrent, [])
    else if IsPlainComment(line) then Routed(line, if IsCommentedScope(line) then AppendAndStop else AppendToCurrent, [])
    else match ElementName(line)
      case Some(name) => RouteElement(opts, name, line, lineNumber)
      case None =>
        if StartsWith(TrimStart(line), Marker) then
          match InvalidClosingName(line)
          case Some(name) =>
            var text := if opts.renameInvalidElements then ReplaceAll(line, "</" + name + ">", "</" + name + "s>") else line;
            Routed(text, AppendToCurrent, [InvalidElementName(lineNumber, name, name + "s", true, opts.renameInvalidElements)])
          case None => Routed(line, AppendToCurrent, [])
        else Routed(line, EndBlock, [])
  }

  /** One line of a block, read as line number `lineNumber` of the file. */
  function RouteLine(opts: SortUtilityOptions, raw: string, lineNumber: int): Routed {
    var r := RouteRepaired(opts, RepairDoubled(opts, raw), lineNumber);
    Routed(r.text, r.action, DoubledDiagnostics(opts, raw, lineNumber) + r.diags)
  }

  // ---------------------------------------------------------------------------------------
  // Properties of one line

  /** The first occurrence of the doubled marker in a line that starts with it once trimmed
      is right after the leading white space. */
  lemma DoubledMarkerPosition(raw: string)
    requires HasDoubledMarker(raw)
    ensures IndexOf(raw, DoubledMarker) == Some(|raw| - |TrimStart(raw)|)
  {
    var k := |raw| - |TrimStart(raw)|;
    DoubledAfterLeadingSpace(raw);
    var r := IndexOf(raw, DoubledMarker);
    assert r.Some? && r.value <= k;
    if r.value < k {
      NoMarkerInLeadingSpace(raw, r.value);
    }
  }

  /** Once trimmed, a line with a doubled marker starts with it. */
  lemma DoubledAfterLeadingSpace(raw: string)
    requires HasDoubledMarker(raw)
    ensures OccursAt(raw, DoubledMarker, |raw| - |TrimStart(raw)|)
  {
    SuffixStartsWith(raw, DoubledMarker, |raw| - |TrimStart(raw)|);
  }

  /** No `/` and hence no marker starts inside the leading white space. */
  lemma NoMarkerInLeadingSpace(raw: string, i: nat)
    requires i < |raw| - |TrimStart(raw)|
    ensures !OccursAt(raw, DoubledMarker, i)
  {
    assert IsWhiteSpace(raw[i]);
    if i + 7 <= |raw| {
      assert raw[i..i + 7][0] == raw[i];
    }
  }

  /** Collapsing the doubled marker leaves the leading white space and then `///`. */
  lemma DoubledMarkerRepair(raw: string)
    requires HasDoubledMarker(raw)
    ensures var k := |raw| - |TrimStart(raw)|;
            && k + 7 <= |raw|
            && ReplaceFirst(raw, DoubledMarker, Marker) == raw[..k] + Marker + raw[k + 7..]
            && StartsWith(TrimStart(ReplaceFirst(raw, DoubledMarker, Marker)), Marker)
  {
    var k := |raw| - |TrimStart(raw)|;
    DoubledMarkerPosition(raw);
    RepairedStartsWithMarker(raw, k);
  }

  /** Replacing the seven characters after the leading white space by `///` gives a line
      that starts with `///` once trimmed. */
  lemma RepairedStartsWithMarker(raw: string, k: nat)
    requires k == |raw| - |TrimStart(raw)| && k + 7 <= |raw|
    ensures StartsWith(TrimStart(raw[..k] + Marker + raw[k + 7..]), Marker)
  {
    var fixed := raw[..k] + Marker + raw[k + 7..];
    assert fixed[k] == '/';
    forall j | 0 <= j < k ensures IsWhiteSpace(fixed[j]) {
      assert fixed[j] == raw[j];
    }
    TrimStartAt(fixed, k);
    assert fixed[k..][..3] == Marker;
  }

  /** A line with a doubled marker is a `///` line. */
  lemma DoubledIsMarker(raw: string)
    ensures HasDoubledMarker(raw) ==> StartsWith(TrimStart(raw), Marker)
  {
    var t := TrimStart(raw);
    if HasDoubledMarker(raw) {
      assert t[..3] == t[..7][..3] == DoubledMarker[..3] == Marker;
    }
  }

  /** A line whose trimmed text starts with `///` keeps doing so after the doubled-marker
      repair. */
  lemma RepairKeepsMarker(opts: SortUtilityOptions, raw: string)
    requires StartsWith(TrimStart(raw), Marker)
    ensures StartsWith(TrimStart(RepairDoubled(opts, raw)), Marker)
  {
    if HasDoubledMarker(raw) && opts.renameInvalidElements {
      DoubledMarkerRepair(raw);
    }
  }

  /** Only a section element opens a bucket, the one `SectionOf` names for it, and every
      section element opens its bucket unless it is elided. */
  lemma RouteElementSections(opts: SortUtilityOptions, name: string, line: string, lineNumber: int)
    ensures var r := RouteElement(opts, name, line, lineNumber);
            && (r.action.Open? ==> name in SectionOf && r.action.target == SectionOf[name])
            && (name in SectionOf ==> r.action.Open? || r.action.Elide?)
  {
    RouteElementOpens(opts, name, line, lineNumber);
    SectionElementsOpen(opts, name, line, lineNumber);
  }

  /** A line that opens a bucket carries a section element, and opens the bucket `SectionOf`
      names for it. */
  lemma RouteElementOpens(opts: SortUtilityOptions, name: string, line: string, lineNumber: int)
    ensures var r := RouteElement(opts, name, line, lineNumber);
            r.action.Open? ==> name in SectionOf && r.action.target == SectionOf[name]
  {
    SectionOfEntries();
  }

  /** A section element opens its bucket or is elided. */
  lemma SectionElementsOpen(opts: SortUtilityOptions, name: string, line: string, lineNumber: int)
    ensures var r := RouteElement(opts, name, line, lineNumber);
            name in SectionOf ==> r.action.Open? || r.action.Elide?
  {
    if name in InlineElements {
      InlineIsNotSection(name);
    }
  }

  /** The two tables do not overlap. */
  lemma InlineIsNotSection(name: string)
    requires name in InlineElements
    ensures name !in SectionOf
  {
  }

  /** The entries of `SectionOf`, one by one. */
  lemma SectionOfEntries()
    ensures SectionOf["summary"] == Summary
    ensures SectionOf["typeparam"] == TypeParam && SectionOf["typeparamref"] == TypeParam
    ensures SectionOf["param"] == Argument && SectionOf["paramref"] == Argument && SectionOf["value"] == Argument
    ensures SectionOf["remarks"] == Remarks && SectionOf["remark"] == Remarks
    ensures SectionOf["returns"] == Returns && SectionOf["return"] == Returns
    ensures SectionOf["exception"] == Exception
  {
  }

  /** Any other element continues the current bucket unchanged; only one outside both tables
      is reported. */
  lemma RouteElementOthers(opts: SortUtilityOptions, name: string, line: string, lineNumber: int)
    requires name !in SectionOf
    ensures var r := RouteElement(opts, name, line, lineNumber);
            && r.action == AppendToCurrent && r.text == line
            && (name !in InlineElements ==> r.diags == [UnrecognizedElement(lineNumber, name)])
            && (name in InlineElements ==> r.diags == [])
  {
  }

  /** A line is elided exactly when it is the empty form of an element removed when empty. */
  lemma RouteElementElides(opts: SortUtilityOptions, name: string, line: string, lineNumber: int)
    ensures var r := RouteElement(opts, name, line, lineNumber);
            r.action == Elide <==> IsEmptyBlockToSkip(opts, name, r.text)
  {
    if name == "value" {
      ValueRoute(opts, line, lineNumber);
    } else if name == "remarks" {
      RemarksRoute(opts, line, lineNumber);
    } else if name == "remark" {
      RemarkRoute(opts, line, lineNumber);
    } else if name == "returns" {
      ReturnsRoute(opts, line, lineNumber);
    } else if name == "return" {
      ReturnRoute(opts, line, lineNumber);
    } else {
      assert !RemovedWhenEmpty(opts, name);
      assert RouteElement(opts, name, line, lineNumber).action != Elide;
    }
  }

  // The five elements that may be removed when empty go through HandleElement; one lemma per
  // name keeps each comparison of literal names small.

  lemma ValueRoute(opts: SortUtilityOptions, line: string, lineNumber: int)
    ensures RouteElement(opts, "value", line, lineNumber) ==
              RouteSectionElement(opts, "value", "value", "", Argument, line, lineNumber)
  {
  }

  lemma RemarksRoute(opts: SortUtilityOptions, line: string, lineNumber: int)
    ensures RouteElement(opts, "remarks", line, lineNumber) ==
              RouteSectionElement(opts, "remarks", "remarks", "remark", Remarks, line, lineNumber)
  {
    assert "remarks" !in InlineElements;
  }

  lemma RemarkRoute(opts: SortUtilityOptions, line: string, lineNumber: int)
    ensures RouteElement(opts, "remark", line, lineNumber) ==
              RouteSectionElement(opts, "remark", "remarks", "remark", Remarks, line, lineNumber)
  {
    assert "remark" !in InlineElements;
  }

  lemma ReturnsRoute(opts: SortUtilityOptions, line: string, lineNumber: int)
    ensures RouteElement(opts, "returns", line, lineNumber) ==
              RouteSectionElement(opts, "returns", "returns", "return", Returns, line, lineNumber)
  {
    assert "returns" !in InlineElements;
  }

  lemma ReturnRoute(opts: SortUtilityOptions, line: string, lineNumber: int)
    ensures RouteElement(opts, "return", line, lineNumber) ==
              RouteSectionElement(opts, "return", "returns", "return", Returns, line, lineNumber)
  {
    assert "return" !in InlineElements;
  }

  /** Only a renamed synonym changes the text, and it is reported. */
  lemma RouteElementRenames(opts: SortUtilityOptions, name: string, line: string, lineNumber: int)
    ensures var r := RouteElement(opts, name, line, lineNumber);
            r.text != line ==> opts.renameInvalidElements && r.diags != []
  {
  }

  /** An element line never ends the block, nor stops it after being appended. */
  lemma RouteElementContinues(opts: SortUtilityOptions, name: string, line: string, lineNumber: int)
    ensures var r := RouteElement(opts, name, line, lineNumber);
            r.action != EndBlock && r.action != AppendAndStop
  {
  }

  /** The classification chain never lets a line end the block unless it is a non-empty line
      that is neither a plain comment nor a `///` line, and such a line passes unchanged. */
  lemma RepairedEndBlock(opts: SortUtilityOptions, line: string, lineNumber: int)
    ensures RouteRepaired(opts, line, lineNumber).action == EndBlock <==>
              line != "" && !IsPlainComment(line) && !StartsWith(TrimStart(line), Marker)
    ensures RouteRepaired(opts, line, lineNumber).action == EndBlock ==>
              RouteRepaired(opts, line, lineNumber).text == line && RouteRepaired(opts, line, lineNumber).diags == []
  {
    if line != "" && !IsPlainComment(line) && ElementName(line).Some? {
      ElementLineContinues(opts, line, lineNumber);
    } else if line != "" && IsPlainComment(line) && StartsWith(TrimStart(line), Marker) {
      TripleSlashIsNotComment(line);
    }
  }

  /** An element line is a `///` line, and it neither ends nor stops the block. */
  lemma ElementLineContinues(opts: SortUtilityOptions, line: string, lineNumber: int)
    requires line != "" && !IsPlainComment(line) && ElementName(line).Some?
    ensures StartsWith(TrimStart(line), Marker)
    ensures RouteRepaired(opts, line, lineNumber).action != EndBlock
    ensures RouteRepaired(opts, line, lineNumber).action != AppendAndStop
  {
    MarkerSurvivesTrim(line);
    RouteElementContinues(opts, ElementName(line).value, line, lineNumber);
  }


  /** Only a commented-out declaration stops the block after being appended. */
  lemma RepairedStop(opts: SortUtilityOptions, line: string, lineNumber: int)
    ensures RouteRepaired(opts, line, lineNumber).action == AppendAndStop <==>
              line != "" && IsPlainComment(line) && IsCommentedScope(line)
    ensures RouteRepaired(opts, line, lineNumber).action == AppendAndStop ==>
              RouteRepaired(opts, line, lineNumber).text == line && RouteRepaired(opts, line, lineNumber).diags == []
  {
    if line != "" && !IsPlainComment(line) && ElementName(line).Some? {
      ElementLineContinues(opts, line, lineNumber);
    }
  }

  /** Only an element line can open a bucket or be elided, and it is routed by its name. */
  lemma RepairedElement(opts: SortUtilityOptions, line: string, lineNumber: int)
    ensures var r := RouteRepaired(opts, line, lineNumber);
            (r.action.Open? || r.action == Elide) ==> ElementName(line).Some?
    ensures ElementName(line).Some? ==>
              RouteRepaired(opts, line, lineNumber) == RouteElement(opts, ElementName(line).value, line, lineNumber)
  {
    if line == "" {
    } else if IsPlainComment(line) {
    } else if ElementName(line).Some? {
    } else {
    }
    if ElementName(line).Some? {
      MarkerSurvivesTrim(line);
      TripleSlashIsNotComment(line);
    }
  }

  /** Outside renaming, the classification chain passes the line on unchanged; any change
      comes with a warning. */
  lemma RepairedText(opts: SortUtilityOptions, line: string, lineNumber: int)
    ensures var r := RouteRepaired(opts, line, lineNumber);
            r.text != line ==> opts.renameInvalidElements && r.diags != []
  {
    if line == "" {
    } else if IsPlainComment(line) {
    } else if ElementName(line).Some? {
      RouteElementRenames(opts, ElementName(line).value, line, lineNumber);
    } else {
    }
  }

  /** A line is changed only when renaming is enabled, and every change comes with a warning. */
  lemma TextChangesOnlyWhenRenaming(opts: SortUtilityOptions, raw: string, lineNumber: int)
    ensures var r := RouteLine(opts, raw, lineNumber);
            r.text != raw ==> opts.renameInvalidElements && r.diags != []
    ensures !opts.renameInvalidElements ==> RouteLine(opts, raw, lineNumber).text == raw
  {
    RepairedText(opts, RepairDoubled(opts, raw), lineNumber);
  }

  /** The line that ends a block: it is not empty, not a plain comment and does not start with
      `///` once trimmed (a line of white space qualifies); it is passed on as it was read. */
  lemma TerminatorIsVerbatim(opts: SortUtilityOptions, raw: string, lineNumber: int)
    ensures RouteLine(opts, raw, lineNumber).action == EndBlock <==>
              raw != "" && !IsPlainComment(raw) && !StartsWith(TrimStart(raw), Marker)
    ensures RouteLine(opts, raw, lineNumber).action == EndBlock ==>
              RouteLine(opts, raw, lineNumber).text == raw && RouteLine(opts, raw, lineNumber).diags == []
  {
    if StartsWith(TrimStart(raw), Marker) {
      BlockLineStaysInBlock(opts, raw, lineNumber);
    } else {
      UnmarkedLineAsRepaired(opts, raw, lineNumber);
      RepairedEndBlock(opts, raw, lineNumber);
    }
  }

  /** Without the `///` marker there is nothing to repair or warn about before classification. */
  lemma UnmarkedLineAsRepaired(opts: SortUtilityOptions, raw: string, lineNumber: int)
    requires !StartsWith(TrimStart(raw), Marker)
    ensures RouteLine(opts, raw, lineNumber) == RouteRepaired(opts, raw, lineNumber)
  {
    DoubledIsMarker(raw);
    assert RepairDoubled(opts, raw) == raw;
    assert DoubledDiagnostics(opts, raw, lineNumber) == [];
    assert [] + RouteRepaired(opts, raw, lineNumber).diags == RouteRepaired(opts, raw, lineNumber).diags;
  }

  /** A doubled marker is reported, first among the line's warnings, whether or not renaming
      is enabled; the warning shows the line as it reads once repaired. */
  lemma DoubledMarkerIsReported(opts: SortUtilityOptions, raw: string, lineNumber: int)
    requires HasDoubledMarker(raw)
    ensures var d := RouteLine(opts, raw, lineNumber).diags;
            |d| > 0 && d[0] == InvalidFormat(lineNumber, Trim(ReplaceFirst(raw, DoubledMarker, Marker)),
                                             opts.renameInvalidElements)
  {
  }

  /** A line that opens with the deprecated `<remark>` or `<return>` is reported, whether or
      not renaming is enabled. */
  lemma SynonymIsReported(opts: SortUtilityOptions, raw: string, lineNumber: int)
    ensures var line := RepairDoubled(opts, raw);
            ElementName(line) == Some("remark") ==>
              InvalidElementName(lineNumber, "remark", "remarks", false, opts.renameInvalidElements)
                in RouteLine(opts, raw, lineNumber).diags
    ensures var line := RepairDoubled(opts, raw);
            ElementName(line) == Some("return") ==>
              InvalidElementName(lineNumber, "return", "returns", false, opts.renameInvalidElements)
                in RouteLine(opts, raw, lineNumber).diags
  {
    var line := RepairDoubled(opts, raw);
    RepairedElement(opts, line, lineNumber);
    var d := DoubledDiagnostics(opts, raw, lineNumber);
    var r := RouteRepaired(opts, line, lineNumber);
    if ElementName(line) == Some("remark") {
      RemarkIsReported(opts, line, lineNumber);
      assert (d + r.diags)[|d|] == r.diags[0];
    } else if ElementName(line) == Some("return") {
      ReturnIsReported(opts, line, lineNumber);
      assert (d + r.diags)[|d|] == r.diags[0];
    }
  }

  /** `<remark>` is reported as a misspelling of `<remarks>`. */
  lemma RemarkIsReported(opts: SortUtilityOptions, line: string, lineNumber: int)
    ensures RouteElement(opts, "remark", line, lineNumber).diags ==
              [InvalidElementName(lineNumber, "remark", "remarks", false, opts.renameInvalidElements)]
  {
    RemarkRoute(opts, line, lineNumber);
    assert "remark"[0] == 'r';
    SynonymDiagnostic(opts, "remark", "remarks", Remarks, line, lineNumber);
  }

  /** `<return>` is reported as a misspelling of `<returns>`. */
  lemma ReturnIsReported(opts: SortUtilityOptions, line: string, lineNumber: int)
    ensures RouteElement(opts, "return", line, lineNumber).diags ==
              [InvalidElementName(lineNumber, "return", "returns", false, opts.renameInvalidElements)]
  {
    ReturnRoute(opts, line, lineNumber);
    assert "return"[0] == 'r';
    SynonymDiagnostic(opts, "return", "returns", Returns, line, lineNumber);
  }

  /** HandleElement reports a synonym under the name it should have, renamed or not. */
  lemma SynonymDiagnostic(opts: SortUtilityOptions, x: string, expected: string, target: Section,
                          line: string, lineNumber: int)
    requires x != [] && !IsWhiteSpace(x[0])
    ensures RouteSectionElement(opts, x, expected, x, target, line, lineNumber).diags ==
              [InvalidElementName(lineNumber, x, expected, false, opts.renameInvalidElements)]
  {
    assert !IsNullOrWhiteSpace(x);
  }

  /** A `///` line that opens no element but holds a `</remark>` or `</return>`: the last such
      tag names the element, every closing tag of that name is renamed to its plural form only
      when renaming is enabled, the line continues the current section and it is reported as a
      closing tag either way. */
  lemma LoneClosingTagRepair(opts: SortUtilityOptions, raw: string, lineNumber: int)
    requires ElementName(RepairDoubled(opts, raw)).None? && InvalidClosingName(RepairDoubled(opts, raw)).Some?
    ensures var line := RepairDoubled(opts, raw);
            var x := InvalidClosingName(line).value;
            var r := RouteLine(opts, raw, lineNumber);
            && r.action == AppendToCurrent
            && r.text == (if opts.renameInvalidElements then ReplaceAll(line, "</" + x + ">", "</" + x + "s>") else line)
            && InvalidElementName(lineNumber, x, x + "s", true, opts.renameInvalidElements) in r.diags
  {
    var line := RepairDoubled(opts, raw);
    MarkerSurvivesTrim(line);
    TripleSlashIsNotComment(line);
    var d := DoubledDiagnostics(opts, raw, lineNumber);
    var r := RouteRepaired(opts, line, lineNumber);
    assert (d + r.diags)[|d|] == r.diags[0];
  }

  /** A commented-out declaration (`// public ...`) is exactly the line that is appended and
      stops the block; it is kept as it was read. */
  lemma ScopeCommentStops(opts: SortUtilityOptions, raw: string, lineNumber: int)
    ensures RouteLine(opts, raw, lineNumber).action == AppendAndStop <==> IsCommentedScope(raw)
    ensures RouteLine(opts, raw, lineNumber).action == AppendAndStop ==>
              RouteLine(opts, raw, lineNumber).text == raw && RouteLine(opts, raw, lineNumber).diags == []
  {
    if StartsWith(TrimStart(raw), Marker) {
      BlockLineStaysInBlock(opts, raw, lineNumber);
      MarkedLineIsNoScope(raw);
    } else {
      UnmarkedLineAsRepaired(opts, raw, lineNumber);
      RepairedStop(opts, raw, lineNumber);
      ScopeIsNonEmptyComment(raw);
    }
  }

  /** A `///` line is not a commented-out declaration. */
  lemma MarkedLineIsNoScope(raw: string)
    requires StartsWith(TrimStart(raw), Marker)
    ensures !IsCommentedScope(raw)
  {
    TripleSlashIsNotComment(raw);
    if IsCommentedScope(raw) {
      ScopeIsComment(raw);
    }
  }

  /** A commented-out declaration is a plain comment, and so not the empty line. */
  lemma ScopeIsNonEmptyComment(raw: string)
    ensures IsCommentedScope(raw) ==> raw != "" && IsPlainComment(raw)
  {
    if IsCommentedScope(raw) {
      ScopeIsComment(raw);
    }
  }

  /** The first line of a block (trimmed, it starts with `///`) never ends the block. */
  lemma BlockLineStaysInBlock(opts: SortUtilityOptions, raw: string, lineNumber: int)
    requires StartsWith(TrimStart(raw), Marker)
    ensures RouteLine(opts, raw, lineNumber).action != EndBlock
    ensures RouteLine(opts, raw, lineNumber).action != AppendAndStop
  {
    var line := RepairDoubled(opts, raw);
    RepairKeepsMarker(opts, raw);
    RepairedEndBlock(opts, line, lineNumber);
    RepairedStop(opts, line, lineNumber);
    TripleSlashIsNotComment(line);
    assert RouteLine(opts, raw, lineNumber).action == RouteRepaired(opts, line, lineNumber).action;
  }

  /** Routing by element name follows the `SectionOf` table: a section element opens its
      bucket unless it is elided, any other element continues the current bucket, and only
      an element outside both tables is reported as unrecognized. Nothing but a section
      element opens a bucket. */
  lemma ElementRouting(opts: SortUtilityOptions, raw: string, lineNumber: int)
    ensures var line := RepairDoubled(opts, raw);
            var r := RouteLine(opts, raw, lineNumber);
            && (r.action.Open? ==>
                  ElementName(line).Some? && ElementName(line).value in SectionOf
                  && r.action.target == SectionOf[ElementName(line).value])
            && (ElementName(line).Some? && ElementName(line).value in SectionOf ==>
                  r.action.Open? || r.action.Elide?)
            && (ElementName(line).Some? && ElementName(line).value !in SectionOf ==>
                  r.action == AppendToCurrent && r.text == line)
            && (ElementName(line).Some? && ElementName(line).value !in SectionOf && ElementName(line).value !in InlineElements ==>
                  r.diags == DoubledDiagnostics(opts, raw, lineNumber) + [UnrecognizedElement(lineNumber, ElementName(line).value)])
  {
    var line := RepairDoubled(opts, raw);
    RepairedElement(opts, line, lineNumber);
    if ElementName(line).Some? {
      RouteElementSections(opts, ElementName(line).value, line, lineNumber);
      if ElementName(line).value !in SectionOf {
        RouteElementOthers(opts, ElementName(line).value, line, lineNumber);
      }
    }
  }

  /** A line is elided exactly when it is an element line whose trimmed text (after any
      rename) is the empty form of the element name as matched, and the options remove that
      element when empty. */
  lemma ElisionRule(opts: SortUtilityOptions, raw: string, lineNumber: int)
    ensures var line := RepairDoubled(opts, raw);
            var r := RouteLine(opts, raw, lineNumber);
            r.action == Elide <==> ElementName(line).Some? && IsEmptyBlockToSkip(opts, ElementName(line).value, r.text)
  {
    var line := RepairDoubled(opts, raw);
    RepairedElement(opts, line, lineNumber);
    if ElementName(line).Some? {
      RouteElementElides(opts, ElementName(line).value, line, lineNumber);
    }
  }

  /** The removal switches reported for the options are the ones the elision consults. */
  lemma ElisionFollowsEffectiveFlags(opts: SortUtilityOptions, name: string)
    ensures RemovedWhenEmpty(opts, name) <==>
              || ((name == "remarks" || name == "remark") && EffectiveRemoveEmptyRemarks(opts))
              || ((name == "returns" || name == "return") && EffectiveRemoveEmptyReturns(opts))
              || (name == "value" && EffectiveRemoveEmptyValue(opts))
  {
  }

  /** The one-line empty form of a removable element is elided, whatever it is indented by. */
  lemma EmptyFormIsElided(opts: SortUtilityOptions, name: string, indent: string)
    requires IsNullOrWhiteSpace(indent)
    requires RemovedWhenEmpty(opts, name)
    ensures IsEmptyBlockToSkip(opts, name, indent + EmptyElement(name))
  {
    var e := EmptyElement(name);
    TrimStartSkipsWhiteSpace(indent, e);
    TrimOfEmptyElement(name);
    assert e[0] == '/';
  }

  /** The empty form of an element has no white space to trim at either end. */
  lemma TrimOfEmptyElement(name: string)
    ensures Trim(EmptyElement(name)) == EmptyElement(name)
  {
    var e := EmptyElement(name);
    assert e[0] == '/' && e[|e| - 1] == '>';
  }

  /** Only the renaming switch and the four removal switches influence a line; the
      reporting options (verbose, quiet, update, recursion, path) never do. */
  lemma ReportingOptionsDoNotRoute(o1: SortUtilityOptions, o2: SortUtilityOptions, raw: string, lineNumber: int)
    requires o1.renameInvalidElements == o2.renameInvalidElements
    requires o1.removeEmptyBlocks == o2.removeEmptyBlocks
    requires o1.removeEmptyRemarks == o2.removeEmptyRemarks
    requires o1.removeEmptyReturns == o2.removeEmptyReturns
    requires o1.removeEmptyValueTags == o2.removeEmptyValueTags
    ensures RouteLine(o1, raw, lineNumber) == RouteLine(o2, raw, lineNumber)
  {
    var line := RepairDoubled(o1, raw);
    assert RepairDoubled(o2, raw) == line;
    assert DoubledDiagnostics(o1, raw, lineNumber) == DoubledDiagnostics(o2, raw, lineNumber);
    RepairedOptions(o1, o2, line, lineNumber);
  }

  /** The classification chain reads the same five switches. */
  lemma RepairedOptions(o1: SortUtilityOptions, o2: SortUtilityOptions, line: string, lineNumber: int)
    requires o1.renameInvalidElements == o2.renameInvalidElements
    requires o1.removeEmptyBlocks == o2.removeEmptyBlocks
    requires o1.removeEmptyRemarks == o2.removeEmptyRemarks
    requires o1.removeEmptyReturns == o2.removeEmptyReturns
    requires o1.removeEmptyValueTags == o2.removeEmptyValueTags
    ensures RouteRepaired(o1, line, lineNumber) == RouteRepaired(o2, line, lineNumber)
  {
    if line == "" {
    } else if IsPlainComment(line) {
    } else if ElementName(line).Some? {
      ElementOptions(o1, o2, ElementName(line).value, line, lineNumber);
    } else {
    }
  }

  /** The element switch reads the same five switches. */
  lemma ElementOptions(o1: SortUtilityOptions, o2: SortUtilityOptions, name: string, line: string, lineNumber: int)
    requires o1.renameInvalidElements == o2.renameInvalidElements
    requires o1.removeEmptyBlocks == o2.removeEmptyBlocks
    requires o1.removeEmptyRemarks == o2.removeEmptyRemarks
    requires o1.removeEmptyReturns == o2.removeEmptyReturns
    requires o1.removeEmptyValueTags == o2.removeEmptyValueTags
    ensures RouteElement(o1, name, line, lineNumber) == RouteElement(o2, name, line, lineNumber)
  {
  }
}
