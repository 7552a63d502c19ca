/**
  One documentation block (DocCommentSortUtilty.cs:211-424) as a fold over its routed lines:
  six buckets and a current section, the last non-blank line seen, the relocation of a
  trailing ReSharper suppression comment, and the block that is written back.
 */
module Blocks {
  import opened Wrappers
  import opened DotNetText
  import opened Options
  import opened Patterns
  import opened Routing

  /** The six section lists of a block. */
  datatype Buckets = Buckets(
    summaryLines: seq<string>, remarksLines: seq<string>, typeParamLines: seq<string>,
    argumentLines: seq<string>, returnLines: seq<string>, exceptionLines: seq<string>)

  const NoLines := Buckets([], [], [], [], [], [])

  /** The list that holds a section. */
  function Get(b: Buckets, s: Section): seq<string> {
    match s
    case Summary => b.summaryLines
    case Remarks => b.remarksLines
    case TypeParam => b.typeParamLines
    case Argument => b.argumentLines
    case Returns => b.returnLines
    case Exception => b.exceptionLines
  }

  /** `Add` on the list of one section. */
  function Append(b: Buckets, s: Section, line: string): (r: Buckets)
    ensures Get(r, s) == Get(b, s) + [line]
    ensures forall t :: t != s ==> Get(r, t) == Get(b, t)
  {
    match s
    case Summary => b.(summaryLines := b.summaryLines + [line])
    case Remarks => b.(remarksLines := b.remarksLines + [line])
    case TypeParam => b.(typeParamLines := b.typeParamLines + [line])
    case Argument => b.(argumentLines := b.argumentLines + [line])
    case Returns => b.(returnLines := b.returnLines + [line])
    case Exception => b.(exceptionLines := b.exceptionLines + [line])
  }

  /** `RemoveAt(Count - 1)` on the list of one section. */
  function RemoveLast(b: Buckets, s: Section): (r: Buckets)
    requires |Get(b, s)| > 0
    ensures Get(r, s) + [Get(b, s)[|Get(b, s)| - 1]] == Get(b, s)
    ensures forall t :: t != s ==> Get(r, t) == Get(b, t)
  {
    var l := Get(b, s);
    var k := |l| - 1;
    match s
    case Summary => b.(summaryLines := l[..k])
    case Remarks => b.(remarksLines := l[..k])
    case TypeParam => b.(typeParamLines := l[..k])
    case Argument => b.(argumentLines := l[..k])
    case Returns => b.(returnLines := l[..k])
    case Exception => b.(exceptionLines := l[..k])
  }

  /** The position of a section in the block that is written back. */
  function Rank(s: Section): nat {
    match s
    case Summary => 0
    case Remarks => 1
    case TypeParam => 2
    case Argument => 3
    case Returns => 4
    case Exception => 5
  }

  /** The sections concatenated in the fixed output order. */
  function Concat(b: Buckets): seq<string> {
    b.summaryLines + b.remarksLines + b.typeParamLines + b.argumentLines + b.returnLines + b.exceptionLines
  }

  /** The state of the block loop: the buckets, the section lines are being added to, and the
      last line that was not white space (`finalLine`). */
  datatype ScanState = ScanState(buckets: Buckets, current: Section, finalLine: string)

  const Start := ScanState(NoLines, Summary, "")

  /** A line that ends up in some bucket. */
  predicate Kept(r: Routed) {
    r.action == AppendToCurrent || r.action.Open? || r.action == AppendAndStop
  }

  /** One trip through the block loop. A commented-out declaration leaves the loop before
      `finalLine` is updated; an elided line still updates it. */
  function Step(st: ScanState, r: Routed): ScanState {
    var last := if IsNullOrWhiteSpace(r.text) then st.finalLine else r.text;
    match r.action
    case AppendToCurrent => ScanState(Append(st.buckets, st.current, r.text), st.current, last)
    case Open(target) => ScanState(Append(st.buckets, target, r.text), target, last)
    case Elide => ScanState(st.buckets, st.current, last)
    case AppendAndStop => ScanState(Append(st.buckets, st.current, r.text), st.current, st.finalLine)
    case EndBlock => st
  }

  /** The state after the given routed lines. */
  function Scan(rs: seq<Routed>): ScanState
    decreases |rs|
  {
    if rs == [] then Start else Step(Scan(rs[..|rs| - 1]), rs[|rs| - 1])
  }

  const ReSharperPrefix := "// ReSharper disable once Unused"

  /** The last non-blank line is a ReSharper suppression comment that is still the last line
      of the current section: it is moved to the end of the block. */
  predicate Relocates(st: ScanState) {
    var cur := Get(st.buckets, st.current);
    && StartsWithIgnoreCase(TrimStart(st.finalLine), ReSharperPrefix)
    && |cur| > 0
    && cur[|cur| - 1] == st.finalLine
  }

  /** The suppression comment that is moved is never the empty line. */
  lemma RelocatedLineIsNotEmpty(st: ScanState)
    requires Relocates(st)
    ensures |st.finalLine| > 0
  {
    assert ReSharperPrefix[0] == '/';
  }

  /** The block that is written back. */
  function Assemble(st: ScanState): seq<string> {
    if Relocates(st) then Concat(RemoveLast(st.buckets, st.current)) + [st.finalLine]
    else Concat(st.buckets)
  }

  // ---------------------------------------------------------------------------------------
  // Where a block ends

  /** Where a block ends: `stop` is the index of the first line that is not part of it, and
      `terminated` says whether that line was read (and must be passed on as it is). */
  datatype Extent = Extent(stop: nat, terminated: bool)

  /** Line `k` of a file. */
  function LineAt(lines: seq<string>, k: nat): string
    requires k < |lines|
  {
    lines[k]
  }

  /** `rs` holds every line of the input routed, line `k` being read as line number `k + 1`.
      The per-line equation only comes into play where `LineAt` names that line, so reasoning
      about a whole block never unfolds the routing of every line in it. */
  ghost predicate RoutedAs(opts: SortUtilityOptions, lines: seq<string>, rs: seq<Routed>) {
    && |rs| == |lines|
    && forall k {:trigger LineAt(lines, k)} :: 0 <= k < |lines| ==> rs[k] == RouteLine(opts, LineAt(lines, k), k + 1)
  }

  /** The routed lines of a file. The block loop routes each line it reads exactly once, so the
      block functions below take these routed lines as given. */
  ghost function RouteAll(opts: SortUtilityOptions, lines: seq<string>): (rs: seq<Routed>)
    ensures RoutedAs(opts, lines, rs)
  {
    RoutingExists(opts, lines);
    var rs :| RoutedAs(opts, lines, rs);
    rs
  }

  lemma RoutingExists(opts: SortUtilityOptions, lines: seq<string>)
    ensures exists rs :: RoutedAs(opts, lines, rs)
  {
    var routed := seq(|lines|, k requires 0 <= k < |lines| => RouteLine(opts, lines[k], k + 1));
    forall k | 0 <= k < |lines|
      ensures routed[k] == RouteLine(opts, LineAt(lines, k), k + 1)
    {
      assert LineAt(lines, k) == lines[k];
    }
    assert RoutedAs(opts, lines, routed);
  }

  lemma RouteAllAt(opts: SortUtilityOptions, lines: seq<string>, k: nat)
    requires k < |lines|
    ensures |RouteAll(opts, lines)| == |lines|
    ensures RouteAll(opts, lines)[k] == RouteLine(opts, lines[k], k + 1)
  {
    assert LineAt(lines, k) == lines[k];
  }

  /** A line that ends a block raises no warning. */
  lemma TerminatorIsSilent(opts: SortUtilityOptions, lines: seq<string>, k: nat)
    requires k < |lines| && RouteAll(opts, lines)[k].action == EndBlock
    ensures RouteAll(opts, lines)[k].diags == []
  {
    RouteAllAt(opts, lines, k);
    TerminatorIsVerbatim(opts, lines[k], k + 1);
  }

  /** The extent of the block whose line `j` is being read. The loop reads on until a line
      ends the block, a commented-out declaration stops it, or the input runs out. */
  function BlockExtent(rs: seq<Routed>, j: nat): (e: Extent)
    requires j < |rs|
    ensures j <= e.stop <= |rs|
    ensures e.terminated ==> e.stop < |rs|
    ensures !e.terminated ==> j < e.stop
    decreases |rs| - j
  {
    if rs[j].action == EndBlock then Extent(j, true)
    else if rs[j].action == AppendAndStop || j + 1 == |rs| then Extent(j + 1, false)
    else BlockExtent(rs, j + 1)
  }

  /** A block ends at a terminator, or after a line that stops it, or at the end of input. */
  lemma {:induction false} BlockExtentEnds(rs: seq<Routed>, j: nat)
    requires j < |rs|
    ensures var e := BlockExtent(rs, j);
            && (e.terminated ==> rs[e.stop].action == EndBlock)
            && (!e.terminated ==> e.stop == |rs| || rs[e.stop - 1].action == AppendAndStop)
    decreases |rs| - j
  {
    if rs[j].action != EndBlock && rs[j].action != AppendAndStop && j + 1 < |rs| {
      BlockExtentEnds(rs, j + 1);
    }
  }

  /** A block runs up to the first terminator, or up to and including the first line that
      stops it, whichever comes first. */
  lemma {:induction false} BlockExtentScope(rs: seq<Routed>, j: nat)
    requires j < |rs|
    ensures var e := BlockExtent(rs, j);
            && (forall k :: j <= k < e.stop ==> rs[k].action != EndBlock)
            && (forall k :: j <= k < e.stop - 1 ==> rs[k].action != AppendAndStop)
    decreases |rs| - j
  {
    if rs[j].action != EndBlock && rs[j].action != AppendAndStop && j + 1 < |rs| {
      BlockExtentScope(rs, j + 1);
    }
  }

  /** The texts of routed lines. */
  function Texts(rs: seq<Routed>): (ts: seq<string>)
    ensures |ts| == |rs|
    decreases |rs|
  {
    if rs == [] then [] else Texts(rs[..|rs| - 1]) + [rs[|rs| - 1].text]
  }

  lemma {:induction false} TextsAt(rs: seq<Routed>, k: nat)
    requires k < |rs|
    ensures Texts(rs)[k] == rs[k].text
    decreases |rs|
  {
    var n := |rs| - 1;
    if k < n {
      TextsAt(rs[..n], k);
    }
  }

  /** The texts of the elided lines, in order. */
  function Elided(rs: seq<Routed>): seq<string>
    decreases |rs|
  {
    if rs == [] then []
    else Elided(rs[..|rs| - 1]) + (if rs[|rs| - 1].action == Elide then [rs[|rs| - 1].text] else [])
  }

  /** The warnings of routed lines, in order. */
  function Diags(rs: seq<Routed>): seq<Diagnostic>
    decreases |rs|
  {
    if rs == [] then [] else Diags(rs[..|rs| - 1]) + rs[|rs| - 1].diags
  }

  /** What processing one block yields: the lines as read, the lines written back, whether
      they differ, the line that ended the block (if one was read), where the file loop
      resumes, and the warnings raised. */
  datatype BlockOutcome = BlockOutcome(
    original: seq<string>, updated: seq<string>, changed: bool,
    nextLine: Option<string>, resume: nat, diags: seq<Diagnostic>)

  /** The routed lines of the block that starts at `start`. */
  function BlockRoutes(rs: seq<Routed>, start: nat): (block: seq<Routed>)
    requires start < |rs|
    ensures |block| <= |rs| - start
    ensures forall k :: 0 <= k < |block| ==> block[k] == rs[start + k]
  {
    rs[start..BlockExtent(rs, start).stop]
  }

  /** ProcessDocumentationBlock for the block whose first line is `lines[start]`, given the
      routed lines `rs` of the whole input. */
  function ProcessBlock(lines: seq<string>, rs: seq<Routed>, start: nat): (o: BlockOutcome)
    requires |rs| == |lines| && start < |lines|
    ensures start < o.resume <= |lines|
    ensures o.changed <==> o.original != o.updated
    ensures o.nextLine.Some? ==> o.nextLine.value == lines[o.resume - 1]
    ensures o.nextLine.Some? ==> o.original == lines[start..o.resume - 1]
    ensures o.nextLine.None? ==> o.original == lines[start..o.resume]
    ensures |o.original| == |BlockRoutes(rs, start)|
    ensures o.updated == Assemble(Scan(BlockRoutes(rs, start)))
    ensures o.diags == Diags(BlockRoutes(rs, start))
  {
    var e := BlockExtent(rs, start);
    var block := BlockRoutes(rs, start);
    var original := lines[start..e.stop];
    var updated := Assemble(Scan(block));
    if e.terminated then
      BlockOutcome(original, updated, original != updated, Some(lines[e.stop]), e.stop + 1, Diags(block))
    else
      BlockOutcome(original, updated, original != updated, None, e.stop, Diags(block))
  }

  /** Where a block ends decides what ProcessBlock yields: a block stopped by a terminator
      hands that line back and resumes after it; any other block resumes where it stopped. */
  lemma BlockOutcomeByStop(lines: seq<string>, rs: seq<Routed>, start: nat, stop: nat, terminated: bool)
    requires |rs| == |lines| && start < |lines|
    requires BlockExtent(rs, start) == Extent(stop, terminated)
    ensures var o := ProcessBlock(lines, rs, start);
            && start <= stop <= |lines|
            && o.original == lines[start..stop]
            && o.resume == (if terminated then stop + 1 else stop)
            && o.nextLine == (if terminated then Some(lines[stop]) else None)
            && o.updated == Assemble(Scan(rs[start..stop]))
            && o.diags == Diags(rs[start..stop])
            && (o.changed <==> lines[start..stop] != o.updated)
  {
  }

  /** A line that neither ends nor stops the block, with more input after it, leaves the
      extent of the block unchanged. */
  lemma ExtentGoesOn(rs: seq<Routed>, j: nat)
    requires j + 1 < |rs| && rs[j].action != EndBlock && rs[j].action != AppendAndStop
    ensures BlockExtent(rs, j) == BlockExtent(rs, j + 1)
  {
  }

  /** A slice extended by the element after it. */
  lemma Grow<T>(s: seq<T>, a: nat, b: nat)
    requires a <= b < |s|
    ensures s[a..b + 1] == s[a..b] + [s[b]]
  {
  }

  /** The lines of a slice but its last. */
  lemma DropLast<T>(s: seq<T>, a: nat, b: nat, t: seq<T>)
    requires a <= b < |s| && t == s[a..b + 1]
    ensures t[..|t| - 1] == s[a..b]
  {
  }

  /** One more line read into a block: the state is one more step of the loop. */
  lemma ReadOneMore(rs: seq<Routed>, start: nat, j: nat)
    requires start <= j < |rs|
    ensures Scan(rs[start..j + 1]) == Step(Scan(rs[start..j]), rs[j])
  {
    var t := rs[start..j + 1];
    assert t[..|t| - 1] == rs[start..j];
    assert t[|t| - 1] == rs[j];
  }

  /** The line that ends a block adds nothing to the block's warnings. */
  lemma TerminatorAddsNoWarning(opts: SortUtilityOptions, lines: seq<string>, rs: seq<Routed>, start: nat, j: nat)
    requires rs == RouteAll(opts, lines)
    requires start <= j < |lines| && rs[j].action == EndBlock
    ensures Diags(rs[start..j + 1]) == Diags(rs[start..j])
  {
    TerminatorIsSilent(opts, lines, j);
    WarnOneMore(rs, start, j);
    assert Diags(rs[start..j]) + rs[j].diags == Diags(rs[start..j]);
  }

  /** One more line read into a block: its warnings follow those of the lines before. */
  lemma WarnOneMore(rs: seq<Routed>, start: nat, j: nat)
    requires start <= j < |rs|
    ensures Diags(rs[start..j + 1]) == Diags(rs[start..j]) + rs[j].diags
  {
    assert rs[start..j + 1][..j - start] == rs[start..j];
  }

  // ---------------------------------------------------------------------------------------
  // The current section and the buckets

  /** The target of the last line that opened a section, or the summaryLines when none did. */
  function LastOpened(rs: seq<Routed>): Section
    decreases |rs|
  {
    if rs == [] then Summary
    else if rs[|rs| - 1].action.Open? then rs[|rs| - 1].action.target
    else LastOpened(rs[..|rs| - 1])
  }

  /** The section line `k` is added to: its own target if it opens one, otherwise the section
      opened last before it. */
  function Destination(rs: seq<Routed>, k: nat): Section
    requires k < |rs|
  {
    if rs[k].action.Open? then rs[k].action.target else LastOpened(rs[..k])
  }

  /** The kept lines whose destination is `s`, in their original order. */
  function Bucket(rs: seq<Routed>, s: Section): seq<string>
    decreases |rs|
  {
    if rs == [] then []
    else
      var n := |rs| - 1;
      Bucket(rs[..n], s) + (if Kept(rs[n]) && Destination(rs, n) == s then [rs[n].text] else [])
  }

  /** The section lines are added to is always the one opened last; eliding a line, a
      commented-out declaration or the end of the block never changes it. */
  lemma {:induction false} CurrentIsLastOpened(rs: seq<Routed>)
    ensures Scan(rs).current == LastOpened(rs)
    decreases |rs|
  {
    if rs != [] {
      CurrentIsLastOpened(rs[..|rs| - 1]);
    }
  }

  /** Each bucket holds exactly the kept lines routed to it, in the order they were read:
      the block is a stable partition of its lines by destination. */
  lemma {:induction false} BucketContents(rs: seq<Routed>, s: Section)
    ensures Get(Scan(rs).buckets, s) == Bucket(rs, s)
    decreases |rs|
  {
    if rs != [] {
      var n := |rs| - 1;
      assert rs[..n][..n] == rs[..n];
      BucketContents(rs[..n], s);
      CurrentIsLastOpened(rs[..n]);
    }
  }

  /** Lines routed in section order (none elided, a commented-out declaration allowed) come
      back in the order they were read. */
  lemma {:induction false} SortedLinesStayInPlace(rs: seq<Routed>)
    requires forall k :: 0 <= k < |rs| ==> rs[k].action == AppendToCurrent || rs[k].action.Open? || rs[k].action == AppendAndStop
    requires forall i, j :: 0 <= i < j < |rs| ==> Rank(Destination(rs, i)) <= Rank(Destination(rs, j))
    ensures Concat(Scan(rs).buckets) == Texts(rs)
    ensures forall t :: (rs == [] || Rank(t) > Rank(Destination(rs, |rs| - 1))) ==> Get(Scan(rs).buckets, t) == []
    decreases |rs|
  {
    if rs != [] {
      var n := |rs| - 1;
      var p := rs[..n];
      forall k | 0 <= k < n ensures Destination(p, k) == Destination(rs, k) {
        assert p[..k] == rs[..k];
      }
      SortedLinesStayInPlace(p);
      var b := Scan(p).buckets;
      var s := Destination(rs, n);
      CurrentIsLastOpened(p);
      assert Scan(rs).buckets == Append(b, s, rs[n].text);
      forall t | Rank(t) > Rank(s) ensures Get(b, t) == [] {
        if p != [] {
          assert Rank(Destination(p, n - 1)) <= Rank(s);
        }
      }
      AppendAtEnd(b, s, rs[n].text);
      assert Texts(rs) == Texts(p) + [rs[n].text];
    }
  }

  /** Appending to the last non-empty section appends to the whole block. */
  lemma AppendAtEnd(b: Buckets, s: Section, line: string)
    requires forall t :: Rank(t) > Rank(s) ==> Get(b, t) == []
    ensures Concat(Append(b, s, line)) == Concat(b) + [line]
  {
    var l := [line];
    match s
    case Summary =>
      assert Get(b, Remarks) == [] && Get(b, TypeParam) == [] && Get(b, Argument) == [];
      assert Get(b, Returns) == [] && Get(b, Exception) == [];
    case Remarks =>
      assert Get(b, TypeParam) == [] && Get(b, Argument) == [];
      assert Get(b, Returns) == [] && Get(b, Exception) == [];
    case TypeParam =>
      assert Get(b, Argument) == [] && Get(b, Returns) == [] && Get(b, Exception) == [];
    case Argument =>
      assert Get(b, Returns) == [] && Get(b, Exception) == [];
    case Returns =>
      assert Get(b, Exception) == [];
    case Exception =>
  }

  // ---------------------------------------------------------------------------------------
  // Nothing is lost

  /** The lines of a block, counted section by section. */
  lemma ConcatCounts(b: Buckets)
    ensures multiset(Concat(b)) == multiset(b.summaryLines) + multiset(b.remarksLines)
      + multiset(b.typeParamLines) + multiset(b.argumentLines) + multiset(b.returnLines)
      + multiset(b.exceptionLines)
  {
  }

  /** Adding a line to one section adds it to the block. */
  lemma AppendAddsOne(b: Buckets, s: Section, line: string)
    ensures multiset(Concat(Append(b, s, line))) == multiset(Concat(b)) + multiset{line}
  {
    ConcatCounts(b);
    ConcatCounts(Append(b, s, line));
    SectionCountsAddOne(b, s, line);
  }

  /** The same, counted section by section. */
  lemma SectionCountsAddOne(b: Buckets, s: Section, line: string)
    ensures var r := Append(b, s, line);
      multiset(r.summaryLines) + multiset(r.remarksLines) + multiset(r.typeParamLines)
      + multiset(r.argumentLines) + multiset(r.returnLines) + multiset(r.exceptionLines)
      == multiset(b.summaryLines) + multiset(b.remarksLines) + multiset(b.typeParamLines)
      + multiset(b.argumentLines) + multiset(b.returnLines) + multiset(b.exceptionLines) + multiset{line}
  {
    var r := Append(b, s, line);
    assert multiset(Get(r, s)) == multiset(Get(b, s)) + multiset{line};
  }

  /** Taking the last line out of one section takes it out of the block. */
  lemma RemoveLastTakesOne(b: Buckets, s: Section)
    requires |Get(b, s)| > 0
    ensures multiset(Concat(RemoveLast(b, s))) + multiset{Get(b, s)[|Get(b, s)| - 1]} == multiset(Concat(b))
  {
    var l := Get(b, s);
    var k := |l| - 1;
    assert l[..k] + [l[k]] == l;
    var r := RemoveLast(b, s);
    assert Append(r, s, l[k]) == b by {
      match s
      case Summary =>
      case Remarks =>
      case TypeParam =>
      case Argument =>
      case Returns =>
      case Exception =>
    }
    AppendAddsOne(r, s, l[k]);
  }

  /** Moving the suppression comment to the end keeps the same lines. */
  lemma AssemblePermutes(st: ScanState)
    ensures multiset(Assemble(st)) == multiset(Concat(st.buckets))
  {
    if Relocates(st) {
      RemoveLastTakesOne(st.buckets, st.current);
    }
  }

  /** One trip through the block loop keeps the line it read or elides it. */
  lemma StepConserves(st: ScanState, r: Routed)
    requires r.action != EndBlock
    ensures multiset(Concat(Step(st, r).buckets)) + (if r.action == Elide then multiset{r.text} else multiset{})
      == multiset(Concat(st.buckets)) + multiset{r.text}
  {
    if r.action != Elide {
      AppendAddsOne(st.buckets, if r.action.Open? then r.action.target else st.current, r.text);
    }
  }

  /** Every line of a block is either kept or elided, never duplicated or invented. */
  lemma {:induction false} ScanConserves(rs: seq<Routed>)
    requires forall k :: 0 <= k < |rs| ==> rs[k].action != EndBlock
    ensures multiset(Concat(Scan(rs).buckets)) + multiset(Elided(rs)) == multiset(Texts(rs))
    decreases |rs|
  {
    if rs != [] {
      var n := |rs| - 1;
      var p := rs[..n];
      var r := rs[n];
      var e := if r.action == Elide then multiset{r.text} else multiset{};
      ScanConserves(p);
      assert multiset(Concat(Scan(rs).buckets)) + e == multiset(Concat(Scan(p).buckets)) + multiset{r.text} by {
        assert Scan(rs) == Step(Scan(p), r);
        StepConserves(Scan(p), r);
      }
      assert multiset(Texts(rs)) == multiset(Texts(p)) + multiset{r.text} by {
        assert Texts(rs) == Texts(p) + [r.text];
      }
      assert multiset(Elided(rs)) == multiset(Elided(p)) + e by {
        if r.action == Elide {
          assert Elided(rs) == Elided(p) + [r.text];
        } else {
          assert Elided(rs) == Elided(p);
        }
      }
      Rebalance(multiset(Concat(Scan(rs).buckets)), multiset(Concat(Scan(p).buckets)), e,
                multiset(Elided(p)), multiset(Texts(p)), multiset{r.text});
    }
  }

  /** Bookkeeping for `ScanConserves`, stated over any element type. */
  lemma Rebalance<T>(after: multiset<T>, before: multiset<T>, e: multiset<T>, elided: multiset<T>,
                     texts: multiset<T>, x: multiset<T>)
    requires after + e == before + x && before + elided == texts
    ensures after + (elided + e) == texts + x
  {
    assert after + (elided + e) == (after + e) + elided;
    assert (before + x) + elided == (before + elided) + x;
  }

  /** A block written back holds the lines that were read (after repair), less the elided
      ones. */
  lemma BlockConservation(lines: seq<string>, rs: seq<Routed>, start: nat)
    requires |rs| == |lines| && start < |lines|
    ensures multiset(ProcessBlock(lines, rs, start).updated) + multiset(Elided(BlockRoutes(rs, start)))
            == multiset(Texts(BlockRoutes(rs, start)))
  {
    var block := BlockRoutes(rs, start);
    BlockExtentScope(rs, start);
    ScanConserves(block);
    AssemblePermutes(Scan(block));
  }

  /** A block written back is as long as the block read less its elided lines, so it is
      never longer. */
  lemma BlockNeverGrows(lines: seq<string>, rs: seq<Routed>, start: nat)
    requires |rs| == |lines| && start < |lines|
    ensures |ProcessBlock(lines, rs, start).updated| + |Elided(BlockRoutes(rs, start))|
            == |ProcessBlock(lines, rs, start).original|
  {
    var block := BlockRoutes(rs, start);
    BlockConservation(lines, rs, start);
    SameCountSameLength(ProcessBlock(lines, rs, start).updated, Elided(block), Texts(block));
  }

  /** Sequences with the same elements have the same length. */
  lemma SameCountSameLength<T>(a: seq<T>, b: seq<T>, c: seq<T>)
    requires multiset(a) + multiset(b) == multiset(c)
    ensures |a| + |b| == |c|
  {
    assert |multiset(a) + multiset(b)| == |multiset(c)|;
  }

  /** A block none of whose lines was renamed or repaired: sorting it only reorders its lines
      and drops the elided ones, so with none elided it is a permutation of the block read. */
  lemma BlockIsPermutationWithoutRenaming(lines: seq<string>, rs: seq<Routed>, start: nat)
    requires |rs| == |lines| && start < |lines|
    requires forall k :: 0 <= k < |BlockRoutes(rs, start)| ==> BlockRoutes(rs, start)[k].text == lines[start + k]
    ensures multiset(ProcessBlock(lines, rs, start).updated) + multiset(Elided(BlockRoutes(rs, start)))
            == multiset(ProcessBlock(lines, rs, start).original)
    ensures Elided(BlockRoutes(rs, start)) == [] ==>
              multiset(ProcessBlock(lines, rs, start).updated) == multiset(ProcessBlock(lines, rs, start).original)
    ensures multiset(ProcessBlock(lines, rs, start).updated) <= multiset(ProcessBlock(lines, rs, start).original)
  {
    BlockConservation(lines, rs, start);
    BlockTextsAsRead(lines, rs, start);
  }

  /** When routing keeps the text of every line of the block, the block's routed texts are the
      lines read. */
  lemma BlockTextsAsRead(lines: seq<string>, rs: seq<Routed>, start: nat)
    requires |rs| == |lines| && start < |lines|
    requires forall k :: 0 <= k < |BlockRoutes(rs, start)| ==> BlockRoutes(rs, start)[k].text == lines[start + k]
    ensures Texts(BlockRoutes(rs, start)) == ProcessBlock(lines, rs, start).original
  {
    var block := BlockRoutes(rs, start);
    var o := ProcessBlock(lines, rs, start);
    assert o.original == lines[start..BlockExtent(rs, start).stop];
    forall k | 0 <= k < |block| ensures Texts(block)[k] == o.original[k] {
      TextsAt(block, k);
      assert o.original[k] == lines[start + k];
    }
  }

  /** With renaming off, every routed line keeps the text it was read with. */
  lemma RoutedTextUnchanged(opts: SortUtilityOptions, lines: seq<string>, k: nat)
    requires k < |lines| && !opts.renameInvalidElements
    ensures RouteAll(opts, lines)[k].text == lines[k]
  {
    RouteAllAt(opts, lines, k);
    TextChangesOnlyWhenRenaming(opts, lines[k], k + 1);
  }

  /** A line that starts a block is always part of it. */
  lemma BlockStartIsConsumed(opts: SortUtilityOptions, lines: seq<string>, start: nat)
    requires start < |lines| && StartsWith(TrimStart(lines[start]), Marker)
    ensures var o := ProcessBlock(lines, RouteAll(opts, lines), start);
            |o.original| > 0 && o.original[0] == lines[start]
  {
    var rs := RouteAll(opts, lines);
    RouteAllAt(opts, lines, start);
    BlockLineStaysInBlock(opts, lines[start], start + 1);
    FirstLineInBlock(lines, rs, start);
  }

  /** A block whose first line is not a terminator holds that line first. */
  lemma FirstLineInBlock(lines: seq<string>, rs: seq<Routed>, start: nat)
    requires |rs| == |lines| && start < |lines| && rs[start].action != EndBlock
    ensures var o := ProcessBlock(lines, rs, start);
            |o.original| > 0 && o.original[0] == lines[start]
  {
    var e := BlockExtent(rs, start);
    assert start < e.stop;
    assert ProcessBlock(lines, rs, start).original == lines[start..e.stop];
  }

  /** A block whose lines need no repair, none of which is elided and whose sections already
      come in order is reported unchanged, also when it ends in a commented-out declaration.
      A suppression comment that would be moved to the end is then already there. */
  lemma SortedBlockUnchanged(lines: seq<string>, rs: seq<Routed>, start: nat)
    requires |rs| == |lines| && start < |lines|
    requires var block := BlockRoutes(rs, start);
             && Texts(block) == ProcessBlock(lines, rs, start).original
             && (forall k :: 0 <= k < |block| ==>
                   block[k].action == AppendToCurrent || block[k].action.Open? || block[k].action == AppendAndStop)
             && (forall i, j :: 0 <= i < j < |block| ==> Rank(Destination(block, i)) <= Rank(Destination(block, j)))
    ensures !ProcessBlock(lines, rs, start).changed
  {
    var block := BlockRoutes(rs, start);
    SortedBlockComesBack(block);
  }

  /** Lines routed in section order are written back in the order they were read, the
      relocation of a suppression comment included. */
  lemma SortedBlockComesBack(block: seq<Routed>)
    requires forall k :: 0 <= k < |block| ==>
               block[k].action == AppendToCurrent || block[k].action.Open? || block[k].action == AppendAndStop
    requires forall i, j :: 0 <= i < j < |block| ==> Rank(Destination(block, i)) <= Rank(Destination(block, j))
    ensures Assemble(Scan(block)) == Texts(block)
  {
    var st := Scan(block);
    SortedLinesStayInPlace(block);
    if Relocates(st) {
      CurrentIsLastOpened(block);
      assert Destination(block, |block| - 1) == LastOpened(block);
      ReinsertAtEnd(st.buckets, st.current);
    }
  }

  /** Taking the last line off the last non-empty section and appending it to the block gives
      the block back. */
  lemma ReinsertAtEnd(b: Buckets, s: Section)
    requires |Get(b, s)| > 0
    requires forall t :: Rank(t) > Rank(s) ==> Get(b, t) == []
    ensures Concat(RemoveLast(b, s)) + [Get(b, s)[|Get(b, s)| - 1]] == Concat(b)
  {
    var x := Get(b, s)[|Get(b, s)| - 1];
    var r := RemoveLast(b, s);
    forall t | Rank(t) > Rank(s) ensures Get(r, t) == [] {
      assert t != s;
    }
    AppendAtEnd(r, s, x);
    SameSectionsSameBuckets(Append(r, s, x), b);
  }

  /** Buckets are equal when every section holds the same lines. */
  lemma SameSectionsSameBuckets(a: Buckets, b: Buckets)
    requires forall t :: Get(a, t) == Get(b, t)
    ensures a == b
  {
    assert Get(a, Summary) == Get(b, Summary) && Get(a, Remarks) == Get(b, Remarks);
    assert Get(a, TypeParam) == Get(b, TypeParam) && Get(a, Argument) == Get(b, Argument);
    assert Get(a, Returns) == Get(b, Returns) && Get(a, Exception) == Get(b, Exception);
  }

  /** The suppression comment that is moved is the last line of the block written back, and
      the rest is the block without it. */
  lemma RelocationMovesToEnd(st: ScanState)
    requires Relocates(st)
    ensures var out := Assemble(st);
            |out| > 0 && out[|out| - 1] == st.finalLine
            && out[..|out| - 1] == Concat(RemoveLast(st.buckets, st.current))
            && |out| == |Concat(st.buckets)|
  {
    var rest := Concat(RemoveLast(st.buckets, st.current));
    assert Assemble(st) == rest + [st.finalLine];
    assert (rest + [st.finalLine])[..|rest|] == rest;
    RemoveLastShortens(st.buckets, st.current);
  }

  /** Removing a line from one section shortens the block by one line. */
  lemma RemoveLastShortens(b: Buckets, s: Section)
    requires |Get(b, s)| > 0
    ensures |Concat(RemoveLast(b, s))| + 1 == |Concat(b)|
  {
    var r := RemoveLast(b, s);
    assert |Get(r, s)| + 1 == |Get(b, s)|;
    ConcatLength(r);
    ConcatLength(b);
    assert s == Summary || |Get(r, Summary)| == |Get(b, Summary)|;
    assert s == Remarks || |Get(r, Remarks)| == |Get(b, Remarks)|;
    assert s == TypeParam || |Get(r, TypeParam)| == |Get(b, TypeParam)|;
    assert s == Argument || |Get(r, Argument)| == |Get(b, Argument)|;
    assert s == Returns || |Get(r, Returns)| == |Get(b, Returns)|;
    assert s == Exception || |Get(r, Exception)| == |Get(b, Exception)|;
  }

  /** The block is as long as its sections together. */
  lemma ConcatLength(b: Buckets)
    ensures |Concat(b)| == |Get(b, Summary)| + |Get(b, Remarks)| + |Get(b, TypeParam)|
                           + |Get(b, Argument)| + |Get(b, Returns)| + |Get(b, Exception)|
  {
  }
}
