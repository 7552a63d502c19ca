/**
  The loop of SortDocumentationComments (DocCommentSortUtilty.cs:454-481) as a function over
  the lines of a file: lines outside documentation blocks are copied, each block is replaced by
  its sorted form, and the blocks that changed are counted.
 */
module FileScan {
  import opened Wrappers
  import opened DotNetText
  import opened Options
  import opened Patterns
  import opened Routing
  import opened Blocks
  import opened Warnings
  import opened Sequences

  /** What sorting a file yields: the lines written back, the number of blocks that changed,
      and the warnings raised, in order. */
  datatype FileOutcome = FileOutcome(output: seq<string>, sectionsUpdated: nat, diags: seq<Diagnostic>)

  /** A line that starts a documentation block once leading white space is removed. */
  predicate StartsBlock(line: string) {
    line != "" && StartsWith(TrimStart(line), Marker)
  }

  /** The file loop from line `pos` on, given the routed lines `rs` of the whole file. */
  function SortFrom(lines: seq<string>, rs: seq<Routed>, pos: nat): FileOutcome
    requires |rs| == |lines| && pos <= |lines|
    decreases |lines| - pos, 1
  {
    if pos == |lines| then FileOutcome([], 0, [])
    else if !StartsBlock(lines[pos]) then
      var rest := SortFrom(lines, rs, pos + 1);
      rest.(output := [lines[pos]] + rest.output)
    else
      SortBlock(lines, rs, pos)
  }

  /** The file loop at a line that starts a block: the block's sorted form and the line that
      ended it are written, the block is counted if it changed, and the loop goes on where the
      block left off. */
  function SortBlock(lines: seq<string>, rs: seq<Routed>, pos: nat): FileOutcome
    requires |rs| == |lines| && pos < |lines|
    decreases |lines| - pos, 0
  {
    var o := ProcessBlock(lines, rs, pos);
    var rest := SortFrom(lines, rs, o.resume);
    FileOutcome(o.updated + (if o.nextLine.Some? then [o.nextLine.value] else []) + rest.output,
                (if o.changed then 1 else 0) + rest.sectionsUpdated,
                o.diags + rest.diags)
  }

  /** Sorting the documentation comments of a whole file. */
  ghost function SortFile(opts: SortUtilityOptions, lines: seq<string>): FileOutcome {
    SortFrom(lines, RouteAll(opts, lines), 0)
  }

  /** The file is rewritten only with updating enabled and when some block changed. */
  predicate Rewrites(opts: SortUtilityOptions, f: FileOutcome) {
    opts.updateFiles && f.sectionsUpdated > 0
  }

  /** A block, the line that ended it (if one was read) and the rest of the file make up the
      file from where the block starts. */
  lemma BlockSplitsFile(lines: seq<string>, rs: seq<Routed>, pos: nat)
    requires |rs| == |lines| && pos < |lines|
    ensures var o := ProcessBlock(lines, rs, pos);
            lines[pos..] == o.original + (if o.nextLine.Some? then [o.nextLine.value] else []) + lines[o.resume..]
  {
    var e := BlockExtent(rs, pos);
    BlockOutcomeByStop(lines, rs, pos, e.stop, e.terminated);
    if e.terminated {
      SplitAround(lines, pos, e.stop);
    } else {
      SplitAt(lines, pos, e.stop);
    }
  }

  lemma SplitAround<T>(s: seq<T>, a: nat, b: nat)
    requires a <= b < |s|
    ensures s[a..] == s[a..b] + [s[b]] + s[b + 1..]
  {
  }

  lemma SplitAt<T>(s: seq<T>, a: nat, b: nat)
    requires a <= b <= |s|
    ensures s[a..] == s[a..b] + s[b..]
  {
  }

  /** One line outside any block: the file loop copies it and goes on with the next line. */
  lemma LineAdvance(lines: seq<string>, rs: seq<Routed>, p: nat, out: seq<string>)
    requires |rs| == |lines| && p < |lines| && !StartsBlock(lines[p])
    ensures var f := SortFrom(lines, rs, p);
            var rest := SortFrom(lines, rs, p + 1);
            && out + f.output == (out + [lines[p]]) + rest.output
            && f.sectionsUpdated == rest.sectionsUpdated
            && f.diags == rest.diags
  {
    var rest := SortFrom(lines, rs, p + 1);
    AppendAssociates(out, [lines[p]], rest.output);
  }

  /** A block: the file loop writes its sorted form and the line that ended it, counts it if
      it changed, adds its warnings, and goes on where the block left off. What the loop has
      gathered, followed by the outcome of the rest of the file, stays the outcome of the
      whole file. */
  lemma BlockAdvance(lines: seq<string>, rs: seq<Routed>, p: nat, total: FileOutcome,
                     out: seq<string>, count: nat, done: seq<Diagnostic>,
                     out': seq<string>, count': nat, done': seq<Diagnostic>)
    requires |rs| == |lines| && p < |lines| && StartsBlock(lines[p])
    requires out + SortFrom(lines, rs, p).output == total.output
    requires count + SortFrom(lines, rs, p).sectionsUpdated == total.sectionsUpdated
    requires done + SortFrom(lines, rs, p).diags == total.diags
    requires var o := ProcessBlock(lines, rs, p);
             && out' == out + o.updated + (if o.nextLine.Some? then [o.nextLine.value] else [])
             && count' == count + (if o.changed then 1 else 0)
             && done' == done + o.diags
    ensures var rest := SortFrom(lines, rs, ProcessBlock(lines, rs, p).resume);
            && out' + rest.output == total.output
            && count' + rest.sectionsUpdated == total.sectionsUpdated
            && done' + rest.diags == total.diags
  {
    var o := ProcessBlock(lines, rs, p);
    var rest := SortFrom(lines, rs, o.resume);
    var next := if o.nextLine.Some? then [o.nextLine.value] else [];
    assert SortFrom(lines, rs, p).output == o.updated + next + rest.output;
    AppendAssociates(out + o.updated, next, rest.output);
    AppendAssociates(out, o.updated, next + rest.output);
    AppendAssociates(o.updated, next, rest.output);
    AppendAssociates(done, o.diags, rest.diags);
  }

  /** At the end of the input, what the file loop has gathered is the whole outcome. */
  lemma FileLoopEnds(lines: seq<string>, rs: seq<Routed>, out: seq<string>, count: nat, done: seq<Diagnostic>,
                     total: FileOutcome)
    requires |rs| == |lines|
    requires out + SortFrom(lines, rs, |lines|).output == total.output
    requires count + SortFrom(lines, rs, |lines|).sectionsUpdated == total.sectionsUpdated
    requires done + SortFrom(lines, rs, |lines|).diags == total.diags
    ensures out == total.output && count == total.sectionsUpdated && done == total.diags
  {
    NothingAfterTheEnd(lines, rs);
    EmptyRest(out, SortFrom(lines, rs, |lines|).output, total.output);
    EmptyRest(done, SortFrom(lines, rs, |lines|).diags, total.diags);
  }

  lemma EmptyRest<T>(a: seq<T>, rest: seq<T>, whole: seq<T>)
    requires a + rest == whole && rest == []
    ensures a == whole
  {
    assert a + rest == a;
  }

  /** At the end of the input the file loop adds nothing. */
  lemma NothingAfterTheEnd(lines: seq<string>, rs: seq<Routed>)
    requires |rs| == |lines|
    ensures SortFrom(lines, rs, |lines|).output == []
    ensures SortFrom(lines, rs, |lines|).sectionsUpdated == 0
    ensures SortFrom(lines, rs, |lines|).diags == []
  {
  }

  /** Sorting never makes a file longer: blocks only lose their elided lines. */
  lemma {:induction false} OutputNeverLonger(lines: seq<string>, rs: seq<Routed>, pos: nat)
    requires |rs| == |lines| && pos <= |lines|
    ensures |SortFrom(lines, rs, pos).output| <= |lines| - pos
    decreases |lines| - pos
  {
    if pos < |lines| {
      if !StartsBlock(lines[pos]) {
        OutputNeverLonger(lines, rs, pos + 1);
      } else {
        var o := ProcessBlock(lines, rs, pos);
        OutputNeverLonger(lines, rs, o.resume);
        BlockNeverGrows(lines, rs, pos);
      }
    }
  }

  /** No block is counted as updated exactly when the file comes back as it was read. */
  lemma {:induction false} UnchangedIffIdentity(lines: seq<string>, rs: seq<Routed>, pos: nat)
    requires |rs| == |lines| && pos <= |lines|
    ensures SortFrom(lines, rs, pos).sectionsUpdated == 0 <==> SortFrom(lines, rs, pos).output == lines[pos..]
    decreases |lines| - pos
  {
    if pos < |lines| {
      if !StartsBlock(lines[pos]) {
        UnchangedIffIdentity(lines, rs, pos + 1);
        assert lines[pos..] == [lines[pos]] + lines[pos + 1..];
      } else {
        UnchangedIffIdentity(lines, rs, ProcessBlock(lines, rs, pos).resume);
        BlockUnchangedIffIdentity(lines, rs, pos);
      }
    }
  }

  /** The step of UnchangedIffIdentity at a block: the file from the block on comes back as
      read exactly when the block does and the rest of the file does. */
  lemma BlockUnchangedIffIdentity(lines: seq<string>, rs: seq<Routed>, pos: nat)
    requires |rs| == |lines| && pos < |lines| && StartsBlock(lines[pos])
    requires var rest := SortFrom(lines, rs, ProcessBlock(lines, rs, pos).resume);
             rest.sectionsUpdated == 0 <==> rest.output == lines[ProcessBlock(lines, rs, pos).resume..]
    ensures SortFrom(lines, rs, pos).sectionsUpdated == 0 <==> SortFrom(lines, rs, pos).output == lines[pos..]
  {
    var o := ProcessBlock(lines, rs, pos);
    var rest := SortFrom(lines, rs, o.resume);
    var next := if o.nextLine.Some? then [o.nextLine.value] else [];
    OutputNeverLonger(lines, rs, o.resume);
    BlockNeverGrows(lines, rs, pos);
    BlockSplitsFile(lines, rs, pos);
    assert SortFrom(lines, rs, pos) == SortBlock(lines, rs, pos);
    if SortFrom(lines, rs, pos).output == lines[pos..] {
      SplitsAgree(o.updated, next, rest.output, o.original, lines[o.resume..]);
    }
  }

  /** Two texts cut in three with the same middle, where neither of the first's outer parts
      is longer than the second's, agree part by part. */
  lemma SplitsAgree<T>(a: seq<T>, n: seq<T>, b: seq<T>, a': seq<T>, b': seq<T>)
    requires a + n + b == a' + n + b' && |a| <= |a'| && |b| <= |b'|
    ensures a == a' && b == b'
  {
    assert |a| == |a'|;
    assert a == (a + n + b)[..|a|] == (a' + n + b')[..|a'|] == a';
    assert b == (a + n + b)[|a| + |n|..] == (a' + n + b')[|a'| + |n|..] == b';
  }

  /** Lines that are not documentation comments pass through untouched. */
  lemma {:induction false} NoDocCommentsNoChange(lines: seq<string>, rs: seq<Routed>, pos: nat)
    requires |rs| == |lines| && pos <= |lines|
    requires forall i :: pos <= i < |lines| ==> !StartsBlock(lines[i])
    ensures SortFrom(lines, rs, pos) == FileOutcome(lines[pos..], 0, [])
    decreases |lines| - pos
  {
    if pos < |lines| {
      NoDocCommentsNoChange(lines, rs, pos + 1);
      assert lines[pos..] == [lines[pos]] + lines[pos + 1..];
    }
  }

  /** With renaming off, no line is invented: every line written back was read. */
  lemma {:induction false} NothingInventedWithoutRenaming(lines: seq<string>, rs: seq<Routed>, pos: nat)
    requires |rs| == |lines| && pos <= |lines|
    requires forall i :: 0 <= i < |lines| ==> rs[i].text == lines[i]
    ensures multiset(SortFrom(lines, rs, pos).output) <= multiset(lines[pos..])
    decreases |lines| - pos
  {
    if pos < |lines| {
      if !StartsBlock(lines[pos]) {
        NothingInventedWithoutRenaming(lines, rs, pos + 1);
        assert lines[pos..] == [lines[pos]] + lines[pos + 1..];
      } else {
        var o := ProcessBlock(lines, rs, pos);
        var next := if o.nextLine.Some? then [o.nextLine.value] else [];
        NothingInventedWithoutRenaming(lines, rs, o.resume);
        forall k | 0 <= k < |BlockRoutes(rs, pos)| ensures BlockRoutes(rs, pos)[k].text == lines[pos + k] {
          assert BlockRoutes(rs, pos)[k] == rs[pos + k];
        }
        BlockIsPermutationWithoutRenaming(lines, rs, pos);
        BlockSplitsFile(lines, rs, pos);
      }
    }
  }

  /** The file-level form: with renaming off, sorting only reorders and drops lines. */
  lemma SortingOnlyDropsLinesWithoutRenaming(opts: SortUtilityOptions, lines: seq<string>)
    requires !opts.renameInvalidElements
    ensures multiset(SortFile(opts, lines).output) <= multiset(lines)
  {
    var rs := RouteAll(opts, lines);
    forall i | 0 <= i < |lines| ensures rs[i].text == lines[i] {
      RoutedTextUnchanged(opts, lines, i);
    }
    NothingInventedWithoutRenaming(lines, rs, 0);
    assert lines[0..] == lines;
  }

  /** A file is written back only when sorting changed its content, and always then when
      updating is enabled. */
  lemma RewriteOnlyOnChange(opts: SortUtilityOptions, lines: seq<string>)
    ensures Rewrites(opts, SortFile(opts, lines)) <==>
              opts.updateFiles && SortFile(opts, lines).output != lines
  {
    UnchangedIffIdentity(lines, RouteAll(opts, lines), 0);
    assert lines[0..] == lines;
  }
}
