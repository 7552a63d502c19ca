/**
  The warnings the sorter raises for one file (DocCommentSortUtilty.cs:318-322 and 566-593):
  every diagnostic is reported as a detail line, and the first diagnostic of each kind is
  preceded by a header naming the file. The invalid-format and invalid-element warnings share
  one flag, so only the first of them to fire prints its header.
 */
module Warnings {
  import opened Wrappers
  import opened Routing
  import opened Runtime
  import opened Sequences

  datatype Warning =
    | InvalidElementHeader(path: string)
    | InvalidFormatHeader(path: string)
    | UnrecognizedHeader(path: string)
    | Detail(diagnostic: Diagnostic)

  /** The warnings of some diagnostics and the warn-once flags afterwards. */
  datatype Reported = Reported(warnings: seq<Warning>, flags: WarnFlags)

  /** A diagnostic under the shared invalid-format flag. */
  predicate IsFormatIssue(d: Diagnostic) {
    d.InvalidFormat? || d.InvalidElementName?
  }

  /** The header a format issue prints when it is the first one. */
  function HeaderFor(path: string, d: Diagnostic): Warning {
    if d.InvalidFormat? then InvalidFormatHeader(path) else InvalidElementHeader(path)
  }

  /** Reporting one diagnostic: the header of its kind unless that kind was already reported
      in this file, then the detail line. */
  function Report(path: string, w: WarnFlags, d: Diagnostic): Reported {
    match d
    case UnrecognizedElement(_, _) =>
      if w.unrecognizedElementWarned then Reported([Detail(d)], w)
      else Reported([UnrecognizedHeader(path), Detail(d)], w.(unrecognizedElementWarned := true))
    case _ =>
      if w.invalidFormatWarned then Reported([Detail(d)], w)
      else Reported([HeaderFor(path, d), Detail(d)], w.(invalidFormatWarned := true))
  }

  /** Reporting diagnostics one after the other. */
  function ReportAll(path: string, w: WarnFlags, ds: seq<Diagnostic>): Reported
    decreases |ds|
  {
    if ds == [] then Reported([], w)
    else
      var before := ReportAll(path, w, ds[..|ds| - 1]);
      var last := Report(path, before.flags, ds[|ds| - 1]);
      Reported(before.warnings + last.warnings, last.flags)
  }

  /** The detail lines among some warnings. */
  function Details(ws: seq<Warning>): seq<Diagnostic>
    decreases |ws|
  {
    if ws == [] then []
    else Details(ws[..|ws| - 1]) + (if ws[|ws| - 1].Detail? then [ws[|ws| - 1].diagnostic] else [])
  }

  /** The invalid-format and invalid-element headers among some warnings. */
  function FormatHeaders(ws: seq<Warning>): seq<Warning>
    decreases |ws|
  {
    if ws == [] then []
    else
      var w := ws[|ws| - 1];
      FormatHeaders(ws[..|ws| - 1]) + (if w.InvalidFormatHeader? || w.InvalidElementHeader? then [w] else [])
  }

  /** The unrecognized-element headers among some warnings. */
  function UnrecognizedHeaders(ws: seq<Warning>): seq<Warning>
    decreases |ws|
  {
    if ws == [] then []
    else
      var w := ws[|ws| - 1];
      UnrecognizedHeaders(ws[..|ws| - 1]) + (if w.UnrecognizedHeader? then [w] else [])
  }

  /** The first format issue among some diagnostics. */
  function FirstFormatIssue(ds: seq<Diagnostic>): (r: Option<Diagnostic>)
    decreases |ds|
  {
    if ds == [] then None
    else
      var first := FirstFormatIssue(ds[..|ds| - 1]);
      if first.Some? then first else if IsFormatIssue(ds[|ds| - 1]) then Some(ds[|ds| - 1]) else None
  }

  /** Some diagnostic reports an unrecognized element. */
  predicate HasUnrecognized(ds: seq<Diagnostic>) {
    exists i :: 0 <= i < |ds| && ds[i].UnrecognizedElement?
  }

  lemma {:induction false} DetailsOfAppend(a: seq<Warning>, b: seq<Warning>)
    ensures Details(a + b) == Details(a) + Details(b)
    decreases |b|
  {
    if b != [] {
      var n := |b| - 1;
      assert (a + b)[..|a + b| - 1] == a + b[..n];
      DetailsOfAppend(a, b[..n]);
    } else {
      assert a + b == a;
    }
  }

  lemma {:induction false} FormatHeadersOfAppend(a: seq<Warning>, b: seq<Warning>)
    ensures FormatHeaders(a + b) == FormatHeaders(a) + FormatHeaders(b)
    decreases |b|
  {
    if b != [] {
      var n := |b| - 1;
      assert (a + b)[..|a + b| - 1] == a + b[..n];
      FormatHeadersOfAppend(a, b[..n]);
    } else {
      assert a + b == a;
    }
  }

  lemma {:induction false} UnrecognizedHeadersOfAppend(a: seq<Warning>, b: seq<Warning>)
    ensures UnrecognizedHeaders(a + b) == UnrecognizedHeaders(a) + UnrecognizedHeaders(b)
    decreases |b|
  {
    if b != [] {
      var n := |b| - 1;
      assert (a + b)[..|a + b| - 1] == a + b[..n];
      UnrecognizedHeadersOfAppend(a, b[..n]);
    } else {
      assert a + b == a;
    }
  }

  /** What reporting one diagnostic contributes to each kind of warning. */
  lemma ReportFilters(path: string, w: WarnFlags, d: Diagnostic)
    ensures var ws := Report(path, w, d).warnings;
            && Details(ws) == [d]
            && FormatHeaders(ws) == (if IsFormatIssue(d) && !w.invalidFormatWarned then [HeaderFor(path, d)] else [])
            && UnrecognizedHeaders(ws) ==
                 (if d.UnrecognizedElement? && !w.unrecognizedElementWarned then [UnrecognizedHeader(path)] else [])
  {
    var dw := [Detail(d)];
    assert dw[..0] == [];
    assert Details(dw) == Details(dw[..0]) + [d];
    assert FormatHeaders(dw) == FormatHeaders(dw[..0]) + [];
    assert UnrecognizedHeaders(dw) == UnrecognizedHeaders(dw[..0]) + [];
    var warned := if d.UnrecognizedElement? then w.unrecognizedElementWarned else w.invalidFormatWarned;
    if !warned {
      var h := if d.UnrecognizedElement? then UnrecognizedHeader(path) else HeaderFor(path, d);
      assert Report(path, w, d).warnings == [h] + dw;
      assert [h][..0] == [];
      assert Details([h]) == [];
      DetailsOfAppend([h], dw);
      FormatHeadersOfAppend([h], dw);
      UnrecognizedHeadersOfAppend([h], dw);
    } else {
      assert Report(path, w, d).warnings == dw;
    }
  }

  /** Reporting one diagnostic sets the flag of its kind and leaves the other one. */
  lemma ReportFlags(path: string, w: WarnFlags, d: Diagnostic)
    ensures Report(path, w, d).flags ==
              WarnFlags(w.invalidFormatWarned || IsFormatIssue(d), w.unrecognizedElementWarned || d.UnrecognizedElement?)
  {
  }

  /** Every diagnostic is reported, once and in order. */
  lemma {:induction false} EveryDiagnosticReported(path: string, w: WarnFlags, ds: seq<Diagnostic>)
    ensures Details(ReportAll(path, w, ds).warnings) == ds
    decreases |ds|
  {
    if ds != [] {
      var n := |ds| - 1;
      var before := ReportAll(path, w, ds[..n]);
      var last := Report(path, before.flags, ds[n]);
      EveryDiagnosticReported(path, w, ds[..n]);
      DetailsOfAppend(before.warnings, last.warnings);
      ReportFilters(path, before.flags, ds[n]);
      PrefixAndLast(ds);
    }
  }

  /** Some diagnostic among the first ones, or the next, reports an unrecognized element. */
  lemma HasUnrecognizedLast(ds: seq<Diagnostic>)
    requires ds != []
    ensures HasUnrecognized(ds) == (HasUnrecognized(ds[..|ds| - 1]) || ds[|ds| - 1].UnrecognizedElement?)
  {
    var n := |ds| - 1;
    if HasUnrecognized(ds[..n]) {
      var i :| 0 <= i < n && ds[..n][i].UnrecognizedElement?;
      assert ds[i].UnrecognizedElement?;
    }
    if HasUnrecognized(ds) && !ds[n].UnrecognizedElement? {
      var i :| 0 <= i < |ds| && ds[i].UnrecognizedElement?;
      assert ds[..n][i].UnrecognizedElement?;
    }
  }

  /** The shared header is printed at most once per file, by the first format issue, and
      only if no format issue had been reported before; the flags record which kinds were. */
  lemma {:induction false} FormatHeaderOnce(path: string, w: WarnFlags, ds: seq<Diagnostic>)
    ensures FormatHeaders(ReportAll(path, w, ds).warnings) ==
              (if !w.invalidFormatWarned && FirstFormatIssue(ds).Some? then [HeaderFor(path, FirstFormatIssue(ds).value)] else [])
    ensures ReportAll(path, w, ds).flags ==
              WarnFlags(w.invalidFormatWarned || FirstFormatIssue(ds).Some?,
                        w.unrecognizedElementWarned || HasUnrecognized(ds))
    decreases |ds|
  {
    if ds != [] {
      var n := |ds| - 1;
      var d := ds[n];
      var before := ReportAll(path, w, ds[..n]);
      var last := Report(path, before.flags, d);
      FormatHeaderOnce(path, w, ds[..n]);
      FormatHeadersOfAppend(before.warnings, last.warnings);
      ReportFilters(path, before.flags, d);
      ReportFlags(path, before.flags, d);
      HasUnrecognizedLast(ds);
    }
  }

  /** The unrecognized-element header is printed at most once per file, before the first
      such diagnostic, and only if none had been reported before. */
  lemma {:induction false} UnrecognizedHeaderOnce(path: string, w: WarnFlags, ds: seq<Diagnostic>)
    ensures UnrecognizedHeaders(ReportAll(path, w, ds).warnings) ==
              (if !w.unrecognizedElementWarned && HasUnrecognized(ds) then [UnrecognizedHeader(path)] else [])
    decreases |ds|
  {
    if ds != [] {
      var n := |ds| - 1;
      var d := ds[n];
      var before := ReportAll(path, w, ds[..n]);
      var last := Report(path, before.flags, d);
      UnrecognizedHeaderOnce(path, w, ds[..n]);
      FormatHeaderOnce(path, w, ds[..n]);
      UnrecognizedHeadersOfAppend(before.warnings, last.warnings);
      ReportFilters(path, before.flags, d);
      ReportFlags(path, before.flags, d);
      HasUnrecognizedLast(ds);
    }
  }

  /** Reporting two runs of diagnostics one after the other is reporting them together. */
  lemma {:induction false} ReportAllAppend(path: string, w: WarnFlags, ds: seq<Diagnostic>, more: seq<Diagnostic>)
    ensures ReportAll(path, w, ds + more) ==
              Reported(ReportAll(path, w, ds).warnings + ReportAll(path, ReportAll(path, w, ds).flags, more).warnings,
                       ReportAll(path, ReportAll(path, w, ds).flags, more).flags)
    decreases |more|
  {
    var first := ReportAll(path, w, ds);
    if more == [] {
      assert ds + more == ds;
    } else {
      var n := |more| - 1;
      var p, d := more[..n], more[n];
      var mid := ReportAll(path, first.flags, p);
      var last := Report(path, mid.flags, d);
      assert more == p + [d];
      assert ds + more == (ds + p) + [d];
      ReportAllAppend(path, w, ds, p);
      ReportAllSnoc(path, w, ds + p, d);
      ReportAllSnoc(path, first.flags, p, d);
      AppendAssociates(first.warnings, mid.warnings, last.warnings);
    }
  }

  /** Reporting one more diagnostic appends its warnings to those reported so far. */
  lemma ReportAllSnoc(path: string, w: WarnFlags, ds: seq<Diagnostic>, d: Diagnostic)
    ensures var before := ReportAll(path, w, ds);
            var last := Report(path, before.flags, d);
            ReportAll(path, w, ds + [d]) == Reported(before.warnings + last.warnings, last.flags)
  {
    assert (ds + [d])[..|ds|] == ds;
  }
}
