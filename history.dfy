/**
 * The history screen's reaction to a finished export: among the entries of
 * the documents directory it picks the greatest name that starts with
 * "qr_export_" and, when there is one, presents it in the export sheet.
 */
module History {
  import opened Wrappers
  import opened StringOrder

  const ExportPrefix: string := "qr_export_"

  predicate IsExportName(name: string)
  {
    ExportPrefix <= name
  }

  /** The `filter` on the prefix. */
  function ExportNames(names: seq<string>): (r: seq<string>)
    ensures forall n :: n in r <==> n in names && IsExportName(n)
    ensures multiset(r) <= multiset(names)
  {
    assert names != [] ==> names == [names[0]] + names[1..];
    if names == [] then []
    else (if IsExportName(names[0]) then [names[0]] else []) + ExportNames(names[1..])
  }

  /** Each name is greater than or equal to every name after it. */
  predicate SortedDescending(s: seq<string>)
  {
    forall i, j :: 0 <= i < j < |s| ==> AtMost(s[j], s[i])
  }

  function InsertDescending(x: string, s: seq<string>): (r: seq<string>)
  {
    if s == [] then [x]
    else if AtMost(s[0], x) then [x] + s
    else [s[0]] + InsertDescending(x, s[1..])
  }

  /** `sorted(by: >)`. */
  function SortDescending(s: seq<string>): (r: seq<string>)
  {
    if s == [] then [] else InsertDescending(s[0], SortDescending(s[1..]))
  }

  lemma SortedTail(s: seq<string>)
    requires s != [] && SortedDescending(s)
    ensures SortedDescending(s[1..])
  {
  }

  lemma SortedCons(head: string, tail: seq<string>)
    requires SortedDescending(tail)
    requires forall y :: y in tail ==> AtMost(y, head)
    ensures SortedDescending([head] + tail)
  {
  }

  lemma SortedHeadIsGreatest(s: seq<string>, y: string)
    requires SortedDescending(s) && y in s
    ensures AtMost(y, s[0])
  {
  }

  lemma {:induction false} InsertDescendingMultiset(x: string, s: seq<string>)
    ensures multiset(InsertDescending(x, s)) == multiset(s) + multiset{x}
  {
    if s != [] && !AtMost(s[0], x) {
      InsertDescendingMultiset(x, s[1..]);
      assert s == [s[0]] + s[1..];
    }
  }

  lemma {:induction false} InsertDescendingSorted(x: string, s: seq<string>)
    requires SortedDescending(s)
    ensures SortedDescending(InsertDescending(x, s))
  {
    if s == [] {
    } else if AtMost(s[0], x) {
      forall y | y in s ensures AtMost(y, x) {
        SortedHeadIsGreatest(s, y);
        AtMostTransitive(y, s[0], x);
      }
      SortedCons(x, s);
    } else {
      var tail := InsertDescending(x, s[1..]);
      SortedTail(s);
      InsertDescendingSorted(x, s[1..]);
      InsertDescendingMultiset(x, s[1..]);
      AtMostTotal(s[0], x);
      forall y | y in tail ensures AtMost(y, s[0]) {
        assert y in multiset(tail);
        if y != x {
          assert y in s[1..];
          SortedHeadIsGreatest(s, y);
        }
      }
      SortedCons(s[0], tail);
    }
  }

  lemma {:induction false} SortDescendingCorrect(s: seq<string>)
    ensures SortedDescending(SortDescending(s))
    ensures multiset(SortDescending(s)) == multiset(s)
  {
    if s != [] {
      SortDescendingCorrect(s[1..]);
      InsertDescendingSorted(s[0], SortDescending(s[1..]));
      InsertDescendingMultiset(s[0], SortDescending(s[1..]));
      assert s == [s[0]] + s[1..];
    }
  }

  /**
   * The most recent export directory: the first of the prefixed names
   * sorted by `>`. There is none exactly when no name has the prefix; a
   * result is one of the names, has the prefix and is greater than or
   * equal to every prefixed name.
   */
  function LatestExport(names: seq<string>): (r: Option<string>)
    ensures r.None? <==> forall n :: n in names ==> !IsExportName(n)
    ensures r.Some? ==> r.value in names && IsExportName(r.value)
    ensures r.Some? ==> forall n :: n in names && IsExportName(n) ==> AtMost(n, r.value)
  {
    var candidates := ExportNames(names);
    var sorted := SortDescending(candidates);
    SortDescendingCorrect(candidates);
    assert forall n :: n in sorted <==> n in candidates by {
      forall n ensures n in sorted <==> n in candidates {
        assert n in sorted <==> n in multiset(sorted);
        assert n in candidates <==> n in multiset(candidates);
      }
    }
    assert forall n :: n in sorted && n != sorted[0] ==> AtMost(n, sorted[0]) by {
      forall n | n in sorted && n != sorted[0] ensures AtMost(n, sorted[0]) {
        var k :| 0 <= k < |sorted| && sorted[k] == n;
      }
    }
    assert sorted != [] ==> sorted[0] in candidates;
    if sorted == [] then None else Some(sorted[0])
  }

  /**
   * Only the set of prefixed names matters: reordering the listing, repeating
   * entries, and adding or removing names without the prefix leave the
   * result unchanged.
   */
  lemma OnlyExportNamesMatter(a: seq<string>, b: seq<string>)
    requires forall n :: (n in a && IsExportName(n)) <==> (n in b && IsExportName(n))
    ensures LatestExport(a) == LatestExport(b)
  {
    var ra, rb := LatestExport(a), LatestExport(b);
    if ra.Some? && rb.Some? {
      AtMostAntisymmetric(ra.value, rb.value);
    }
  }

  /** A name without the prefix can be added to, or removed from, any listing. */
  lemma OtherNameIgnored(before: seq<string>, after: seq<string>, other: string)
    requires !IsExportName(other)
    ensures LatestExport(before + [other] + after) == LatestExport(before + after)
  {
    OnlyExportNamesMatter(before + [other] + after, before + after);
  }

  /** What listing the documents directory produced. */
  datatype DocumentsListing =
    | NoDocumentsDirectory        // the user domain has no documents directory
    | ListingFailed               // `contentsOfDirectory` threw
    | Entries(names: seq<string>) // the last path components of its entries

  /**
   * The export-status flag the handler watches. Nothing in this model sets
   * it to true: the export itself is not part of this model.
   */
  class DataController {
    var exportSuccess: bool

    constructor ()
      ensures !exportSuccess
    {
      exportSuccess := false;
    }
  }

  /** The export-related state of the history screen. */
  class HistoryView {
    var exportDirectoryURL: Option<string>
    var showingExportSheet: bool
    const dataController: DataController

    constructor (dataController: DataController)
      ensures this.dataController == dataController
      ensures exportDirectoryURL.None? && !showingExportSheet
    {
      this.dataController := dataController;
      exportDirectoryURL := None;
      showingExportSheet := false;
    }

    /** The handler run when `dataController.exportSuccess` changes to `newValue`. */
    method OnExportSuccessChange(newValue: bool, documents: DocumentsListing)
      modifies this`exportDirectoryURL, this`showingExportSheet, dataController`exportSuccess
      ensures var latest := if newValue && documents.Entries? then LatestExport(documents.names) else None;
              if latest.Some? then
                && exportDirectoryURL == latest
                && showingExportSheet
                && !dataController.exportSuccess
              else
                && exportDirectoryURL == old(exportDirectoryURL)
                && showingExportSheet == old(showingExportSheet)
                && dataController.exportSuccess == old(dataController.exportSuccess)
    {
      if newValue {
        match documents
        case NoDocumentsDirectory =>
        case ListingFailed =>
        case Entries(names) =>
          var latest := LatestExport(names);
          if latest.Some? {
            exportDirectoryURL := latest;
            showingExportSheet := true;
            dataController.exportSuccess := false;
          }
      }
    }
  }
}
