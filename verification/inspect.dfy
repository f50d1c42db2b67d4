/**
 The `inspect` command: an info table followed by the five category reports
 in a fixed order. The loop over categories stops at the first category
 without rows, after announcing that nothing was found, so later categories
 are never reported.
 */
module Inspect {
  import opened Seqs
  import opened Document
  import opened Reports

  /** The four rows of the info table. */
  datatype Info = Info(generator: string, version: string, extensionsUsed: string, extensionsRequired: string)

  /** One printed section: a table with its warnings, or the "No ... found." notice. */
  datatype Section =
    | Listed(category: Category, report: Report)
    | NotFound(category: Category)

  datatype Output = Output(info: Info, sections: seq<Section>)

  /** Shown for an extension list whose join is empty. */
  const NoneText: string := "none"

  /**
   `list.join(', ') || 'none'`: the comma-joined list, replaced by "none"
   when the join is the empty string (no entries, or one empty entry).
   The third clause follows from the first two; it is kept as the form
   callers use: a list whose first name is not empty is shown as its join.
   */
  function ExtensionsField(xs: seq<string>): (r: string)
    ensures r == NoneText <==> |xs| == 0 || xs == [""] || xs == [NoneText]
    ensures r != NoneText ==> r == Join(xs, ", ")
    ensures |xs| > 0 && xs[0] != "" ==> r == Join(xs, ", ")
  {
    var joined := Join(xs, ", ");
    JoinOfSeveral(xs);
    if joined == "" then NoneText else joined
  }

  /** Joining two or more entries gives neither "" nor "none": the join contains a comma. */
  lemma JoinOfSeveral(xs: seq<string>)
    ensures |xs| >= 2 ==> Join(xs, ", ") != "" && Join(xs, ", ") != NoneText
  {
    if |xs| >= 2 {
      JoinSeparatorAfterFirst(xs, ", ");
      assert Join(xs, ", ")[|xs[0]|] == ',';
      assert forall k :: 0 <= k < |NoneText| ==> NoneText[k] != ',';
    }
  }

  function InfoOf(doc: Doc): (info: Info)
    ensures info.generator == doc.asset.generator && info.version == doc.asset.version
    ensures info.extensionsUsed == ExtensionsField(doc.extensionsUsed)
    ensures info.extensionsRequired == ExtensionsField(doc.extensionsRequired)
    ensures info.extensionsUsed == NoneText <==>
      |doc.extensionsUsed| == 0 || doc.extensionsUsed == [""] || doc.extensionsUsed == [NoneText]
    ensures info.extensionsRequired == NoneText <==>
      |doc.extensionsRequired| == 0 || doc.extensionsRequired == [""] || doc.extensionsRequired == [NoneText]
    ensures info.extensionsUsed != NoneText ==> info.extensionsUsed == Join(doc.extensionsUsed, ", ")
    ensures info.extensionsRequired != NoneText ==> info.extensionsRequired == Join(doc.extensionsRequired, ", ")
  {
    Info(doc.asset.generator, doc.asset.version,
         ExtensionsField(doc.extensionsUsed), ExtensionsField(doc.extensionsRequired))
  }

  /** The category at position `k` of the visiting order has no rows. */
  predicate EmptyAt(doc: Doc, k: nat)
    requires k < |CategoryOrder|
  {
    |ListCategory(doc, CategoryOrder[k]).rows| == 0
  }

  /**
   Runs the reporter. The sections follow the visiting order; every section
   but the last is a non-empty table; the last is the notice for the first
   empty category, if there is one, and nothing after an empty category is
   reported.
   */
  method Run(doc: Doc) returns (out: Output)
    ensures out.info == InfoOf(doc)
    ensures 1 <= |out.sections| <= |CategoryOrder|
    ensures forall i :: 0 <= i < |out.sections| ==> out.sections[i].category == CategoryOrder[i]
    ensures forall i :: 0 <= i < |out.sections| - 1 ==>
      !EmptyAt(doc, i) && out.sections[i] == Listed(CategoryOrder[i], ListCategory(doc, CategoryOrder[i]))
    ensures var last := |out.sections| - 1;
      out.sections[last] ==
        if EmptyAt(doc, last) then NotFound(CategoryOrder[last])
        else Listed(CategoryOrder[last], ListCategory(doc, CategoryOrder[last]))
    ensures |out.sections| < |CategoryOrder| ==> out.sections[|out.sections| - 1].NotFound?
    ensures forall k :: 0 <= k < |CategoryOrder| && EmptyAt(doc, k) ==> |out.sections| <= k + 1
  {
    var info := InfoOf(doc);
    var sections: seq<Section> := [];
    var k := 0;
    while k < |CategoryOrder|
      invariant k <= |CategoryOrder| && |sections| == k
      invariant forall i :: 0 <= i < k ==>
        !EmptyAt(doc, i) && sections[i] == Listed(CategoryOrder[i], ListCategory(doc, CategoryOrder[i]))
    {
      var c := CategoryOrder[k];
      var report := ListCategory(doc, c);
      if |report.rows| == 0 {
        out := Output(info, sections + [NotFound(c)]);
        return;
      }
      sections := sections + [Listed(c, report)];
      k := k + 1;
    }
    out := Output(info, sections);
  }
}
