/** `summarise_drug_approval_status`: the number of drugs carrying each of the
    five status flags. */
module Approval {
  import opened Wrappers
  import opened Tree
  import opened Records

  datatype SummaryRow = SummaryRow(status: string, numberOfDrugs: nat)

  /** Number of rows with flag `s` set (a column sum, true counting 1). */
  function FlagCount(rows: seq<ApprovalRow>, s: Status): (n: nat)
    ensures n <= |rows|
  {
    if |rows| == 0 then 0
    else (if Flag(rows[0], s) then 1 else 0) + FlagCount(rows[1..], s)
  }

  /** One row per flag, in column order, with the flag's column name and the
      number of rows that set it. The table of a document without drugs has
      no columns at all, so its summary has no rows. */
  function Summarise(rows: seq<ApprovalRow>): (r: seq<SummaryRow>)
    ensures |rows| == 0 ==> r == []
    ensures |rows| > 0 ==> |r| == |Statuses| == 5
    ensures |r| <= |Statuses|
    ensures forall j :: 0 <= j < |r| ==>
              r[j].status == Label(Statuses[j]) && r[j].numberOfDrugs == FlagCount(rows, Statuses[j])
    ensures forall j :: 0 <= j < |r| ==> r[j].numberOfDrugs <= |rows|
  {
    if |rows| == 0 then
      []
    else
      seq(|Statuses|, j requires 0 <= j < |Statuses| =>
        SummaryRow(Label(Statuses[j]), FlagCount(rows, Statuses[j])))
  }

  /** Column sums add up over a split table. */
  lemma {:induction false} FlagCountAppend(a: seq<ApprovalRow>, b: seq<ApprovalRow>, s: Status)
    ensures FlagCount(a + b, s) == FlagCount(a, s) + FlagCount(b, s)
  {
    if |a| > 0 {
      assert (a + b)[0] == a[0];
      assert (a + b)[1..] == a[1..] + b;
      FlagCountAppend(a[1..], b, s);
    } else {
      assert a + b == b;
    }
  }

  /** Number of drugs having a group label that lower-cases to `name`. */
  function DrugsInGroup(ds: seq<Element>, name: string): (n: nat)
    requires GroupListsReadable(ds)
    ensures n <= |ds|
  {
    if |ds| == 0 then 0
    else (if InGroup(ds[0], name) then 1 else 0) + DrugsInGroup(ds[1..], name)
  }

  lemma {:induction false} FlagCountOfRows(ds: seq<Element>, rows: seq<ApprovalRow>, s: Status)
    requires GroupListsReadable(ds) && |rows| == |ds|
    requires forall i :: 0 <= i < |rows| ==> (Flag(rows[i], s) <==> InGroup(ds[i], Label(s)))
    ensures FlagCount(rows, s) == DrugsInGroup(ds, Label(s))
  {
    if |ds| > 0 {
      FlagCountOfRows(ds[1..], rows[1..], s);
    }
  }

  /** Extracting then summarising: for a document with drugs, five rows whose
      counts are the numbers of drugs listed in each group; for one without
      drugs, no rows. */
  lemma SummaryCountsGroupMembers(root: Element)
    requires GroupListsReadable(root.children)
    ensures |root.children| == 0 ==> Summarise(ExtractDrugApprovalStatus(root)) == []
    ensures |root.children| > 0 ==> |Summarise(ExtractDrugApprovalStatus(root))| == |Statuses|
    ensures forall j :: 0 <= j < |Summarise(ExtractDrugApprovalStatus(root))| ==>
              Summarise(ExtractDrugApprovalStatus(root))[j].numberOfDrugs
                == DrugsInGroup(root.children, Label(Statuses[j]))
  {
    var rows := ExtractDrugApprovalStatus(root);
    forall j | 0 <= j < |Statuses|
      ensures FlagCount(rows, Statuses[j]) == DrugsInGroup(root.children, Label(Statuses[j]))
    {
      FlagCountOfRows(root.children, rows, Statuses[j]);
    }
  }

  /** The flags are not exclusive: a drug both approved and withdrawn is
      counted under both, so the counts can add up to more than the drugs. */
  lemma FlagsOverlap()
    ensures var row := ApprovalRow(None, None, true, true, false, false, false);
            FlagCount([row], Approved) + FlagCount([row], Withdrawn) > 1
  {
    var row := ApprovalRow(None, None, true, true, false, false, false);
    assert [row][1..] == [];
  }
}
