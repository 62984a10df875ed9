/** The pathway tables: each pathway's drug-membership list (`append_pathway_drugs`,
    `extract_pathway_ids`), the one-row-per-member flattening (`explode_pathways`)
    and the per-drug pathway counts joined with the drug table. */
module Pathways {
  import opened Wrappers
  import opened Seqs
  import opened Tree
  import Records

  // ---------------------------------------------------------------------------
  // Membership lists

  /** `[x.find(field).text for x in xs if x.find(field) is not None]`. */
  function MemberValues(xs: seq<Element>, field: string): (r: seq<Option<string>>)
    ensures |r| <= |xs|
  {
    if |xs| == 0 then []
    else (if Has(xs[0], field) then [Text(xs[0], field)] else []) + MemberValues(xs[1..], field)
  }

  lemma {:induction false} MemberValuesAppend(a: seq<Element>, b: seq<Element>, field: string)
    ensures MemberValues(a + b, field) == MemberValues(a, field) + MemberValues(b, field)
  {
    if |a| > 0 {
      assert (a + b)[0] == a[0];
      assert (a + b)[1..] == a[1..] + b;
      MemberValuesAppend(a[1..], b, field);
    } else {
      assert a + b == b;
    }
  }

  /** The visited element has a `field` child. */
  function HasField(field: string): Element -> bool
  {
    x => Has(x, field)
  }

  /** The text of the visited element's `field` child. */
  function FieldText(field: string): Element -> Option<string>
  {
    x => if Has(x, field) then Text(x, field) else None
  }

  /** The members are exactly the `field` texts of the visited elements that
      have that child, in visiting order: filter first, then read. */
  lemma {:induction false} MemberValuesFilterMap(xs: seq<Element>, field: string)
    ensures MemberValues(xs, field) == Map(FieldText(field), Filter(HasField(field), xs))
  {
    if |xs| > 0 {
      MemberValuesFilterMap(xs[1..], field);
      var tail := Filter(HasField(field), xs[1..]);
      assert Filter(HasField(field), xs) == (if HasField(field)(xs[0]) then [xs[0]] else []) + tail;
      if Has(xs[0], field) {
        MapCons(FieldText(field), xs[0], tail);
      }
    }
  }

  /** Every pathway has a membership list. */
  predicate PathwaysHaveDrugs(ps: seq<Element>)
  {
    forall k :: 0 <= k < |ps| ==> Has(ps[k], "drugs")
  }

  /** The `field` texts of the pathway's membership list: taken from every
      element of `iter()` over the `drugs` child, that child itself included,
      that has a direct `field` child. */
  function MemberFields(p: Element, field: string): seq<Option<string>>
    requires Has(p, "drugs")
  {
    MemberValues(Iter(Child(p, "drugs")), field)
  }

  /** An element none of whose children has children of its own. */
  predicate FlatRecord(c: Element)
  {
    forall j :: 0 <= j < |c.children| ==> c.children[j].children == []
  }

  lemma {:induction false} IterAllLeaves(cs: seq<Element>)
    requires forall j :: 0 <= j < |cs| ==> cs[j].children == []
    ensures IterAll(cs) == cs
  {
    if |cs| > 0 {
      IterAllLeaves(cs[1..]);
      assert Iter(cs[0]) == [cs[0]];
    }
  }

  lemma {:induction false} MemberValuesLeaves(cs: seq<Element>, field: string)
    requires forall j :: 0 <= j < |cs| ==> cs[j].children == []
    ensures MemberValues(cs, field) == []
  {
    if |cs| > 0 {
      MemberValuesLeaves(cs[1..], field);
    }
  }

  lemma {:induction false} MemberValuesOfRecords(cs: seq<Element>, field: string)
    requires forall i :: 0 <= i < |cs| ==> FlatRecord(cs[i]) && Has(cs[i], field)
    ensures |MemberValues(IterAll(cs), field)| == |cs|
    ensures forall i :: 0 <= i < |cs| ==> MemberValues(IterAll(cs), field)[i] == Text(cs[i], field)
  {
    if |cs| > 0 {
      var c := cs[0];
      MemberValuesOfRecords(cs[1..], field);
      IterAllLeaves(c.children);
      MemberValuesLeaves(c.children, field);
      MemberValuesAppend([c], c.children, field);
      MemberValuesAppend(Iter(c), IterAll(cs[1..]), field);
      assert [c][1..] == [];
      assert MemberValues([c], field) == [Text(c, field)];
    }
  }

  /** On the usual shape of a membership list — a `drugs` element without a
      `field` child of its own, holding one record per drug whose fields are
      leaves — the values are exactly each record's `field` text, in order. */
  lemma {:induction false} MemberFieldsOfStandardList(p: Element, field: string)
    requires Has(p, "drugs") && !Has(Child(p, "drugs"), field)
    requires forall i :: 0 <= i < |Items(p, "drugs")| ==>
               FlatRecord(Items(p, "drugs")[i]) && Has(Items(p, "drugs")[i], field)
    ensures |MemberFields(p, field)| == |Items(p, "drugs")|
    ensures forall i :: 0 <= i < |Items(p, "drugs")| ==>
              MemberFields(p, field)[i] == Text(Items(p, "drugs")[i], field)
  {
    var d := Child(p, "drugs");
    assert d.children == Items(p, "drugs");
    MemberValuesOfRecords(d.children, field);
    MemberValuesAppend([d], d.children, field);
    assert [d][1..] == [];
    assert MemberValues([d], field) == [];
  }

  // ---------------------------------------------------------------------------
  // append_pathway_drugs

  datatype PathwayDrugsRow = PathwayDrugsRow(pathway: Records.PathwayRow, drugs: seq<Option<string>>)

  /** The pathway table with a `drugs` column added: row `k` gets the member
      names of the `k`-th pathway element of the document. The column is
      assigned by position, so the table must have one row per pathway. */
  function AppendPathwayDrugs(root: Element, pathways: seq<Records.PathwayRow>): (r: seq<PathwayDrugsRow>)
    requires |pathways| == |Records.PathwayElements(root)|
    requires PathwaysHaveDrugs(Records.PathwayElements(root))
    ensures |r| == |pathways|
    ensures forall k :: 0 <= k < |r| ==>
              r[k].pathway == pathways[k] && r[k].drugs == MemberFields(Records.PathwayElements(root)[k], "name")
  {
    var ps := Records.PathwayElements(root);
    seq(|pathways|, k requires 0 <= k < |pathways| => PathwayDrugsRow(pathways[k], MemberFields(ps[k], "name")))
  }

  // ---------------------------------------------------------------------------
  // explode

  /** What `explode` makes of one list cell: its entries, or a single null
      entry when the list is empty. */
  function ExplodeCell(l: seq<Option<string>>): (r: seq<Option<string>>)
    ensures |r| >= 1
  {
    if |l| == 0 then [None] else l
  }

  /** How many rows each cell explodes into. */
  function ExplodedSizes(ls: seq<seq<Option<string>>>): (ns: seq<nat>)
    ensures |ns| == |ls|
    ensures forall i :: 0 <= i < |ls| ==> ns[i] == |ExplodeCell(ls[i])|
  {
    seq(|ls|, i requires 0 <= i < |ls| => |ExplodeCell(ls[i])|)
  }

  /** A list-valued column exploded into one entry per list element, cell by
      cell in order. */
  function Explode(ls: seq<seq<Option<string>>>): (r: seq<Option<string>>)
    ensures |r| == Sum(ExplodedSizes(ls))
    ensures forall i :: 0 <= i < |ls| ==> Occupies(r, ExplodedSizes(ls), i, ExplodeCell(ls[i]))
  {
    var g := seq(|ls|, i requires 0 <= i < |ls| => ExplodeCell(ls[i]));
    FlattenGroups(g, ExplodedSizes(ls));
    Concat(g)
  }

  lemma {:induction false} ExplodeCons(ls: seq<seq<Option<string>>>)
    requires |ls| > 0
    ensures Explode(ls) == ExplodeCell(ls[0]) + Explode(ls[1..])
  {
    var g := seq(|ls|, i requires 0 <= i < |ls| => ExplodeCell(ls[i]));
    var g1 := seq(|ls| - 1, i requires 0 <= i < |ls| - 1 => ExplodeCell(ls[1..][i]));
    assert g[1..] == g1;
  }

  /** Without empty lists, exploding is plain concatenation. */
  lemma {:induction false} ExplodeWithoutEmptyLists(ls: seq<seq<Option<string>>>)
    requires forall i :: 0 <= i < |ls| ==> |ls[i]| > 0
    ensures Explode(ls) == Concat(ls)
  {
    if |ls| > 0 {
      ExplodeCons(ls);
      ExplodeWithoutEmptyLists(ls[1..]);
    }
  }

  /** `explode_pathways`: one entry per (pathway, member) pair, the pathway's
      own columns dropped; a pathway without members gives one null entry. A
      table without pathways has no columns to drop, and the drop raises. */
  function ExplodePathways(rows: seq<PathwayDrugsRow>): (r: Option<seq<Option<string>>>)
    ensures r.None? <==> |rows| == 0
    ensures r.Some? ==> |r.value| == Sum(ExplodedSizes(DrugLists(rows)))
    ensures r.Some? ==> forall i :: 0 <= i < |rows| ==>
              Occupies(r.value, ExplodedSizes(DrugLists(rows)), i, ExplodeCell(rows[i].drugs))
  {
    if |rows| == 0 then None else Some(Explode(DrugLists(rows)))
  }

  function DrugLists(rows: seq<PathwayDrugsRow>): (ls: seq<seq<Option<string>>>)
    ensures |ls| == |rows|
    ensures forall i :: 0 <= i < |rows| ==> ls[i] == rows[i].drugs
  {
    seq(|rows|, i requires 0 <= i < |rows| => rows[i].drugs)
  }

  // ---------------------------------------------------------------------------
  // Counting

  /** How often `Some(k)` occurs in `xs`. */
  function Occurrences(xs: seq<Option<string>>, k: string): (n: nat)
    ensures n <= |xs|
    ensures n > 0 <==> Some(k) in xs
  {
    if |xs| == 0 then 0
    else (if xs[0] == Some(k) then 1 else 0) + Occurrences(xs[1..], k)
  }

  lemma {:induction false} OccurrencesAppend(a: seq<Option<string>>, b: seq<Option<string>>, k: string)
    ensures Occurrences(a + b, k) == Occurrences(a, k) + Occurrences(b, k)
  {
    if |a| > 0 {
      assert (a + b)[0] == a[0];
      assert (a + b)[1..] == a[1..] + b;
      OccurrencesAppend(a[1..], b, k);
    } else {
      assert a + b == b;
    }
  }

  /** The null entries added for empty lists are not counted. */
  lemma {:induction false} ExplodeOccurrences(ls: seq<seq<Option<string>>>, k: string)
    ensures Occurrences(Explode(ls), k) == Occurrences(Concat(ls), k)
  {
    if |ls| > 0 {
      ExplodeCons(ls);
      ExplodeOccurrences(ls[1..], k);
      OccurrencesAppend(ExplodeCell(ls[0]), Explode(ls[1..]), k);
      OccurrencesAppend(ls[0], Concat(ls[1..]), k);
      if |ls[0]| == 0 {
        var pad: seq<Option<string>> := [None];
        assert pad[1..] == [];
        assert Occurrences(pad, k) == 0;
      }
    }
  }

  /** `value_counts()`: each non-null value mapped to how often it occurs;
      nulls are not counted. */
  function ValueCounts(xs: seq<Option<string>>): (m: map<string, nat>)
    ensures forall k :: k in m <==> Some(k) in xs
    ensures forall k :: k in m ==> m[k] == Occurrences(xs, k)
  {
    if |xs| == 0 then map[]
    else
      var rest := ValueCounts(xs[1..]);
      assert forall k :: Some(k) in xs <==> xs[0] == Some(k) || Some(k) in xs[1..];
      match xs[0]
      case None => rest
      case Some(k) => rest[k := Occurrences(xs[1..], k) + 1]
  }

  // ---------------------------------------------------------------------------
  // extract_pathway_ids

  /** The ids of the drug table, which indexes the join. */
  function DrugIds(drugs: seq<Records.DrugRow>): set<string>
  {
    set i | 0 <= i < |drugs| && drugs[i].id.Some? :: drugs[i].id.value
  }

  /** The member id lists of all pathways, in document order. */
  function PathwayIdLists(root: Element): (ls: seq<seq<Option<string>>>)
    requires PathwaysHaveDrugs(Records.PathwayElements(root))
    ensures |ls| == |Records.PathwayElements(root)|
    ensures forall k :: 0 <= k < |ls| ==> ls[k] == MemberFields(Records.PathwayElements(root)[k], "drugbank-id")
  {
    var ps := Records.PathwayElements(root);
    seq(|ps|, k requires 0 <= k < |ps| => MemberFields(ps[k], "drugbank-id"))
  }

  /** The pathway counts of the exploded id column are those of the lists. */
  lemma {:induction false} ExplodedValueCounts(ls: seq<seq<Option<string>>>)
    ensures forall k :: k in ValueCounts(Explode(ls)) <==> Some(k) in Concat(ls)
    ensures forall k :: k in ValueCounts(Explode(ls)) ==> ValueCounts(Explode(ls))[k] == Occurrences(Concat(ls), k)
  {
    forall k
      ensures Occurrences(Explode(ls), k) == Occurrences(Concat(ls), k)
      ensures Some(k) in Explode(ls) <==> Some(k) in Concat(ls)
    {
      ExplodeOccurrences(ls, k);
    }
  }

  /** The outer join of the counts with the table's ids, missing counts filled with 0. */
  function OuterJoin(counts: map<string, nat>, ids: set<string>): (r: map<string, nat>)
    ensures forall k :: k in r <==> k in counts || k in ids
    ensures forall k :: k in r ==> r[k] == if k in counts then counts[k] else 0
  {
    map k | k in counts.Keys + ids :: if k in counts then counts[k] else 0
  }

  /** Per drug id, the number of pathway memberships naming it, outer-joined
      with the drug table: every id of the table or of some membership list
      is a key, and ids no pathway names count 0. */
  function ExtractPathwayIds(root: Element, drugs: seq<Records.DrugRow>): (r: map<string, nat>)
    requires PathwaysHaveDrugs(Records.PathwayElements(root))
    ensures forall k :: k in r <==> k in DrugIds(drugs) || Some(k) in Concat(PathwayIdLists(root))
    ensures forall k :: k in r ==> r[k] == Occurrences(Concat(PathwayIdLists(root)), k)
    ensures forall k :: k in DrugIds(drugs) && Some(k) !in Concat(PathwayIdLists(root)) ==> k in r && r[k] == 0
  {
    var ls := PathwayIdLists(root);
    ExplodedValueCounts(ls);
    OuterJoin(ValueCounts(Explode(ls)), DrugIds(drugs))
  }
}
