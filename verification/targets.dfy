/** `extract_targets`: one row per (drug, target) pair, carrying the target's
    polypeptide details when the target has a polypeptide. */
module Targets {
  import opened Wrappers
  import opened Seqs
  import opened Tree
  import Records

  datatype Polypeptide = Polypeptide(
    source: Option<string>,
    sourceId: Option<string>,
    name: Option<string>,
    geneName: Option<string>,
    genAtlasId: Option<string>,
    chromosomeLocation: Option<string>,
    cellularLocation: Option<string>)

  /** `polypeptide` is `None` when the target has no polypeptide child: the
      row then lacks all polypeptide columns. */
  datatype TargetRow = TargetRow(drugId: Option<string>, targetId: Option<string>, polypeptide: Option<Polypeptide>)

  // ---------------------------------------------------------------------------
  // The GenAtlas identifier search

  /** An external identifier whose first child reads "GenAtlas". */
  predicate IsGenAtlas(e: Element)
  {
    |e.children| >= 1 && e.children[0].text == Some("GenAtlas")
  }

  /** The scan over the external identifiers can be run: every identifier it
      visits has a first child, and the one it stops at has a second. Those
      after the first match are never visited. */
  predicate ScanSafe(ids: seq<Element>)
  {
    if |ids| == 0 then true
    else if IsGenAtlas(ids[0]) then |ids[0].children| >= 2
    else |ids[0].children| >= 1 && ScanSafe(ids[1..])
  }

  /** Where the scan stops: the first GenAtlas identifier, if any. */
  function GenAtlasIndex(ids: seq<Element>): (r: Option<nat>)
    requires ScanSafe(ids)
    ensures r.Some? ==> r.value < |ids| && IsGenAtlas(ids[r.value]) && |ids[r.value].children| >= 2
    ensures r.Some? ==> forall j :: 0 <= j < r.value ==> !IsGenAtlas(ids[j])
    ensures r.None? <==> forall j :: 0 <= j < |ids| ==> !IsGenAtlas(ids[j])
  {
    if |ids| == 0 then None
    else if IsGenAtlas(ids[0]) then Some(0)
    else match GenAtlasIndex(ids[1..])
      case None => None
      case Some(k) => Some(k + 1)
  }

  /** The text of the second child of the first GenAtlas identifier. */
  function GenAtlasId(ids: seq<Element>): (r: Option<string>)
    requires ScanSafe(ids)
    ensures (forall j :: 0 <= j < |ids| ==> !IsGenAtlas(ids[j])) ==> r.None?
    ensures forall k :: 0 <= k < |ids| && IsGenAtlas(ids[k]) && (forall j :: 0 <= j < k ==> !IsGenAtlas(ids[j])) ==>
              |ids[k].children| >= 2 && r == ids[k].children[1].text
  {
    match GenAtlasIndex(ids)
    case None => None
    case Some(k) => ids[k].children[1].text
  }

  /** The scan finds the first element of the GenAtlas identifiers. */
  lemma {:induction false} GenAtlasIndexIsFirst(ids: seq<Element>)
    requires ScanSafe(ids)
    ensures GenAtlasIndex(ids).None? <==> Filter(IsGenAtlas, ids) == []
    ensures GenAtlasIndex(ids).Some? ==> Filter(IsGenAtlas, ids)[0] == ids[GenAtlasIndex(ids).value]
  {
    if |ids| > 0 {
      var rest := Filter(IsGenAtlas, ids[1..]);
      if IsGenAtlas(ids[0]) {
        assert Filter(IsGenAtlas, ids) == [ids[0]] + rest;
      } else {
        assert Filter(IsGenAtlas, ids) == rest;
        GenAtlasIndexIsFirst(ids[1..]);
      }
    }
  }

  /** The scan breaks at the first match: identifiers after it are neither
      read nor able to change the result. */
  lemma {:induction false} GenAtlasScanBreaks(ids: seq<Element>, later: seq<Element>)
    requires ScanSafe(ids) && GenAtlasIndex(ids).Some?
    ensures ScanSafe(ids + later)
    ensures GenAtlasIndex(ids + later) == GenAtlasIndex(ids)
    ensures GenAtlasId(ids + later) == GenAtlasId(ids)
  {
    assert (ids + later)[0] == ids[0];
    if !IsGenAtlas(ids[0]) {
      assert (ids + later)[1..] == ids[1..] + later;
      GenAtlasScanBreaks(ids[1..], later);
    }
  }

  // ---------------------------------------------------------------------------
  // Rows

  /** Every field the polypeptide branch reads is there. */
  predicate PolypeptideReadable(p: Element)
  {
    && Has(p, "name") && Has(p, "gene-name") && Has(p, "external-identifiers")
    && Has(p, "chromosome-location") && Has(p, "cellular-location")
    && ScanSafe(Items(p, "external-identifiers"))
  }

  predicate TargetReadable(t: Element)
  {
    Has(t, "id") && (Has(t, "polypeptide") ==> PolypeptideReadable(Child(t, "polypeptide")))
  }

  /** The drug's id is read only once a target is visited. */
  predicate TargetsReadable(d: Element)
  {
    && Has(d, "targets")
    && forall j :: 0 <= j < |Items(d, "targets")| ==>
         Has(d, "drugbank-id") && TargetReadable(Items(d, "targets")[j])
  }

  /** Every drug can be read. */
  predicate TargetListsReadable(ds: seq<Element>)
  {
    forall i :: 0 <= i < |ds| ==> TargetsReadable(ds[i])
  }

  function PolypeptideOf(p: Element): (r: Polypeptide)
    requires PolypeptideReadable(p)
    ensures r.source == Get(p, "source") && r.sourceId == Get(p, "id")
    ensures r.name == Text(p, "name") && r.geneName == Text(p, "gene-name")
    ensures r.genAtlasId == GenAtlasId(Items(p, "external-identifiers"))
    ensures r.chromosomeLocation == Text(p, "chromosome-location")
    ensures r.cellularLocation == Text(p, "cellular-location")
  {
    var ids := Items(p, "external-identifiers");
    Polypeptide(
      Get(p, "source"), Get(p, "id"), Text(p, "name"), Text(p, "gene-name"),
      GenAtlasId(ids), Text(p, "chromosome-location"), Text(p, "cellular-location"))
  }

  function TargetRowOf(d: Element, t: Element): (r: TargetRow)
    requires Has(d, "drugbank-id") && TargetReadable(t)
    ensures r.drugId == Text(d, "drugbank-id") && r.targetId == Text(t, "id")
    ensures r.polypeptide.None? <==> !Has(t, "polypeptide")
    ensures r.polypeptide.Some? ==> r.polypeptide.value == PolypeptideOf(Child(t, "polypeptide"))
  {
    TargetRow(
      Text(d, "drugbank-id"), Text(t, "id"),
      if Has(t, "polypeptide") then Some(PolypeptideOf(Child(t, "polypeptide"))) else None)
  }

  /** The rows of one drug: one per target, in document order. */
  function TargetsOf(d: Element): (g: seq<TargetRow>)
    requires TargetsReadable(d)
    ensures |g| == |Items(d, "targets")|
    ensures forall j :: 0 <= j < |g| ==> g[j] == TargetRowOf(d, Items(d, "targets")[j])
  {
    seq(|Items(d, "targets")|, j requires 0 <= j < |Items(d, "targets")| =>
      TargetRowOf(d, Items(d, "targets")[j]))
  }

  /** One row per (drug, target) pair, drug by drug in document order. Every
      target gets a row, with or without a polypeptide. */
  function ExtractTargets(root: Element): (r: seq<TargetRow>)
    requires TargetListsReadable(root.children)
    ensures |r| == Sum(Records.ItemCounts(root.children, "targets"))
    ensures forall i :: 0 <= i < |root.children| ==>
              Occupies(r, Records.ItemCounts(root.children, "targets"), i, TargetsOf(root.children[i]))
  {
    var ds := root.children;
    var g := seq(|ds|, i requires 0 <= i < |ds| => TargetsOf(ds[i]));
    FlattenGroups(g, Records.ItemCounts(ds, "targets"));
    Concat(g)
  }
}
