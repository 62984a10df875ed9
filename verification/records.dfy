/** The record extractors of my_lib.py: each walks the document in order and
    yields one row per drug, or one row per (drug, list entry) pair.

    Where the source evaluates `x.find(tag).text`, iterates `x.find(tag)` or
    indexes `x[k]`, a missing child aborts the whole run (AttributeError,
    TypeError, IndexError); the extractors below require those children. */
module Records {
  import opened Wrappers
  import opened Seqs
  import opened Strings
  import opened Tree

  // ---------------------------------------------------------------------------
  // List-valued fields

  /** A list entry the source keeps: its text is present and not blank. */
  predicate HasContent(c: Element)
  {
    c.text.Some? && |Strip(c.text.value)| > 0
  }

  /** The stripped text of every child that has a text, in order. */
  function StrippedTexts(cs: seq<Element>): seq<string>
  {
    if |cs| == 0 then []
    else (if cs[0].text.Some? then [Strip(cs[0].text.value)] else []) + StrippedTexts(cs[1..])
  }

  /** `[c.text.strip() for c in cs if c.text and c.text.strip()]`. */
  function CleanTexts(cs: seq<Element>): (r: seq<string>)
    ensures |r| == CountIf(HasContent, cs)
  {
    if |cs| == 0 then []
    else (if HasContent(cs[0]) then [Strip(cs[0].text.value)] else []) + CleanTexts(cs[1..])
  }

  /** A list entry as the source keeps it: non-empty, with no whitespace at
      either end. */
  predicate IsCleanEntry(t: string)
  {
    |t| > 0 && IsStripped(t)
  }

  /** Every kept entry is non-empty and stripped. */
  lemma {:induction false} CleanTextsStripped(cs: seq<Element>)
    ensures forall i :: 0 <= i < |CleanTexts(cs)| ==> IsCleanEntry(CleanTexts(cs)[i])
  {
    forall i | 0 <= i < |CleanTexts(cs)|
      ensures IsCleanEntry(CleanTexts(cs)[i])
    {
      CleanTextStrippedAt(cs, i);
    }
  }

  /** The kept entry at position `i` is non-empty and stripped: it is the
      stripped text of an entry with content. */
  lemma CleanTextStrippedAt(cs: seq<Element>, i: nat)
    requires i < |CleanTexts(cs)|
    ensures IsCleanEntry(CleanTexts(cs)[i])
  {
    CleanTextsFilterMap(cs);
    var kept := Filter(HasContent, cs);
    assert HasContent(kept[i]);
    assert CleanTexts(cs)[i] == StrippedText(kept[i]);
  }

  /** An entry is dropped exactly when its text is missing or all whitespace. */
  lemma {:induction false} HasContentIff(c: Element)
    ensures HasContent(c) <==> c.text.Some? && !AllWhitespace(c.text.value)
  {
    if c.text.Some? {
      StripEmptyIff(c.text.value);
    }
  }

  /** The kept entries keep their document order. */
  lemma {:induction false} CleanTextsInOrder(cs: seq<Element>)
    ensures IsSubsequence(CleanTexts(cs), StrippedTexts(cs))
  {
    if |cs| > 0 {
      CleanTextsInOrder(cs[1..]);
      var rest := CleanTexts(cs[1..]);
      if HasContent(cs[0]) {
        assert CleanTexts(cs) == [Strip(cs[0].text.value)] + rest;
        assert StrippedTexts(cs) == [Strip(cs[0].text.value)] + StrippedTexts(cs[1..]);
      } else if cs[0].text.Some? {
        assert CleanTexts(cs) == rest;
        assert StrippedTexts(cs) == [Strip(cs[0].text.value)] + StrippedTexts(cs[1..]);
        assert StrippedTexts(cs)[1..] == StrippedTexts(cs[1..]);
        SubsequenceOfTail(rest, StrippedTexts(cs));
      } else {
        assert CleanTexts(cs) == rest;
        assert StrippedTexts(cs) == StrippedTexts(cs[1..]);
      }
    }
  }

  /** The stripped text of an entry (blank when it has none). */
  function StrippedText(c: Element): string
  {
    if c.text.Some? then Strip(c.text.value) else []
  }

  /** The kept entries are exactly the stripped texts of the non-blank
      entries: filter first, then strip. */
  lemma {:induction false} CleanTextsFilterMap(cs: seq<Element>)
    ensures CleanTexts(cs) == Map(StrippedText, Filter(HasContent, cs))
  {
    if |cs| > 0 {
      CleanTextsFilterMap(cs[1..]);
      var tail := Filter(HasContent, cs[1..]);
      assert Filter(HasContent, cs) == (if HasContent(cs[0]) then [cs[0]] else []) + tail;
      assert CleanTexts(cs) == (if HasContent(cs[0]) then [StrippedText(cs[0])] else []) + CleanTexts(cs[1..]);
      if HasContent(cs[0]) {
        MapCons(StrippedText, cs[0], tail);
      }
    }
  }

  // ---------------------------------------------------------------------------
  // Per-drug list sizes, for rows built per (drug, entry) pair

  /** How many entries each drug's `tag` list has. */
  function ItemCounts(ds: seq<Element>, tag: string): (ns: seq<nat>)
    requires forall i :: 0 <= i < |ds| ==> Has(ds[i], tag)
    ensures |ns| == |ds|
    ensures forall i :: 0 <= i < |ds| ==> ns[i] == |Items(ds[i], tag)|
  {
    seq(|ds|, i requires 0 <= i < |ds| => |Items(ds[i], tag)|)
  }

  // ---------------------------------------------------------------------------
  // extract_drugs

  datatype DrugRow = DrugRow(
    id: Option<string>,
    name: Option<string>,
    description: Option<string>,
    state: Option<string>,
    indication: Option<string>,
    mechanismOfAction: Option<string>,
    foodInteractions: Option<seq<string>>)

  /** The drug's scalar fields are all present. */
  predicate DrugReadable(d: Element)
  {
    && Has(d, "drugbank-id") && Has(d, "name") && Has(d, "description") && Has(d, "state")
    && Has(d, "indication") && Has(d, "mechanism-of-action")
  }

  /** Every drug can be read. */
  predicate DrugsReadable(ds: seq<Element>)
  {
    forall i :: 0 <= i < |ds| ==> DrugReadable(ds[i])
  }

  function DrugRowOf(d: Element): DrugRow
    requires DrugReadable(d)
  {
    DrugRow(
      Text(d, "drugbank-id"), Text(d, "name"), Text(d, "description"), Text(d, "state"),
      Text(d, "indication"), Text(d, "mechanism-of-action"),
      if Has(d, "food-interactions") then Some(CleanTexts(Items(d, "food-interactions"))) else None)
  }

  /** One row per drug element of the root, in document order. A document
      without drugs gives no table: `set_index('id')` on a frame without
      columns raises. */
  function ExtractDrugs(root: Element): (r: Option<seq<DrugRow>>)
    requires DrugsReadable(root.children)
    ensures r.None? <==> |root.children| == 0
    ensures r.Some? ==> |r.value| == |root.children|
    ensures r.Some? ==> forall i :: 0 <= i < |r.value| ==>
              && r.value[i].id == Text(root.children[i], "drugbank-id")
              && r.value[i].name == Text(root.children[i], "name")
              && r.value[i].description == Text(root.children[i], "description")
              && r.value[i].state == Text(root.children[i], "state")
              && r.value[i].indication == Text(root.children[i], "indication")
              && r.value[i].mechanismOfAction == Text(root.children[i], "mechanism-of-action")
    ensures r.Some? ==> forall i :: 0 <= i < |r.value| ==>
              (r.value[i].foodInteractions.None? <==> !Has(root.children[i], "food-interactions"))
    ensures r.Some? ==> forall i :: 0 <= i < |r.value| && Has(root.children[i], "food-interactions") ==>
              r.value[i].foodInteractions == Some(CleanTexts(Items(root.children[i], "food-interactions")))
  {
    if |root.children| == 0 then None
    else Some(seq(|root.children|, i requires 0 <= i < |root.children| => DrugRowOf(root.children[i])))
  }

  // ---------------------------------------------------------------------------
  // extract_synonyms

  datatype SynonymRow = SynonymRow(id: Option<string>, name: Option<string>, synonyms: seq<string>)

  predicate SynonymsReadable(d: Element)
  {
    Has(d, "drugbank-id") && Has(d, "name") && Has(d, "synonyms")
  }

  /** Every drug can be read. */
  predicate SynonymListsReadable(ds: seq<Element>)
  {
    forall i :: 0 <= i < |ds| ==> SynonymsReadable(ds[i])
  }

  function SynonymRowOf(d: Element): SynonymRow
    requires SynonymsReadable(d)
  {
    SynonymRow(Text(d, "drugbank-id"), Text(d, "name"), CleanTexts(Items(d, "synonyms")))
  }

  /** One row per drug, in document order, with its cleaned synonym list. A
      document without drugs gives no table, as `set_index('id')` raises. */
  function ExtractSynonyms(root: Element): (r: Option<seq<SynonymRow>>)
    requires SynonymListsReadable(root.children)
    ensures r.None? <==> |root.children| == 0
    ensures r.Some? ==> |r.value| == |root.children|
    ensures r.Some? ==> forall i :: 0 <= i < |r.value| ==>
              && r.value[i].id == Text(root.children[i], "drugbank-id")
              && r.value[i].name == Text(root.children[i], "name")
              && r.value[i].synonyms == CleanTexts(Items(root.children[i], "synonyms"))
  {
    if |root.children| == 0 then None
    else Some(seq(|root.children|, i requires 0 <= i < |root.children| => SynonymRowOf(root.children[i])))
  }

  // ---------------------------------------------------------------------------
  // extract_products

  datatype ProductRow = ProductRow(
    drugId: Option<string>,
    name: Option<string>,
    labeller: Option<string>,
    ndcProductCode: Option<string>,
    dosageForm: Option<string>,
    route: Option<string>,
    strength: Option<string>,
    country: Option<string>,
    source: Option<string>)

  predicate ProductReadable(p: Element)
  {
    && Has(p, "name") && Has(p, "labeller") && Has(p, "ndc-product-code") && Has(p, "dosage-form")
    && Has(p, "route") && Has(p, "strength") && Has(p, "country") && Has(p, "source")
  }

  /** The drug's id is read only once a product is visited. */
  predicate ProductsReadable(d: Element)
  {
    && Has(d, "products")
    && forall j :: 0 <= j < |Items(d, "products")| ==>
         Has(d, "drugbank-id") && ProductReadable(Items(d, "products")[j])
  }

  /** Every drug can be read. */
  predicate ProductListsReadable(ds: seq<Element>)
  {
    forall i :: 0 <= i < |ds| ==> ProductsReadable(ds[i])
  }

  function ProductRowOf(d: Element, p: Element): ProductRow
    requires Has(d, "drugbank-id") && ProductReadable(p)
  {
    ProductRow(
      Text(d, "drugbank-id"), Text(p, "name"), Text(p, "labeller"), Text(p, "ndc-product-code"),
      Text(p, "dosage-form"), Text(p, "route"), Text(p, "strength"), Text(p, "country"),
      Text(p, "source"))
  }

  /** The rows of one drug: one per product, in document order. */
  function ProductsOf(d: Element): (g: seq<ProductRow>)
    requires ProductsReadable(d)
    ensures |g| == |Items(d, "products")|
    ensures forall j :: 0 <= j < |g| ==> g[j] == ProductRowOf(d, Items(d, "products")[j])
  {
    seq(|Items(d, "products")|, j requires 0 <= j < |Items(d, "products")| =>
      ProductRowOf(d, Items(d, "products")[j]))
  }

  /** One row per (drug, product) pair: drug by drug in document order, each
      drug's rows being its products in document order. */
  function ExtractProducts(root: Element): (r: seq<ProductRow>)
    requires ProductListsReadable(root.children)
    ensures |r| == Sum(ItemCounts(root.children, "products"))
    ensures forall i :: 0 <= i < |root.children| ==>
              Occupies(r, ItemCounts(root.children, "products"), i, ProductsOf(root.children[i]))
  {
    var ds := root.children;
    var g := seq(|ds|, i requires 0 <= i < |ds| => ProductsOf(ds[i]));
    FlattenGroups(g, ItemCounts(ds, "products"));
    Concat(g)
  }

  // ---------------------------------------------------------------------------
  // extract_pathways

  datatype PathwayRow = PathwayRow(smpdbId: Option<string>, name: Option<string>, category: Option<string>)

  /** The pathway elements of the document, in document order. */
  function PathwayElements(root: Element): seq<Element>
  {
    FindAll(root, "pathway")
  }

  /** One row per pathway element anywhere in the document; the three fields are
      its first three children, taken by position and not by tag. */
  function ExtractPathways(root: Element): (r: seq<PathwayRow>)
    requires forall k :: 0 <= k < |PathwayElements(root)| ==> |PathwayElements(root)[k].children| >= 3
    ensures |r| == |PathwayElements(root)|
    ensures forall k :: 0 <= k < |r| ==>
              && r[k].smpdbId == PathwayElements(root)[k].children[0].text
              && r[k].name == PathwayElements(root)[k].children[1].text
              && r[k].category == PathwayElements(root)[k].children[2].text
  {
    var ps := PathwayElements(root);
    seq(|ps|, k requires 0 <= k < |ps| =>
      PathwayRow(ps[k].children[0].text, ps[k].children[1].text, ps[k].children[2].text))
  }

  // ---------------------------------------------------------------------------
  // extract_drug_approval_status

  datatype Status = Approved | Withdrawn | Experimental | Investigational | VetApproved

  /** The status flags in the order of the table's columns. */
  const Statuses: seq<Status> := [Approved, Withdrawn, Experimental, Investigational, VetApproved]

  function Label(s: Status): string
  {
    match s
    case Approved => "approved"
    case Withdrawn => "withdrawn"
    case Experimental => "experimental"
    case Investigational => "investigational"
    case VetApproved => "vet_approved"
  }

  datatype ApprovalRow = ApprovalRow(
    drugId: Option<string>,
    name: Option<string>,
    approved: bool,
    withdrawn: bool,
    experimental: bool,
    investigational: bool,
    vetApproved: bool)

  function Flag(row: ApprovalRow, s: Status): bool
  {
    match s
    case Approved => row.approved
    case Withdrawn => row.withdrawn
    case Experimental => row.experimental
    case Investigational => row.investigational
    case VetApproved => row.vetApproved
  }

  /** Every group label has a text, since the source lower-cases each one. */
  predicate GroupsReadable(d: Element)
  {
    && Has(d, "drugbank-id") && Has(d, "name") && Has(d, "groups")
    && forall j :: 0 <= j < |Items(d, "groups")| ==> Items(d, "groups")[j].text.Some?
  }

  /** Every drug can be read. */
  predicate GroupListsReadable(ds: seq<Element>)
  {
    forall i :: 0 <= i < |ds| ==> GroupsReadable(ds[i])
  }

  /** `{t.text.lower() for t in drug.find("groups")}`. */
  function GroupLabels(d: Element): set<string>
    requires GroupsReadable(d)
  {
    var gs := Items(d, "groups");
    set j | 0 <= j < |gs| :: Lower(gs[j].text.value)
  }

  /** Some group label of the drug, lower-cased, is `label`. */
  predicate InGroup(d: Element, name: string)
    requires GroupsReadable(d)
  {
    exists j :: 0 <= j < |Items(d, "groups")| && Lower(Items(d, "groups")[j].text.value) == name
  }

  /** A label is in the drug's label set exactly when some group reads as it. */
  lemma GroupLabelsIff(d: Element, name: string)
    requires GroupsReadable(d)
    ensures name in GroupLabels(d) <==> InGroup(d, name)
  {
    if InGroup(d, name) {
      var j :| 0 <= j < |Items(d, "groups")| && Lower(Items(d, "groups")[j].text.value) == name;
      assert Lower(Items(d, "groups")[j].text.value) in GroupLabels(d);
    }
  }

  function ApprovalRowOf(d: Element): (r: ApprovalRow)
    requires GroupsReadable(d)
    ensures r.drugId == Text(d, "drugbank-id") && r.name == Text(d, "name")
    ensures forall s :: Flag(r, s) <==> InGroup(d, Label(s))
  {
    var labels := GroupLabels(d);
    var r := ApprovalRow(
      Text(d, "drugbank-id"), Text(d, "name"),
      Label(Approved) in labels, Label(Withdrawn) in labels, Label(Experimental) in labels,
      Label(Investigational) in labels, Label(VetApproved) in labels);
    FlagsFromLabels(d, r);
    r
  }

  /** A row whose flags are read off the label set sets flag `s` exactly when
      some group reads as `s`. */
  lemma FlagsFromLabels(d: Element, r: ApprovalRow)
    requires GroupsReadable(d)
    requires forall s :: Flag(r, s) == (Label(s) in GroupLabels(d))
    ensures forall s :: Flag(r, s) <==> InGroup(d, Label(s))
  {
    forall s ensures Flag(r, s) <==> InGroup(d, Label(s)) {
      GroupLabelsIff(d, Label(s));
    }
  }

  /** One row per drug, in document order; flag `s` is set exactly when some
      group label of the drug, lower-cased, equals the flag's name. */
  function ExtractDrugApprovalStatus(root: Element): (r: seq<ApprovalRow>)
    requires GroupListsReadable(root.children)
    ensures |r| == |root.children|
    ensures forall i :: 0 <= i < |r| ==>
              r[i].drugId == Text(root.children[i], "drugbank-id") && r[i].name == Text(root.children[i], "name")
    ensures forall i, s :: 0 <= i < |r| ==> (Flag(r[i], s) <==> InGroup(root.children[i], Label(s)))
  {
    seq(|root.children|, i requires 0 <= i < |root.children| => ApprovalRowOf(root.children[i]))
  }

  // ---------------------------------------------------------------------------
  // extract_drug_interactions

  datatype InteractionRow = InteractionRow(
    drugName: Option<string>,
    drugId: Option<string>,
    interactsWith: Option<string>,
    interacteeId: Option<string>,
    description: Option<string>)

  predicate InteractionReadable(x: Element)
  {
    Has(x, "name") && Has(x, "drugbank-id") && Has(x, "description")
  }

  predicate InteractionsReadable(d: Element)
  {
    && Has(d, "drug-interactions")
    && forall j :: 0 <= j < |Items(d, "drug-interactions")| ==>
         Has(d, "name") && Has(d, "drugbank-id") && InteractionReadable(Items(d, "drug-interactions")[j])
  }

  /** Every drug can be read. */
  predicate InteractionListsReadable(ds: seq<Element>)
  {
    forall i :: 0 <= i < |ds| ==> InteractionsReadable(ds[i])
  }

  function InteractionRowOf(d: Element, x: Element): InteractionRow
    requires Has(d, "name") && Has(d, "drugbank-id") && InteractionReadable(x)
  {
    InteractionRow(Text(d, "name"), Text(d, "drugbank-id"), Text(x, "name"), Text(x, "drugbank-id"),
      Text(x, "description"))
  }

  /** The rows of one drug: one per listed interaction, in document order. */
  function InteractionsOf(d: Element): (g: seq<InteractionRow>)
    requires InteractionsReadable(d)
    ensures |g| == |Items(d, "drug-interactions")|
    ensures forall j :: 0 <= j < |g| ==> g[j] == InteractionRowOf(d, Items(d, "drug-interactions")[j])
  {
    seq(|Items(d, "drug-interactions")|, j requires 0 <= j < |Items(d, "drug-interactions")| =>
      InteractionRowOf(d, Items(d, "drug-interactions")[j]))
  }

  /** One row per (drug, listed interaction) pair, in document order; a pair the
      data lists under both drugs gives two rows. */
  function ExtractDrugInteractions(root: Element): (r: seq<InteractionRow>)
    requires InteractionListsReadable(root.children)
    ensures |r| == Sum(ItemCounts(root.children, "drug-interactions"))
    ensures forall i :: 0 <= i < |root.children| ==>
              Occupies(r, ItemCounts(root.children, "drug-interactions"), i, InteractionsOf(root.children[i]))
  {
    var ds := root.children;
    var g := seq(|ds|, i requires 0 <= i < |ds| => InteractionsOf(ds[i]));
    FlattenGroups(g, ItemCounts(ds, "drug-interactions"));
    Concat(g)
  }

  // ---------------------------------------------------------------------------
  // extract_prices

  /** A price row; `cost` stays the element's text (its float coercion is not modelled). */
  datatype PriceRow = PriceRow(description: Option<string>, cost: Option<string>, unit: Option<string>)

  predicate PriceReadable(p: Element)
  {
    Has(p, "description") && Has(p, "cost") && Has(p, "unit")
  }

  /** Every price element can be read. */
  predicate PricesReadable(ds: seq<Element>)
  {
    forall i :: 0 <= i < |ds| ==> PriceReadable(ds[i])
  }

  function PriceElements(root: Element): seq<Element>
  {
    FindAll(root, "price")
  }

  /** One row per price element anywhere in the document, in document order.
      A document without prices gives no table: the frame has no `cost`
      column to convert, and the lookup raises. */
  function ExtractPrices(root: Element): (r: Option<seq<PriceRow>>)
    requires PricesReadable(PriceElements(root))
    ensures r.None? <==> |PriceElements(root)| == 0
    ensures r.Some? ==> |r.value| == |PriceElements(root)|
    ensures r.Some? ==> forall k :: 0 <= k < |r.value| ==>
              && r.value[k].description == Text(PriceElements(root)[k], "description")
              && r.value[k].cost == Text(PriceElements(root)[k], "cost")
              && r.value[k].unit == Text(PriceElements(root)[k], "unit")
  {
    var ps := PriceElements(root);
    if |ps| == 0 then None
    else Some(seq(|ps|, k requires 0 <= k < |ps| =>
      PriceRow(Text(ps[k], "description"), Text(ps[k], "cost"), Text(ps[k], "unit"))))
  }
}
