/** An already-parsed XML element tree and the ElementTree queries the extractors
    use: `find`, `.text`, `.get`, `iter()` and `findall('.//tag')`. Tags are local
    names; namespace resolution belongs to the parser and is not modelled. */
module Tree {
  import opened Wrappers
  import Seqs

  datatype Element = Element(tag: string, text: Option<string>, attrib: map<string, string>, children: seq<Element>)

  /** Position of the first element of `cs` carrying `tag`. */
  function FirstWithTag(cs: seq<Element>, tag: string): (r: Option<nat>)
    ensures r.Some? ==> r.value < |cs| && cs[r.value].tag == tag
    ensures r.Some? ==> forall j :: 0 <= j < r.value ==> cs[j].tag != tag
    ensures r.None? ==> forall j :: 0 <= j < |cs| ==> cs[j].tag != tag
  {
    if |cs| == 0 then None
    else if cs[0].tag == tag then Some(0)
    else match FirstWithTag(cs[1..], tag)
      case None => None
      case Some(k) => Some(k + 1)
  }

  /** `e.find(tag)`: the first direct child with that tag, or nothing. */
  function Find(e: Element, tag: string): (r: Option<Element>)
    ensures r.Some? ==> r.value.tag == tag && r.value in e.children
  {
    match FirstWithTag(e.children, tag)
    case None => None
    case Some(k) => Some(e.children[k])
  }

  /** `e.find(tag)` finds nothing exactly when no child carries the tag. */
  lemma FindNoneIff(e: Element, tag: string)
    ensures Find(e, tag).None? <==> forall j :: 0 <= j < |e.children| ==> e.children[j].tag != tag
  {
  }

  /** `e.find(tag)` returns the first direct child carrying the tag: no
      earlier child carries it. */
  lemma FindIsFirst(e: Element, tag: string)
    ensures Find(e, tag).Some? ==>
              exists k :: 0 <= k < |e.children| && e.children[k] == Find(e, tag).value && forall j :: 0 <= j < k ==> e.children[j].tag != tag
  {
    var k := FirstWithTag(e.children, tag);
    if k.Some? {
      assert e.children[k.value] == Find(e, tag).value;
    }
  }

  /** `e.find(tag) is not None`. */
  predicate Has(e: Element, tag: string)
  {
    Find(e, tag).Some?
  }

  /** `e.find(tag)` where the source relies on the child being there. */
  function Child(e: Element, tag: string): Element
    requires Has(e, tag)
  {
    Find(e, tag).value
  }

  /** `e.find(tag).text`. */
  function Text(e: Element, tag: string): Option<string>
    requires Has(e, tag)
  {
    Child(e, tag).text
  }

  /** The children of `e.find(tag)`: what `for x in e.find(tag)` visits. */
  function Items(e: Element, tag: string): seq<Element>
    requires Has(e, tag)
  {
    Child(e, tag).children
  }

  /** `e.get(key)`: an attribute value, or nothing. */
  function Get(e: Element, key: string): (r: Option<string>)
    ensures r.None? <==> key !in e.attrib
    ensures r.Some? ==> (key, r.value) in e.attrib.Items
  {
    if key in e.attrib then Some(e.attrib[key]) else None
  }

  /** `e.iter()`: `e` and all its descendants in document (pre-)order. */
  function Iter(e: Element): (r: seq<Element>)
    ensures |r| >= 1 && r[0] == e
    decreases e
  {
    [e] + IterAll(e.children)
  }

  /** The `iter()` sequences of `cs`, one after another. */
  function IterAll(cs: seq<Element>): seq<Element>
    decreases cs
  {
    if |cs| == 0 then [] else Iter(cs[0]) + IterAll(cs[1..])
  }

  /** `root.findall('.//tag')`: every element strictly below `root` with that tag,
      in document order. */
  function FindAll(root: Element, tag: string): (r: seq<Element>)
    ensures forall k :: 0 <= k < |r| ==> r[k].tag == tag
    ensures Seqs.IsSubsequence(r, IterAll(root.children))
    ensures forall x :: x in IterAll(root.children) && x.tag == tag ==> x in r
    ensures |r| == Seqs.CountIf((x: Element) => x.tag == tag, IterAll(root.children))
  {
    Seqs.FilterIsSubsequence((x: Element) => x.tag == tag, IterAll(root.children));
    Seqs.FilterCount((x: Element) => x.tag == tag, IterAll(root.children));
    Seqs.Filter((x: Element) => x.tag == tag, IterAll(root.children))
  }

  /** `x` is strictly below `e`: a child of `e`, or below one. */
  ghost predicate Descends(x: Element, e: Element)
    decreases e
  {
    exists c :: c in e.children && (x == c || Descends(x, c))
  }

  /** `iter()` visits the element itself and exactly the elements below it. */
  lemma {:induction false} IterMembers(e: Element, x: Element)
    ensures x in Iter(e) <==> x == e || Descends(x, e)
    decreases e, 1
  {
    IterAllMembers(e.children, x);
  }

  /** The walk of a child list visits exactly the children and what lies below them. */
  lemma {:induction false} IterAllMembers(cs: seq<Element>, x: Element)
    ensures x in IterAll(cs) <==> exists c :: c in cs && (x == c || Descends(x, c))
    decreases cs, 0
  {
    if |cs| > 0 {
      IterMembers(cs[0], x);
      IterAllMembers(cs[1..], x);
      assert IterAll(cs) == Iter(cs[0]) + IterAll(cs[1..]);
      if x in IterAll(cs) {
        if x in Iter(cs[0]) {
          assert cs[0] in cs;
        } else {
          var c :| c in cs[1..] && (x == c || Descends(x, c));
          assert c in cs;
        }
      }
      if exists c :: c in cs && (x == c || Descends(x, c)) {
        var c :| c in cs && (x == c || Descends(x, c));
        if c == cs[0] {
          assert x in Iter(cs[0]);
        } else {
          assert c in cs[1..];
        }
      }
    }
  }

  /** Equal elements at different places are all found: a root with two
      identical childless pathway elements yields both. */
  lemma FindAllKeepsCopies()
    ensures var p := Element("pathway", None, map[], []);
            |FindAll(Element("drugbank", None, map[], [p, p]), "pathway")| == 2
  {
    var p := Element("pathway", None, map[], []);
    var root := Element("drugbank", None, map[], [p, p]);
    assert IterAll([p]) == [p] by {
      assert Iter(p) == [p];
    }
    assert IterAll(root.children) == [p, p] by {
      assert root.children[1..] == [p];
    }
    var isTag := (x: Element) => x.tag == "pathway";
    assert Seqs.CountIf(isTag, [p]) == 1 by {
      assert [p][1..] == [];
    }
    assert [p, p][1..] == [p];
  }

  lemma {:induction false} IterAllAppend(a: seq<Element>, b: seq<Element>)
    ensures IterAll(a + b) == IterAll(a) + IterAll(b)
  {
    if |a| > 0 {
      assert (a + b)[1..] == a[1..] + b;
      IterAllAppend(a[1..], b);
    } else {
      assert a + b == b;
    }
  }
}
