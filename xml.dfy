/** The parsed message tree, standing in for an ElementTree element, and the two
    lookups the extractor uses on it. */
module Xml {
  import opened Common

  /** An element: its tag, its text (None when it has none), its attributes, its children in document order. */
  datatype Element = Element(tag: string, text: Option<string>, attrib: map<string, string>, children: seq<Element>)

  /** The position of the first element of `cs` with tag `tag`, or -1. */
  function IndexOfTag(cs: seq<Element>, tag: string): (r: int)
    ensures r == -1 ==> forall i :: 0 <= i < |cs| ==> cs[i].tag != tag
    ensures r != -1 ==> 0 <= r < |cs| && cs[r].tag == tag
    ensures r != -1 ==> forall i :: 0 <= i < r ==> cs[i].tag != tag
  {
    if cs == [] then -1
    else if cs[0].tag == tag then 0
    else
      var k := IndexOfTag(cs[1..], tag);
      if k == -1 then -1 else k + 1
  }

  /** `e.find(tag)`: the first direct child with that tag. */
  function FindChild(e: Element, tag: string): (r: Option<Element>)
    ensures r.None? <==> forall i :: 0 <= i < |e.children| ==> e.children[i].tag != tag
    ensures r.Some? ==> r.value.tag == tag
    ensures r.Some? ==> r.value in e.children
  {
    var k := IndexOfTag(e.children, tag);
    if k == -1 then None else Some(e.children[k])
  }

  /** `find` returns the FIRST matching child: no child before it has the tag. */
  lemma FindChildIsFirst(e: Element, tag: string)
    requires FindChild(e, tag).Some?
    ensures exists k :: 0 <= k < |e.children| && e.children[k] == FindChild(e, tag).value &&
                        forall j :: 0 <= j < k ==> e.children[j].tag != tag
  {
    var k := IndexOfTag(e.children, tag);
    assert e.children[k] == FindChild(e, tag).value;
  }

  /** The direct children of `cs` with tag `tag`, in document order. */
  function WithTag(cs: seq<Element>, tag: string): (r: seq<Element>)
    ensures |r| <= |cs|
    ensures forall c :: c in r ==> c in cs && c.tag == tag
    ensures forall i :: 0 <= i < |cs| && cs[i].tag == tag ==> cs[i] in r
  {
    if cs == [] then []
    else (if cs[0].tag == tag then [cs[0]] else []) + WithTag(cs[1..], tag)
  }

  /** `findall` keeps document order: the matches among two runs of children are those of
      the first run followed by those of the second. */
  lemma {:induction false} WithTagAppend(a: seq<Element>, b: seq<Element>, tag: string)
    ensures WithTag(a + b, tag) == WithTag(a, tag) + WithTag(b, tag)
  {
    if a == [] {
      assert a + b == b;
    } else {
      assert (a + b)[0] == a[0];
      assert (a + b)[1..] == a[1..] + b;
      WithTagAppend(a[1..], b, tag);
      AppendAssoc(if a[0].tag == tag then [a[0]] else [], WithTag(a[1..], tag), WithTag(b, tag));
    }
  }

  /** `e.findall(tag)`. */
  function FindAll(e: Element, tag: string): seq<Element> {
    WithTag(e.children, tag)
  }

  /** `e.get(key, default)`: an attribute, or the default when it is absent. */
  function Get(e: Element, key: string, default: string): string {
    if key in e.attrib then e.attrib[key] else default
  }

  /** `e` with `x` inserted among its children at position `i`. */
  function InsertChild(e: Element, i: nat, x: Element): Element
    requires i <= |e.children|
  {
    e.(children := e.children[..i] + [x] + e.children[i..])
  }

  /** The first index with a tag is determined by the tags: a position holding the tag with
      none before it is the first index. */
  lemma IndexOfTagAt(cs: seq<Element>, tag: string, k: int)
    requires 0 <= k < |cs| && cs[k].tag == tag
    requires forall j :: 0 <= j < k ==> cs[j].tag != tag
    ensures IndexOfTag(cs, tag) == k
  {
  }

  /** A child inserted anywhere does not change what `find` returns for another tag. */
  lemma FindChildAfterInsert(e: Element, i: nat, x: Element, tag: string)
    requires i <= |e.children| && x.tag != tag
    ensures FindChild(InsertChild(e, i, x), tag) == FindChild(e, tag)
  {
    var cs, cs' := e.children, InsertChild(e, i, x).children;
    assert forall j :: 0 <= j < i ==> cs'[j] == cs[j];
    assert forall j :: i <= j < |cs| ==> cs'[j + 1] == cs[j];
    var k := IndexOfTag(cs, tag);
    if k == -1 {
      assert forall j :: 0 <= j < |cs'| ==> cs'[j].tag != tag by {
        forall j | 0 <= j < |cs'|
          ensures cs'[j].tag != tag
        {
          if j > i { assert cs'[j] == cs[j - 1]; }
        }
      }
    } else if k < i {
      IndexOfTagAt(cs', tag, k);
    } else {
      assert forall j :: 0 <= j < k + 1 ==> cs'[j].tag != tag by {
        forall j | 0 <= j < k + 1
          ensures cs'[j].tag != tag
        {
          if j > i { assert cs'[j] == cs[j - 1]; }
        }
      }
      IndexOfTagAt(cs', tag, k + 1);
    }
  }
}
