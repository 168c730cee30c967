/**
 * The profile summary reader (app/package/data_collectors/steam_profile_info.py):
 * the early exits of `get_steam_profile_info` and `xml_to_dict`, which folds
 * an XML element's children into a dictionary keyed by tag.
 */
module ProfileXml {
  import opened Wrappers
  import opened Text

  /** An XML element: its tag, its text (`None` when it has none) and its children, in document order. */
  datatype Element = Element(tag: string, text: Option<string>, children: seq<Element>)

  /**
   * What `xml_to_dict` builds: an element's text, a dictionary (its entries in
   * insertion order, as a Python `dict` keeps them) or a list.
   */
  datatype Data = Leaf(text: Option<string>) | Dict(entries: seq<(string, Data)>) | List(items: seq<Data>)

  /** The entry index of `tag`, if the dictionary has it. */
  function Find(d: seq<(string, Data)>, tag: string): (r: Option<nat>)
    ensures r.Some? ==> r.value < |d| && d[r.value].0 == tag
    ensures r.None? ==> forall i :: 0 <= i < |d| ==> d[i].0 != tag
  {
    if d == [] then None
    else if d[0].0 == tag then Some(0)
    else match Find(d[1..], tag)
      case None => None
      case Some(i) => Some(i + 1)
  }

  /**
   * One child's value going into the dictionary: a new tag is added; a tag
   * already holding a list gets the value appended; a tag holding one value
   * becomes the list of both.
   */
  function Insert(d: seq<(string, Data)>, tag: string, v: Data): seq<(string, Data)>
  {
    match Find(d, tag)
    case None => d + [(tag, v)]
    case Some(i) => d[i := (tag, if d[i].1.List? then List(d[i].1.items + [v]) else List([d[i].1, v]))]
  }

  /** `xml_to_dict(child) if len(child) > 0 else child.text`. */
  function ItemData(c: Element): Data
    decreases c, |c.children| + 1
  {
    if |c.children| > 0 then Dict(Fold(c, |c.children|)) else Leaf(c.text)
  }

  /** The dictionary after the first `n` children of `e`. */
  function Fold(e: Element, n: nat): seq<(string, Data)>
    requires n <= |e.children|
    decreases e, n
  {
    if n == 0 then []
    else
      assert e.children[n - 1] in e.children;
      Insert(Fold(e, n - 1), e.children[n - 1].tag, ItemData(e.children[n - 1]))
  }

  /** `xml_to_dict(element)`. */
  function XmlToDict(e: Element): seq<(string, Data)>
  {
    Fold(e, |e.children|)
  }

  // ----- the reference reading: group the children's values by tag -----

  /** The children's tags, in document order. */
  function Tags(cs: seq<Element>): (r: seq<string>)
    ensures |r| == |cs| && forall i :: 0 <= i < |cs| ==> r[i] == cs[i].tag
  {
    if cs == [] then [] else Tags(cs[..|cs| - 1]) + [cs[|cs| - 1].tag]
  }

  /** The values of the children tagged `t`, in document order. */
  function Values(cs: seq<Element>, t: string): (r: seq<Data>)
    ensures |r| <= |cs|
  {
    if cs == [] then []
    else Values(cs[..|cs| - 1], t) + (if cs[|cs| - 1].tag == t then [ItemData(cs[|cs| - 1])] else [])
  }

  /** A tag seen once maps to its value, a repeated tag to the list of all its values. */
  function Collapse(vs: seq<Data>): Data
  {
    if |vs| == 1 then vs[0] else List(vs)
  }

  /** The keys of a dictionary, in insertion order. */
  function Keys(d: seq<(string, Data)>): (r: seq<string>)
    ensures |r| == |d| && forall i :: 0 <= i < |d| ==> r[i] == d[i].0
  {
    if d == [] then [] else Keys(d[..|d| - 1]) + [d[|d| - 1].0]
  }

  /** The tags in the order they are first seen, each once. */
  function FirstSeen(ts: seq<string>): (r: seq<string>)
  {
    if ts == [] then []
    else
      var earlier := FirstSeen(ts[..|ts| - 1]);
      if ts[|ts| - 1] in earlier then earlier else earlier + [ts[|ts| - 1]]
  }

  /** No key twice. */
  predicate Distinct(ks: seq<string>)
  {
    forall i, j :: 0 <= i < j < |ks| ==> ks[i] != ks[j]
  }

  /** The first-seen tags are distinct. */
  lemma {:induction false} FirstSeenDistinct(ts: seq<string>)
    ensures Distinct(FirstSeen(ts))
  {
    if ts != [] {
      FirstSeenDistinct(ts[..|ts| - 1]);
    }
  }

  /** A tag is among the first-seen tags exactly when it is among the tags. */
  lemma {:induction false} FirstSeenHas(ts: seq<string>, t: string)
    ensures t in FirstSeen(ts) <==> t in ts
  {
    if ts != [] {
      FirstSeenHas(ts[..|ts| - 1], t);
      FirstSeenHas(ts[..|ts| - 1], ts[|ts| - 1]);
      assert t in ts <==> t in ts[..|ts| - 1] || t == ts[|ts| - 1];
    }
  }

  /** A tag has values exactly when some child carries it. */
  lemma {:induction false} ValuesPresent(cs: seq<Element>, t: string)
    ensures |Values(cs, t)| > 0 <==> t in Tags(cs)
  {
    if cs != [] {
      ValuesPresent(cs[..|cs| - 1], t);
      assert Tags(cs) == Tags(cs[..|cs| - 1]) + [cs[|cs| - 1].tag];
    }
  }

  /** Nothing `xml_to_dict` puts directly under one key as a single value is a list. */
  lemma ItemDataNotList(c: Element)
    ensures !ItemData(c).List?
  {
  }

  /** No grouped value is itself a list. */
  lemma {:induction false} ValuesNotList(cs: seq<Element>, t: string)
    ensures forall k :: 0 <= k < |Values(cs, t)| ==> !Values(cs, t)[k].List?
  {
    if cs != [] {
      ValuesNotList(cs[..|cs| - 1], t);
      ItemDataNotList(cs[|cs| - 1]);
    }
  }

  lemma {:induction false} InsertKeys(d: seq<(string, Data)>, tag: string, v: Data)
    ensures Keys(Insert(d, tag, v)) == if tag in Keys(d) then Keys(d) else Keys(d) + [tag]
  {
    var r := Insert(d, tag, v);
    match Find(d, tag)
    case None =>
      assert tag !in Keys(d);
      assert r[..|r| - 1] == d;
    case Some(i) =>
      assert Keys(d)[i] == tag;
      assert |Keys(r)| == |Keys(d)|;
      forall k | 0 <= k < |d| ensures Keys(r)[k] == Keys(d)[k] {
      }
  }

  /** Grouping by tag, the reading `Fold` is proved against. */
  predicate Groups(d: seq<(string, Data)>, cs: seq<Element>)
  {
    Keys(d) == FirstSeen(Tags(cs))
    && forall i :: 0 <= i < |d| ==> d[i].1 == Collapse(Values(cs, d[i].0))
  }

  lemma {:induction false} AppendOne(prev: seq<Element>, c: Element, t: string)
    ensures Tags(prev + [c]) == Tags(prev) + [c.tag]
    ensures Values(prev + [c], t) == Values(prev, t) + (if c.tag == t then [ItemData(c)] else [])
  {
    assert (prev + [c])[..|prev|] == prev;
  }

  /** A tag already in the dictionary: its entry is the only one with the tag, and turns into the list of all its values. */
  lemma InsertFound(d: seq<(string, Data)>, prev: seq<Element>, c: Element, j: nat)
    requires Groups(d, prev) && j < |d| && d[j].0 == c.tag
    ensures var r := Insert(d, c.tag, ItemData(c));
      forall i :: 0 <= i < |r| && r[i].0 == c.tag ==> i == j && r[i].1 == Collapse(Values(prev, c.tag) + [ItemData(c)])
  {
    var t := c.tag;
    FirstSeenDistinct(Tags(prev));
    FindDistinct(d, t, j);
    var vs := Values(prev, t);
    FirstSeenHas(Tags(prev), t);
    ValuesPresent(prev, t);
    ValuesNotList(prev, t);
    CollapseAppend(vs, ItemData(c));
  }

  /** In a dictionary without repeated keys, a key is found where it is. */
  lemma FindDistinct(d: seq<(string, Data)>, t: string, j: nat)
    requires Distinct(Keys(d)) && j < |d| && d[j].0 == t
    ensures Find(d, t) == Some(j)
    ensures forall i :: 0 <= i < |d| && d[i].0 == t ==> i == j
  {
    assert Keys(d)[j] == t;
    forall i | 0 <= i < |d| && d[i].0 == t
      ensures i == j
    {
      assert Keys(d)[i] == t;
    }
  }

  /** One more value for a grouped tag: a single value becomes a pair, a list grows by one. */
  lemma CollapseAppend(vs: seq<Data>, v: Data)
    requires |vs| > 0 && (|vs| == 1 ==> !vs[0].List?)
    ensures (if Collapse(vs).List? then List(Collapse(vs).items + [v]) else List([Collapse(vs), v])) == Collapse(vs + [v])
  {
    if |vs| == 1 {
      assert vs + [v] == [vs[0], v];
    }
  }

  /** A new tag: its entry is appended and holds the child's value alone. */
  lemma {:induction false} InsertNew(d: seq<(string, Data)>, prev: seq<Element>, c: Element)
    requires Groups(d, prev) && Find(d, c.tag).None?
    ensures var r := Insert(d, c.tag, ItemData(c));
      forall i :: 0 <= i < |r| && r[i].0 == c.tag ==> r[i].1 == Collapse(Values(prev, c.tag) + [ItemData(c)])
  {
    var t := c.tag;
    assert t !in Keys(d);
    FirstSeenHas(Tags(prev), t);
    ValuesPresent(prev, t);
    assert Values(prev, t) == [];
  }

  /** The entry an inserted child lands in holds the grouping of all the values of its tag. */
  lemma InsertValue(d: seq<(string, Data)>, prev: seq<Element>, c: Element)
    requires Groups(d, prev)
    ensures var r := Insert(d, c.tag, ItemData(c));
      forall i :: 0 <= i < |r| && r[i].0 == c.tag ==> r[i].1 == Collapse(Values(prev, c.tag) + [ItemData(c)])
  {
    match Find(d, c.tag)
    case None => InsertNew(d, prev, c);
    case Some(j) => InsertFound(d, prev, c, j);
  }

  /** Inserting the next child keeps the grouping. */
  lemma InsertGroups(d: seq<(string, Data)>, prev: seq<Element>, c: Element)
    requires Groups(d, prev)
    ensures Groups(Insert(d, c.tag, ItemData(c)), prev + [c])
  {
    InsertGroupsKeys(d, prev, c);
    InsertValue(d, prev, c);
    var r := Insert(d, c.tag, ItemData(c));
    forall i | 0 <= i < |r|
      ensures r[i].1 == Collapse(Values(prev + [c], r[i].0))
    {
      InsertEntry(d, prev, c, i);
    }
  }

  /** The keys after the insert are the first-seen tags with the child's tag. */
  lemma InsertGroupsKeys(d: seq<(string, Data)>, prev: seq<Element>, c: Element)
    requires Keys(d) == FirstSeen(Tags(prev))
    ensures Keys(Insert(d, c.tag, ItemData(c))) == FirstSeen(Tags(prev + [c]))
  {
    InsertKeys(d, c.tag, ItemData(c));
    AppendOne(prev, c, c.tag);
    var ts := Tags(prev + [c]);
    assert ts[..|ts| - 1] == Tags(prev) && ts[|ts| - 1] == c.tag;
  }

  /** An entry under another tag is the entry that was there. */
  lemma InsertOther(d: seq<(string, Data)>, tag: string, v: Data, i: nat)
    requires i < |Insert(d, tag, v)| && Insert(d, tag, v)[i].0 != tag
    ensures i < |d| && Insert(d, tag, v)[i] == d[i]
  {
  }

  /** Each entry after the insert: the child's own tag by `InsertValue`, any other tag as before. */
  lemma InsertEntry(d: seq<(string, Data)>, prev: seq<Element>, c: Element, i: nat)
    requires Groups(d, prev)
    requires var r := Insert(d, c.tag, ItemData(c));
      forall k :: 0 <= k < |r| && r[k].0 == c.tag ==> r[k].1 == Collapse(Values(prev, c.tag) + [ItemData(c)])
    requires i < |Insert(d, c.tag, ItemData(c))|
    ensures var r := Insert(d, c.tag, ItemData(c)); r[i].1 == Collapse(Values(prev + [c], r[i].0))
  {
    var r := Insert(d, c.tag, ItemData(c));
    AppendOne(prev, c, r[i].0);
    if r[i].0 != c.tag {
      InsertOther(d, c.tag, ItemData(c), i);
    }
  }

  /**
   * After any number of children: the keys are the tags in the order they
   * are first seen, each once, and each key holds its one value or the list
   * of all its values in document order.
   */
  lemma SliceStep<T>(s: seq<T>, n: nat)
    requires 0 < n <= |s|
    ensures s[..n] == s[..n - 1] + [s[n - 1]]
  {
  }

  /** `InsertGroups` with its result and its children named. */
  lemma GroupsStep(d: seq<(string, Data)>, prev: seq<Element>, c: Element, d': seq<(string, Data)>, cs: seq<Element>)
    requires Groups(d, prev) && d' == Insert(d, c.tag, ItemData(c)) && cs == prev + [c]
    ensures Groups(d', cs)
  {
    InsertGroups(d, prev, c);
  }

  lemma {:induction false} FoldGroups(e: Element, n: nat)
    requires n <= |e.children|
    ensures Groups(Fold(e, n), e.children[..n])
  {
    if n > 0 {
      var prev, c := e.children[..n - 1], e.children[n - 1];
      FoldGroups(e, n - 1);
      SliceStep(e.children, n);
      GroupsStep(Fold(e, n - 1), prev, c, Fold(e, n), e.children[..n]);
    }
  }

  /** `xml_to_dict(root)`: one key per distinct child tag, holding that tag's value or the list of its values. */
  lemma XmlToDictGroups(root: Element)
    ensures Distinct(Keys(XmlToDict(root)))
    ensures forall t :: t in Keys(XmlToDict(root)) <==> t in Tags(root.children)
    ensures forall i :: 0 <= i < |XmlToDict(root)| ==>
      XmlToDict(root)[i].1 == Collapse(Values(root.children, XmlToDict(root)[i].0))
  {
    FoldGroups(root, |root.children|);
    assert root.children[..|root.children|] == root.children;
    FirstSeenDistinct(Tags(root.children));
    forall t ensures t in Keys(XmlToDict(root)) <==> t in Tags(root.children) {
      FirstSeenHas(Tags(root.children), t);
    }
  }

  // ----- the request -----

  /** The profile page's response, as far as the reader looks at it. */
  datatype Response = Response(ok: bool, contentType: Option<string>, hasFatalError: bool, root: Element)

  /**
   * `get_steam_profile_info`: `{}` for a failed request, a Content-Type
   * without `text/xml` (a missing header counts as `''`), or a page with a
   * `profile_fatalerror` div; otherwise the root's dictionary.
   */
  function ProfileInfo(r: Response): (d: seq<(string, Data)>)
    ensures !r.ok || !Contains(r.contentType.GetOr(""), "text/xml") || r.hasFatalError ==> d == []
    ensures r.ok && Contains(r.contentType.GetOr(""), "text/xml") && !r.hasFatalError ==> d == XmlToDict(r.root)
  {
    if !r.ok then []
    else if !Contains(r.contentType.GetOr(""), "text/xml") then []
    else if r.hasFatalError then []
    else XmlToDict(r.root)
  }

  /** A response without a Content-Type header gives `{}`. */
  lemma MissingContentType(r: Response)
    requires r.contentType.None?
    ensures ProfileInfo(r) == []
  {
    NotContains("", "text/xml");
  }
}
