/**
 * The parsed page as the extractor sees it: the elements it queries, in
 * document order, and the four XPath queries it runs over them.
 */
module Document {
  import opened Wrappers
  import opened PhpStrings

  /**
   * An element of the parsed page. An attribute the markup does not carry is `None`;
   * a present attribute with an empty value is `Some("")`. `Title` carries the
   * element's text content.
   */
  datatype Element =
    | Meta(property: Option<string>, name: Option<string>, content: Option<string>)
    | Title(text: string)
    | Link(rel: Option<string>, href: Option<string>)
    | Other

  /** The page's elements in document order. */
  type Page = seq<Element>

  /** The XPath expressions the extractor evaluates. */
  datatype Query =
    | MetaContentByProperty(property: string)  // //meta[@property='…']/@content
    | MetaContentByName(name: string)          // //meta[@name='…']/@content
    | TitleText                                // //title
    | LinkHrefByRel(fragment: string)          // //link[contains(@rel, '…')]/@href

  /**
   * The node value `q` selects from `e`, if any. A query ending in `/@attr` selects
   * nothing from an element that lacks `attr`, even when the element itself matches.
   */
  function Select(q: Query, e: Element): (r: Option<string>)
    ensures r.Some? && q.TitleText? ==> e.Title? && r.value == e.text
    ensures r.Some? && q.MetaContentByProperty? ==> e.Meta? && e.property == Some(q.property) && r == e.content
    ensures r.Some? && q.MetaContentByName? ==> e.Meta? && e.name == Some(q.name) && r == e.content
    ensures r.Some? && q.LinkHrefByRel? ==> e.Link? && r == e.href && e.rel.Some? && Contains(e.rel.value, q.fragment)
    ensures e.Other? ==> r.None?
    ensures q.MetaContentByProperty? && e.Meta? && e.property == Some(q.property) ==> r == e.content
    ensures q.MetaContentByName? && e.Meta? && e.name == Some(q.name) ==> r == e.content
    ensures q.TitleText? && e.Title? ==> r == Some(e.text)
    ensures q.LinkHrefByRel? && e.Link? && e.rel.Some? && Contains(e.rel.value, q.fragment) ==> r == e.href
  {
    match q
    case MetaContentByProperty(p) =>
      if e.Meta? && e.property == Some(p) then e.content else None
    case MetaContentByName(n) =>
      if e.Meta? && e.name == Some(n) then e.content else None
    case TitleText =>
      if e.Title? then Some(e.text) else None
    case LinkHrefByRel(f) =>
      if e.Link? && e.rel.Some? && Contains(e.rel.value, f) then e.href else None
  }

  predicate Matches(page: Page, q: Query, i: int) {
    0 <= i < |page| && Select(q, page[i]).Some?
  }

  /** Element `i` is the first, in document order, from which `q` selects a node. */
  predicate IsFirstMatch(page: Page, q: Query, i: int) {
    Matches(page, q, i) && forall j :: 0 <= j < i ==> !Matches(page, q, j)
  }

  /** The query's node list is non-empty (`$nodes->length > 0`). */
  predicate HasMatch(page: Page, q: Query) {
    exists i :: 0 <= i < |page| && Matches(page, q, i)
  }

  /** There is only one first match. */
  lemma FirstMatchUnique(page: Page, q: Query, i: int, j: int)
    requires IsFirstMatch(page, q, i) && IsFirstMatch(page, q, j)
    ensures i == j
  {
  }

  /** The position of the first element from which `q` selects a node. */
  function FirstMatch(page: Page, q: Query): (r: Option<nat>)
    ensures r.Some? ==> IsFirstMatch(page, q, r.value)
    ensures r.None? ==> !HasMatch(page, q)
  {
    if page == [] then None
    else if Select(q, page[0]).Some? then Some(0)
    else
      match FirstMatch(page[1..], q)
      case None =>
        assert forall i :: Matches(page, q, i) ==> Matches(page[1..], q, i - 1);
        None
      case Some(i) =>
        assert forall j :: Matches(page, q, j) && j > 0 ==> Matches(page[1..], q, j - 1);
        Some(i + 1)
  }

  /**
   * `$xpath->query(q)->item(0)->nodeValue` guarded by `length > 0`: the value of the
   * first selected node, or `None` when the query selects nothing.
   */
  function QueryFirst(page: Page, q: Query): (r: Option<string>)
    ensures r.Some? <==> HasMatch(page, q)
    ensures forall i :: IsFirstMatch(page, q, i) ==> r == Select(q, page[i])
  {
    match FirstMatch(page, q)
    case None => None
    case Some(i) => Select(q, page[i])
  }

  /**
   * Only document order matters: a match in `page` hides everything after it, and
   * elements that `q` selects nothing from can be skipped.
   */
  lemma {:induction false} QueryFirstAppend(page: Page, rest: Page, q: Query)
    ensures QueryFirst(page + rest, q) == if HasMatch(page, q) then QueryFirst(page, q) else QueryFirst(rest, q)
  {
    var whole := page + rest;
    if page == [] {
      assert whole == rest;
      assert !HasMatch(page, q);
    } else if Select(q, page[0]).Some? {
      assert whole[0] == page[0];
      assert IsFirstMatch(page, q, 0) && IsFirstMatch(whole, q, 0);
    } else {
      assert whole[0] == page[0];
      assert whole[1..] == page[1..] + rest;
      QueryFirstSkip(whole, q);
      QueryFirstSkip(page, q);
      HasMatchSkip(page, q);
      QueryFirstAppend(page[1..], rest, q);
    }
  }

  /** A leading element that `q` selects nothing from does not decide whether `q` matches. */
  lemma HasMatchSkip(page: Page, q: Query)
    requires page != [] && Select(q, page[0]).None?
    ensures HasMatch(page, q) == HasMatch(page[1..], q)
  {
    assert forall i :: Matches(page, q, i) ==> Matches(page[1..], q, i - 1);
    assert forall i :: Matches(page[1..], q, i) ==> Matches(page, q, i + 1);
  }

  /** A leading element that `q` selects nothing from does not change its first match. */
  lemma QueryFirstSkip(page: Page, q: Query)
    requires page != [] && Select(q, page[0]).None?
    ensures QueryFirst(page, q) == QueryFirst(page[1..], q)
  {
  }
}
