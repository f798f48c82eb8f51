/** The part of an HtmlAgilityPack document the scraper reads: elements with
    their attributes and children, and text. The parser lower-cases element
    and attribute names, so both are compared as given here. */
module Html {

  datatype HtmlNode =
    | Element(name: string, attributes: map<string, string>, children: seq<HtmlNode>)
    | Text(text: string)

  /** A loaded document: the children of its DocumentNode. */
  datatype HtmlDocument = HtmlDocument(nodes: seq<HtmlNode>)

  /** InnerText: the text of every text node below, in document order. */
  function InnerText(n: HtmlNode): string
  {
    match n
    case Text(t) => t
    case Element(_, _, children) => InnerTextAll(children)
  }

  function InnerTextAll(nodes: seq<HtmlNode>): string
  {
    if nodes == [] then "" else InnerText(nodes[0]) + InnerTextAll(nodes[1..])
  }

  /** Descendants(): every node below n, in document (pre-)order. */
  function Descendants(n: HtmlNode): seq<HtmlNode>
  {
    match n
    case Text(_) => []
    case Element(_, _, children) => WithDescendants(children)
  }

  /** Each node of the list followed by its descendants. */
  function WithDescendants(nodes: seq<HtmlNode>): (r: seq<HtmlNode>)
    ensures |r| >= |nodes|
  {
    if nodes == [] then [] else [nodes[0]] + Descendants(nodes[0]) + WithDescendants(nodes[1..])
  }

  /** DocumentNode.Descendants(). */
  function DocumentDescendants(doc: HtmlDocument): seq<HtmlNode>
  {
    WithDescendants(doc.nodes)
  }

  lemma {:induction false} WithDescendantsAppend(a: seq<HtmlNode>, b: seq<HtmlNode>)
    ensures WithDescendants(a + b) == WithDescendants(a) + WithDescendants(b)
  {
    if a == [] {
      assert a + b == b;
    } else {
      assert (a + b)[1..] == a[1..] + b;
      WithDescendantsAppend(a[1..], b);
    }
  }

  /** Every top-level node of the document is among its descendants. */
  lemma {:induction false} TopLevelNodesAreDescendants(nodes: seq<HtmlNode>, i: nat)
    requires i < |nodes|
    ensures nodes[i] in WithDescendants(nodes)
  {
    if i > 0 {
      TopLevelNodesAreDescendants(nodes[1..], i - 1);
    }
  }
}
