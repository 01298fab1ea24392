/**
 * The parsed HTML document as the migration code sees it through the DOM:
 * elements with an ordered attribute list, text and comment nodes, and the
 * queries the code uses (`getAttribute`, `textContent`, `querySelectorAll`
 * in document order, class-token selectors).
 */
module Dom {
  import opened Wrappers
  import opened Strings

  datatype Attr = Attr(name: string, value: string)

  /** A node of a parsed document; `tag` is the lower-case local name the parser produces. */
  datatype DomNode =
    | Element(tag: string, attrs: seq<Attr>, children: seq<DomNode>)
    | Text(text: string)
    | Comment(data: string)

  /** `el.getAttribute(name)`: the value of the first attribute with that name. */
  function GetAttr(attrs: seq<Attr>, name: string): (r: Option<string>)
    ensures r.Some? <==> exists i :: 0 <= i < |attrs| && attrs[i].name == name
    ensures r.Some? ==> Attr(name, r.value) in attrs
  {
    if attrs == [] then None
    else if attrs[0].name == name then Some(attrs[0].value)
    else
      assert forall i :: 1 <= i < |attrs| ==> attrs[i] == attrs[1..][i - 1];
      GetAttr(attrs[1..], name)
  }

  /** `el.setAttribute(name, value)`: updates the attribute in place, or appends it. */
  function SetAttr(attrs: seq<Attr>, name: string, value: string): (r: seq<Attr>)
    ensures GetAttr(r, name) == Some(value)
    ensures forall n :: n != name ==> GetAttr(r, n) == GetAttr(attrs, n)
  {
    if attrs == [] then [Attr(name, value)]
    else if attrs[0].name == name then [Attr(name, value)] + attrs[1..]
    else [attrs[0]] + SetAttr(attrs[1..], name, value)
  }

  /** `el.removeAttribute(name)`. */
  function RemoveAttr(attrs: seq<Attr>, name: string): (r: seq<Attr>)
    ensures GetAttr(r, name).None?
    ensures forall n :: n != name ==> GetAttr(r, n) == GetAttr(attrs, n)
    ensures forall a :: a in r ==> a in attrs
  {
    if attrs == [] then []
    else if attrs[0].name == name then RemoveAttr(attrs[1..], name)
    else [attrs[0]] + RemoveAttr(attrs[1..], name)
  }

  /** `el.className`: the class attribute, or the empty string. */
  function ClassName(attrs: seq<Attr>): string {
    GetAttr(attrs, "class").GetOr("")
  }

  /** Whitespace as the selector engine separates class tokens. */
  predicate IsAsciiSpace(c: char) {
    c == ' ' || c == '\t' || c == '\n' || c == '\r' || c == '\U{0C}'
  }

  /** The class tokens of a class attribute value, in order. */
  function ClassTokens(s: string): (r: seq<string>)
    ensures forall k :: 0 <= k < |r| ==> r[k] != [] && forall c :: c in r[k] ==> !IsAsciiSpace(c)
    decreases |s|
  {
    if s == [] then []
    else if IsAsciiSpace(s[0]) then ClassTokens(s[1..])
    else
      var n := WordLen(s);
      [s[..n]] + ClassTokens(s[n..])
  }

  function WordLen(s: string): (n: nat)
    requires s != [] && !IsAsciiSpace(s[0])
    ensures 1 <= n <= |s| && forall c :: c in s[..n] ==> !IsAsciiSpace(c)
  {
    if |s| == 1 || IsAsciiSpace(s[1]) then 1
    else
      var m := WordLen(s[1..]);
      assert s[..m + 1] == [s[0]] + s[1..][..m];
      1 + m
  }

  /** The element matches the class selector `.token`. */
  predicate HasClass(attrs: seq<Attr>, token: string) {
    token in ClassTokens(ClassName(attrs))
  }

  /** `node.textContent`: the concatenated text of the node's text descendants. */
  function TextContent(n: DomNode): string
    decreases n
  {
    match n
    case Element(_, _, cs) => NodesText(cs)
    case Text(t) => t
    case Comment(_) => ""
  }

  function NodesText(ns: seq<DomNode>): string
    decreases ns
  {
    if ns == [] then "" else TextContent(ns[0]) + NodesText(ns[1..])
  }

  /** All elements among `ns` and their descendants, in document order. */
  function Elements(ns: seq<DomNode>): (r: seq<DomNode>)
    ensures forall e :: e in r ==> e.Element?
    decreases ns
  {
    if ns == [] then [] else ElementsOf(ns[0]) + Elements(ns[1..])
  }

  /** The node itself, if it is an element, followed by the elements below it. */
  function ElementsOf(n: DomNode): (r: seq<DomNode>)
    ensures forall e :: e in r ==> e.Element?
    ensures n.Element? ==> r != [] && r[0] == n
    decreases n
  {
    match n
    case Element(_, _, cs) => [n] + Elements(cs)
    case _ => []
  }

  lemma {:induction false} ElementsAppend(a: seq<DomNode>, b: seq<DomNode>)
    ensures Elements(a + b) == Elements(a) + Elements(b)
  {
    if a != [] {
      assert (a + b)[0] == a[0];
      assert (a + b)[1..] == a[1..] + b;
      ElementsAppend(a[1..], b);
      calc {
        Elements(a + b);
        ElementsOf(a[0]) + Elements(a[1..] + b);
        ElementsOf(a[0]) + (Elements(a[1..]) + Elements(b));
        (ElementsOf(a[0]) + Elements(a[1..])) + Elements(b);
      }
    } else {
      assert a + b == b;
    }
  }

  /** The elements with a given tag, in document order (`querySelectorAll(tag)`). */
  function WithTag(es: seq<DomNode>, tag: string): (r: seq<DomNode>)
    ensures |r| <= |es|
    ensures forall e :: e in r ==> e in es && e.Element? && e.tag == tag
    ensures forall e :: e in es && e.Element? && e.tag == tag ==> e in r
  {
    if es == [] then []
    else if es[0].Element? && es[0].tag == tag then [es[0]] + WithTag(es[1..], tag)
    else WithTag(es[1..], tag)
  }

  lemma {:induction false} WithTagAppend(a: seq<DomNode>, b: seq<DomNode>, tag: string)
    ensures WithTag(a + b, tag) == WithTag(a, tag) + WithTag(b, tag)
  {
    if a == [] {
      assert a + b == b;
    } else {
      assert (a + b)[0] == a[0] && (a + b)[1..] == a[1..] + b;
      WithTagAppend(a[1..], b, tag);
    }
  }

  /** The first element with a given tag (`querySelector(tag)`). */
  function FirstWithTag(ns: seq<DomNode>, tag: string): (r: Option<DomNode>)
    ensures r.Some? <==> WithTag(Elements(ns), tag) != []
    ensures r.Some? ==> r.value == WithTag(Elements(ns), tag)[0]
  {
    var all := WithTag(Elements(ns), tag);
    if all == [] then None else Some(all[0])
  }

  /** The elements carrying a class token, in document order (`querySelectorAll('.token')`). */
  function WithClass(es: seq<DomNode>, token: string): (r: seq<DomNode>)
    ensures |r| <= |es|
    ensures forall e :: e in r ==> e in es && e.Element? && HasClass(e.attrs, token)
    ensures forall e :: e in es && e.Element? && HasClass(e.attrs, token) ==> e in r
  {
    if es == [] then []
    else if es[0].Element? && HasClass(es[0].attrs, token) then [es[0]] + WithClass(es[1..], token)
    else WithClass(es[1..], token)
  }

  /** The first element carrying a class token (`querySelector('.token')`). */
  function FirstWithClass(ns: seq<DomNode>, token: string): (r: Option<DomNode>)
    ensures r.Some? <==> WithClass(Elements(ns), token) != []
    ensures r.Some? ==> r.value == WithClass(Elements(ns), token)[0] && r.value.Element? && HasClass(r.value.attrs, token)
  {
    var all := WithClass(Elements(ns), token);
    if all == [] then None else Some(all[0])
  }

  /** `parent.firstElementChild`: the first child that is an element. */
  function FirstElementChild(ns: seq<DomNode>): (r: Option<DomNode>)
    ensures r.Some? ==> r.value in ns && r.value.Element?
    ensures r.None? ==> forall n :: n in ns ==> !n.Element?
  {
    if ns == [] then None
    else if ns[0].Element? then Some(ns[0])
    else FirstElementChild(ns[1..])
  }

  /** Rewrites the attribute list of every element with `f`, keeping the tree shape. */
  function MapAttrs(ns: seq<DomNode>, f: (string, seq<Attr>) -> seq<Attr>): (r: seq<DomNode>)
    ensures |r| == |ns|
    decreases ns
  {
    if ns == [] then [] else [MapAttrsNode(ns[0], f)] + MapAttrs(ns[1..], f)
  }

  function MapAttrsNode(n: DomNode, f: (string, seq<Attr>) -> seq<Attr>): DomNode
    decreases n
  {
    match n
    case Element(tag, attrs, cs) => Element(tag, f(tag, attrs), MapAttrs(cs, f))
    case _ => n
  }

  /** An attribute rewrite touches the elements one by one: the rewritten document has the
      same elements in the same order, each with its attributes passed through `f`. */
  lemma {:induction false} MapAttrsElements(ns: seq<DomNode>, f: (string, seq<Attr>) -> seq<Attr>)
    ensures var es := Elements(ns); var rs := Elements(MapAttrs(ns, f));
      |rs| == |es| && forall i :: 0 <= i < |es| ==> rs[i].tag == es[i].tag && rs[i].attrs == f(es[i].tag, es[i].attrs)
    decreases ns
  {
    if ns != [] {
      MapAttrsElementsOf(ns[0], f);
      MapAttrsElements(ns[1..], f);
    }
  }

  lemma {:induction false} MapAttrsElementsOf(n: DomNode, f: (string, seq<Attr>) -> seq<Attr>)
    ensures var es := ElementsOf(n); var rs := ElementsOf(MapAttrsNode(n, f));
      |rs| == |es| && forall i :: 0 <= i < |es| ==> rs[i].tag == es[i].tag && rs[i].attrs == f(es[i].tag, es[i].attrs)
    decreases n
  {
    if n.Element? {
      MapAttrsElements(n.children, f);
    }
  }
}
