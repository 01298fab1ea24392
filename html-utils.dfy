/**
 * Clean-up passes over a parsed HTML fragment: stripping WordPress class tokens
 * and data attributes, removing scripts and inline event handlers, dropping
 * empty text containers, wrapping the content in one element, and reading the
 * text and the attributes of the first element. A fragment is the list of the
 * body's child nodes; a pass that edits the live document in place is a
 * rewrite of that tree.
 */
module HtmlUtils {
  import opened Wrappers
  import opened Strings
  import opened Dom
  import Seqs
  import JsMaps

  // ----- cleanHTML: class tokens -----

  /** A class token WordPress adds. */
  predicate IsWpToken(t: string) {
    StartsWith(t, "wp-")
  }

  /** The tokens of `className.split(' ')` that do not start with `wp-`, in order. */
  function KeptTokens(cls: string): (r: seq<string>)
    ensures forall k :: 0 <= k < |r| ==> !IsWpToken(r[k])
  {
    Seqs.Filter(Split(cls, ' '), (t: string) => !IsWpToken(t))
  }

  /** The class rewrite of `cleanHTML` for one element: an element whose class contains `wp-`
      keeps its other tokens, and loses the attribute when none is left. */
  function CleanClass(attrs: seq<Attr>): seq<Attr> {
    match GetAttr(attrs, "class")
    case None => attrs
    case Some(cls) =>
      if !Contains(cls, "wp-") then attrs
      else
        var kept := KeptTokens(cls);
        if |kept| > 0 then SetAttr(attrs, "class", Join(kept, " ")) else RemoveAttr(attrs, "class")
  }

  /** A piece of `s.split(c)` occurs in `s`. */
  lemma {:induction false} SplitPiecesOccur(s: string, c: char, k: nat)
    requires k < |Split(s, c)|
    ensures Contains(s, Split(s, c)[k])
    decreases |s|
  {
    match FindChar(s, c)
    case None =>
      ContainsInfix([], s, [], s);
      OccursAtSelf(s);
    case Some(i) =>
      if k == 0 {
        OccursAtSelf(s[..i]);
        ContainsInfix([], s[..i], s[i..], s[..i]);
        assert [] + s[..i] + s[i..] == s;
      } else {
        SplitPiecesOccur(s[i + 1..], c, k - 1);
        ContainsInfix(s[..i + 1], s[i + 1..], [], Split(s, c)[k]);
        assert s[..i + 1] + s[i + 1..] + [] == s;
      }
  }

  lemma OccursAtSelf(s: string)
    ensures Contains(s, s)
  {
    assert OccursAt(s, s, 0);
    ContainsIff(s, s);
  }

  /** The class tokens that survive are exactly the non-`wp-` ones, in order; an element whose
      class never mentions `wp-` is left alone; no other attribute changes. */
  lemma CleanClassSpec(attrs: seq<Attr>)
    ensures var r := CleanClass(attrs);
      && (forall n :: n != "class" ==> GetAttr(r, n) == GetAttr(attrs, n))
      && (GetAttr(r, "class").Some? ==> forall t :: t in Split(GetAttr(r, "class").value, ' ') ==> !IsWpToken(t))
      && (match GetAttr(attrs, "class")
          case None => r == attrs
          case Some(cls) =>
            if !Contains(cls, "wp-") then r == attrs
            else
              (GetAttr(r, "class").None? <==> KeptTokens(cls) == [])
              && (GetAttr(r, "class").Some? ==> Split(GetAttr(r, "class").value, ' ') == KeptTokens(cls)))
  {
    var r := CleanClass(attrs);
    match GetAttr(attrs, "class")
    case None =>
    case Some(cls) =>
      if !Contains(cls, "wp-") {
        forall t | t in Split(cls, ' ') ensures !IsWpToken(t) {
          var k :| 0 <= k < |Split(cls, ' ')| && Split(cls, ' ')[k] == t;
          SplitPiecesOccur(cls, ' ', k);
          if IsWpToken(t) {
            assert t == "wp-" + t[3..];
            ContainsPrefix(cls, "wp-", t[3..]);
          }
        }
      } else {
        var kept := KeptTokens(cls);
        if |kept| > 0 {
          forall k | 0 <= k < |kept| ensures Free(kept[k], ' ') {
            Seqs.FilterSubset(Split(cls, ' '), (t: string) => !IsWpToken(t), kept[k]);
          }
          SplitJoin(kept, ' ');
          assert Join(kept, " ") == Join(kept, [' ']);
        }
      }
  }

  // ----- cleanHTML: data attributes -----

  /** `data-wp-*` and `data-id`, the data attributes `cleanHTML` removes. */
  predicate IsWpData(name: string) {
    StartsWith(name, "data-wp-") || name == "data-id"
  }

  function StripData(attrs: seq<Attr>): (r: seq<Attr>)
    ensures forall a :: a in r ==> !IsWpData(a.name)
  {
    Seqs.Filter(attrs, (a: Attr) => !IsWpData(a.name))
  }

  /** Removing WordPress data attributes leaves every other attribute readable as before. */
  lemma {:induction false} StripDataKeeps(attrs: seq<Attr>, n: string)
    requires !IsWpData(n)
    ensures GetAttr(StripData(attrs), n) == GetAttr(attrs, n)
  {
    if attrs != [] {
      StripDataKeeps(attrs[1..], n);
      if !IsWpData(attrs[0].name) {
        assert StripData(attrs) == [attrs[0]] + StripData(attrs[1..]);
        assert ([attrs[0]] + StripData(attrs[1..]))[1..] == StripData(attrs[1..]);
      }
    }
  }

  /** As written, the data pass visits only the elements matched by `[data-wp-], [data-id]`,
      and `[data-wp-]` selects an attribute named exactly `data-wp-`. */
  predicate SelectedAsWritten(attrs: seq<Attr>) {
    GetAttr(attrs, "data-wp-").Some? || GetAttr(attrs, "data-id").Some?
  }

  /** `cleanHTML` on one element, as written. */
  function CleanAttrsAsWritten(tag: string, attrs: seq<Attr>): seq<Attr> {
    var a := CleanClass(attrs);
    if SelectedAsWritten(attrs) then StripData(a) else a
  }

  /** `cleanHTML` on one element as intended: every `data-wp-*` and `data-id` attribute goes. */
  function CleanAttrs(tag: string, attrs: seq<Attr>): seq<Attr> {
    StripData(CleanClass(attrs))
  }

  function CleanHtmlAsWritten(doc: seq<DomNode>): (r: seq<DomNode>)
    ensures var es := Elements(doc); var rs := Elements(r);
      |rs| == |es| && forall i :: 0 <= i < |es| ==> rs[i].tag == es[i].tag && rs[i].attrs == CleanAttrsAsWritten(es[i].tag, es[i].attrs)
  {
    MapAttrsElements(doc, CleanAttrsAsWritten);
    MapAttrs(doc, CleanAttrsAsWritten)
  }

  /** `cleanHTML`, with the data pass applied to every element. */
  function CleanHtml(doc: seq<DomNode>): (r: seq<DomNode>)
    ensures var es := Elements(doc); var rs := Elements(r);
      |rs| == |es| && forall i :: 0 <= i < |es| ==> rs[i].tag == es[i].tag && rs[i].attrs == CleanAttrs(es[i].tag, es[i].attrs)
  {
    MapAttrsElements(doc, CleanAttrs);
    MapAttrs(doc, CleanAttrs)
  }

  /** After cleaning, no element carries a `wp-` class token or a WordPress data attribute,
      and every other attribute keeps its value. */
  lemma CleanHtmlLeavesNoWpMarkup(doc: seq<DomNode>)
    ensures var es := Elements(doc); var rs := Elements(CleanHtml(doc));
      |rs| == |es|
      && forall i :: 0 <= i < |rs| ==>
        && rs[i].tag == es[i].tag
        && (forall a :: a in rs[i].attrs ==> !IsWpData(a.name))
        && (GetAttr(rs[i].attrs, "class").Some? ==> forall t :: t in Split(GetAttr(rs[i].attrs, "class").value, ' ') ==> !IsWpToken(t))
        && (forall n :: n != "class" && !IsWpData(n) ==> GetAttr(rs[i].attrs, n) == GetAttr(es[i].attrs, n))
  {
    var es := Elements(doc);
    var rs := Elements(CleanHtml(doc));
    forall i | 0 <= i < |rs|
      ensures (GetAttr(rs[i].attrs, "class").Some? ==> forall t :: t in Split(GetAttr(rs[i].attrs, "class").value, ' ') ==> !IsWpToken(t))
      ensures forall n :: n != "class" && !IsWpData(n) ==> GetAttr(rs[i].attrs, n) == GetAttr(es[i].attrs, n)
    {
      CleanClassSpec(es[i].attrs);
      StripDataKeeps(CleanClass(es[i].attrs), "class");
      forall n | n != "class" && !IsWpData(n) ensures GetAttr(rs[i].attrs, n) == GetAttr(es[i].attrs, n) {
        StripDataKeeps(CleanClass(es[i].attrs), n);
      }
    }
  }

  /** As written, an element whose only WordPress attribute is `data-wp-interactive` keeps it. */
  lemma DataWpSurvivesAsWritten()
    ensures var doc := [Element("div", [Attr("data-wp-interactive", "core/navigation")], [])];
      Attr("data-wp-interactive", "core/navigation") in Elements(CleanHtmlAsWritten(doc))[0].attrs
      && IsWpData("data-wp-interactive")
  {
    var attrs := [Attr("data-wp-interactive", "core/navigation")];
    var doc := [Element("div", attrs, [])];
    assert Elements(doc) == [doc[0]];
    assert GetAttr(attrs, "class").None?;
    assert GetAttr(attrs, "data-wp-").None?;
    assert GetAttr(attrs, "data-id").None?;
    assert StartsWith("data-wp-interactive", "data-wp-");
  }

  // ----- extractText -----

  /** `document.body.textContent || ''`. */
  function ExtractText(doc: seq<DomNode>): string {
    NodesText(doc)
  }

  /** The text of consecutive nodes is the text of each in turn: markup adds nothing and drops nothing. */
  lemma {:induction false} ExtractTextConcat(a: seq<DomNode>, b: seq<DomNode>)
    ensures ExtractText(a + b) == ExtractText(a) + ExtractText(b)
    decreases a
  {
    if a != [] {
      ExtractTextConcat(a[1..], b);
      assert (a + b)[0] == a[0] && (a + b)[1..] == a[1..] + b;
      assert NodesText(a + b) == TextContent(a[0]) + NodesText(a[1..] + b);
    } else {
      assert a + b == b;
    }
  }

  /** The documented example: `<p>Hello <strong>world</strong></p>` reads as `Hello world`. */
  lemma ExtractTextExample()
    ensures ExtractText([Element("p", [], [Text("Hello "), Element("strong", [], [Text("world")])])]) == "Hello world"
  {
    var strong := Element("strong", [], [Text("world")]);
    assert TextContent(strong) == "world";
    assert NodesText([Text("Hello "), strong]) == "Hello " + NodesText([strong]);
  }

  // ----- sanitizeHTML -----

  /** An inline event handler attribute such as `onclick`. */
  predicate IsHandler(a: Attr) {
    StartsWith(a.name, "on")
  }

  function StripHandlers(attrs: seq<Attr>): (r: seq<Attr>) {
    Seqs.Filter(attrs, (a: Attr) => !IsHandler(a))
  }

  /** `sanitizeHTML`: script elements go with everything inside them, and every remaining
      element loses its `on*` attributes. */
  function Sanitize(ns: seq<DomNode>): (r: seq<DomNode>)
    decreases ns
  {
    if ns == [] then []
    else
      var rest := Sanitize(ns[1..]);
      match ns[0]
      case Element(tag, attrs, cs) =>
        if tag == "script" then rest
        else [Element(tag, StripHandlers(attrs), Sanitize(cs))] + rest
      case _ => [ns[0]] + rest
  }

  lemma ElementsCons(x: DomNode, rest: seq<DomNode>)
    ensures Elements([x] + rest) == ElementsOf(x) + Elements(rest)
  {
    assert ([x] + rest)[0] == x && ([x] + rest)[1..] == rest;
  }

  /** No script and no event handler survives sanitising. */
  lemma {:induction false} SanitizeLeavesNoScript(ns: seq<DomNode>)
    ensures forall e :: e in Elements(Sanitize(ns)) ==> e.tag != "script" && forall a :: a in e.attrs ==> !IsHandler(a)
    decreases ns
  {
    if ns != [] {
      SanitizeLeavesNoScript(ns[1..]);
      var rest := Sanitize(ns[1..]);
      match ns[0]
      case Element(tag, attrs, cs) =>
        if tag != "script" {
          SanitizeLeavesNoScript(cs);
          var x := Element(tag, StripHandlers(attrs), Sanitize(cs));
          ElementsCons(x, rest);
        }
      case _ =>
        ElementsCons(ns[0], rest);
    }
  }

  /** Removing event handlers leaves every other attribute readable as before. */
  lemma {:induction false} StripHandlersKeeps(attrs: seq<Attr>, n: string)
    requires !StartsWith(n, "on")
    ensures GetAttr(StripHandlers(attrs), n) == GetAttr(attrs, n)
  {
    if attrs != [] {
      StripHandlersKeeps(attrs[1..], n);
      if !IsHandler(attrs[0]) {
        assert StripHandlers(attrs) == [attrs[0]] + StripHandlers(attrs[1..]);
        assert ([attrs[0]] + StripHandlers(attrs[1..]))[1..] == StripHandlers(attrs[1..]);
      }
    }
  }

  /** HTML with no script element and no event handler anywhere. */
  predicate AlreadySafe(ns: seq<DomNode>) {
    forall e :: e in Elements(ns) ==> e.tag != "script" && forall a :: a in e.attrs ==> !IsHandler(a)
  }

  /** Sanitising removes nothing else: HTML without scripts and event handlers comes back unchanged. */
  lemma {:induction false} SanitizeKeepsSafe(ns: seq<DomNode>)
    requires AlreadySafe(ns)
    ensures Sanitize(ns) == ns
    decreases ns
  {
    if ns != [] {
      assert ns == [ns[0]] + ns[1..];
      ElementsCons(ns[0], ns[1..]);
      SanitizeKeepsSafe(ns[1..]);
      match ns[0]
      case Element(tag, attrs, cs) =>
        assert ns[0] in Elements(ns);
        SanitizeKeepsSafe(cs);
        Seqs.FilterAll(attrs, (a: Attr) => !IsHandler(a));
      case _ =>
    }
  }

  lemma NodesTextCons(x: DomNode, rest: seq<DomNode>)
    ensures NodesText([x] + rest) == TextContent(x) + NodesText(rest)
  {
    assert ([x] + rest)[0] == x && ([x] + rest)[1..] == rest;
  }

  /** Outside script elements, sanitising keeps every piece of text, in order. */
  lemma {:induction false} SanitizeKeepsText(ns: seq<DomNode>)
    requires forall e :: e in Elements(ns) ==> e.tag != "script"
    ensures NodesText(Sanitize(ns)) == NodesText(ns)
    decreases ns
  {
    if ns != [] {
      assert ns == [ns[0]] + ns[1..];
      ElementsCons(ns[0], ns[1..]);
      SanitizeKeepsText(ns[1..]);
      var rest := Sanitize(ns[1..]);
      match ns[0]
      case Element(tag, attrs, cs) =>
        assert ns[0] in Elements(ns);
        SanitizeKeepsText(cs);
        NodesTextCons(Element(tag, StripHandlers(attrs), Sanitize(cs)), rest);
      case _ =>
        NodesTextCons(ns[0], rest);
    }
  }

  lemma {:induction false} FilterTwice<T>(xs: seq<T>, p: T -> bool)
    ensures Seqs.Filter(Seqs.Filter(xs, p), p) == Seqs.Filter(xs, p)
  {
    if xs != [] {
      FilterTwice(xs[1..], p);
      if p(xs[0]) {
        var r := Seqs.Filter(xs, p);
        assert r[0] == xs[0] && r[1..] == Seqs.Filter(xs[1..], p);
      }
    }
  }

  /** Sanitising sanitised HTML changes nothing. */
  lemma {:induction false} SanitizeIdempotent(ns: seq<DomNode>)
    ensures Sanitize(Sanitize(ns)) == Sanitize(ns)
    decreases ns
  {
    if ns != [] {
      SanitizeIdempotent(ns[1..]);
      var rest := Sanitize(ns[1..]);
      match ns[0]
      case Element(tag, attrs, cs) =>
        if tag != "script" {
          SanitizeIdempotent(cs);
          FilterTwice(attrs, (a: Attr) => !IsHandler(a));
          var x := Element(tag, StripHandlers(attrs), Sanitize(cs));
          assert ([x] + rest)[0] == x && ([x] + rest)[1..] == rest;
        }
      case _ =>
        assert ([ns[0]] + rest)[0] == ns[0] && ([ns[0]] + rest)[1..] == rest;
    }
  }

  // ----- removeEmptyElements -----

  /** The tags `removeEmptyElements` considers. */
  const EmptyCandidates: set<string> := {"p", "div", "span", "h1", "h2", "h3", "h4", "h5", "h6"}

  /** An element `removeEmptyElements` removes: a listed tag, blank text and no element child. */
  predicate Removable(n: DomNode) {
    n.Element? && n.tag in EmptyCandidates && Trim(TextContent(n)) == [] && FirstElementChild(n.children).None?
  }

  /**
   * `removeEmptyElements`. The pass visits the listed elements in document order, and an
   * element is visited before its descendants and after everything that precedes it, so
   * nothing in its subtree has been removed when it is judged: each element is judged on the
   * original tree, and a removed element takes its (element-free) subtree with it.
   */
  function RemoveEmpty(ns: seq<DomNode>): (r: seq<DomNode>)
    ensures |r| <= |ns|
    decreases ns
  {
    if ns == [] then []
    else if Removable(ns[0]) then RemoveEmpty(ns[1..])
    else [RemoveEmptyIn(ns[0])] + RemoveEmpty(ns[1..])
  }

  function RemoveEmptyIn(n: DomNode): (r: DomNode)
    decreases n
  {
    match n
    case Element(tag, attrs, cs) => Element(tag, attrs, RemoveEmpty(cs))
    case _ => n
  }

  /** What identifies an element apart from its children. */
  function Shape(n: DomNode): (string, seq<Attr>) {
    if n.Element? then (n.tag, n.attrs) else ("", [])
  }

  function Shapes(ns: seq<DomNode>): (r: seq<(string, seq<Attr>)>)
    ensures |r| == |ns|
    ensures forall k :: 0 <= k < |ns| ==> r[k] == Shape(ns[k])
  {
    seq(|ns|, k requires 0 <= k < |ns| => Shape(ns[k]))
  }

  lemma ShapesAppend(a: seq<DomNode>, b: seq<DomNode>)
    ensures Shapes(a + b) == Shapes(a) + Shapes(b)
  {
  }

  predicate Kept(n: DomNode) {
    !Removable(n)
  }

  lemma {:induction false} NoElementsBelow(cs: seq<DomNode>)
    requires FirstElementChild(cs).None?
    ensures Elements(cs) == []
  {
    if cs != [] {
      assert cs[0] in cs;
      assert FirstElementChild(cs[1..]).None?;
      NoElementsBelow(cs[1..]);
    }
  }

  /** Exactly the removable elements disappear: the elements left are the others, in document
      order, with their tags and attributes. */
  lemma {:induction false} RemoveEmptyDropsExactlyRemovable(ns: seq<DomNode>)
    ensures Shapes(Elements(RemoveEmpty(ns))) == Shapes(Seqs.Filter(Elements(ns), Kept))
    decreases ns
  {
    if ns != [] {
      var n := ns[0];
      var rest := ns[1..];
      RemoveEmptyDropsExactlyRemovable(rest);
      ElementsCons(n, rest);
      assert ns == [n] + rest;
      Seqs.FilterAppend(ElementsOf(n), Elements(rest), Kept);
      if Removable(n) {
        NoElementsBelow(n.children);
        assert ElementsOf(n) == [n];
      } else {
        var m := RemoveEmptyIn(n);
        ElementsCons(m, RemoveEmpty(rest));
        ShapesAppend(ElementsOf(m), Elements(RemoveEmpty(rest)));
        ShapesAppend(Seqs.Filter(ElementsOf(n), Kept), Seqs.Filter(Elements(rest), Kept));
        RemoveEmptyInShapes(n);
      }
    }
  }

  lemma {:induction false} RemoveEmptyInShapes(n: DomNode)
    requires !Removable(n)
    ensures Shapes(ElementsOf(RemoveEmptyIn(n))) == Shapes(Seqs.Filter(ElementsOf(n), Kept))
    decreases n
  {
    if n.Element? {
      var cs := n.children;
      RemoveEmptyDropsExactlyRemovable(cs);
      var inner := Elements(RemoveEmpty(cs));
      ShapesAppend([RemoveEmptyIn(n)], inner);
      var all := [n] + Elements(cs);
      assert all[0] == n && all[1..] == Elements(cs);
      ShapesAppend([n], Seqs.Filter(Elements(cs), Kept));
    }
  }

  /** The non-whitespace characters of a text. */
  function Visible(s: string): string {
    Seqs.Filter(s, (c: char) => !IsSpace(c))
  }

  lemma {:induction false} VisibleOfBlank(s: string)
    requires forall i :: 0 <= i < |s| ==> IsSpace(s[i])
    ensures Visible(s) == []
  {
    if s != [] {
      VisibleOfBlank(s[1..]);
    }
  }

  /** Removing empty elements loses no visible text. */
  lemma {:induction false} RemoveEmptyKeepsText(ns: seq<DomNode>)
    ensures Visible(ExtractText(RemoveEmpty(ns))) == Visible(ExtractText(ns))
    decreases ns
  {
    if ns != [] {
      var n := ns[0];
      var rest := ns[1..];
      RemoveEmptyKeepsText(rest);
      Seqs.FilterAppend(TextContent(n), NodesText(rest), (c: char) => !IsSpace(c));
      if Removable(n) {
        TrimSpec(TextContent(n));
        VisibleOfBlank(TextContent(n));
      } else {
        var m := RemoveEmptyIn(n);
        var r := [m] + RemoveEmpty(rest);
        assert r[0] == m && r[1..] == RemoveEmpty(rest);
        Seqs.FilterAppend(TextContent(m), NodesText(RemoveEmpty(rest)), (c: char) => !IsSpace(c));
        if n.Element? {
          RemoveEmptyKeepsText(n.children);
        }
      }
    }
  }

  /** A single pass: a container emptied by the pass stays, and a second pass removes it. */
  lemma RemoveEmptyIsSinglePass()
    ensures var doc := [Element("div", [], [Element("p", [], [])])];
      RemoveEmpty(doc) == [Element("div", [], [])] && RemoveEmpty(RemoveEmpty(doc)) == []
  {
    var p := Element("p", [], []);
    var doc := [Element("div", [], [p])];
    assert Removable(p);
    assert RemoveEmpty([p]) == [];
    assert !Removable(doc[0]);
    assert Removable(Element("div", [], []));
  }

  // ----- wrapContent -----

  /** A character of XML's `NameStartChar` production. */
  predicate NameStartChar(c: char) {
    c == ':' || c == '_' || IsAsciiLetter(c)
    || ('\U{C0}' <= c <= '\U{D6}') || ('\U{D8}' <= c <= '\U{F6}') || ('\U{F8}' <= c <= '\U{2FF}')
    || ('\U{370}' <= c <= '\U{37D}') || ('\U{37F}' <= c <= '\U{1FFF}') || ('\U{200C}' <= c <= '\U{200D}')
    || ('\U{2070}' <= c <= '\U{218F}') || ('\U{2C00}' <= c <= '\U{2FEF}') || ('\U{3001}' <= c <= '\U{D7FF}')
    || ('\U{F900}' <= c <= '\U{FDCF}') || ('\U{FDF0}' <= c <= '\U{FFFD}') || ('\U{10000}' <= c <= '\U{EFFFF}')
  }

  /** A character of XML's `NameChar` production. */
  predicate NameChar(c: char) {
    NameStartChar(c) || c == '-' || c == '.' || IsDigit(c) || c == '\U{B7}'
    || ('\U{300}' <= c <= '\U{36F}') || ('\U{203F}' <= c <= '\U{2040}')
  }

  /** `s` matches XML's `Name` production, the names `createElement` accepts. */
  predicate IsXmlName(s: string) {
    |s| > 0 && NameStartChar(s[0]) && forall i :: 1 <= i < |s| ==> NameChar(s[i])
  }

  const InvalidCharacterError := "InvalidCharacterError"

  /** The local name `document.createElement(tag)` gives in an HTML document: the tag in ASCII
      lower case, or `InvalidCharacterError` when the tag is not an XML name. */
  function CreateElementName(tag: string): (r: Result<string, string>)
    ensures r.Ok? <==> IsXmlName(tag)
    ensures r.Err? ==> r.error == InvalidCharacterError
    ensures r.Ok? ==> EqualsIgnoreCase(r.value, tag) && forall i :: 0 <= i < |r.value| ==> !('A' <= r.value[i] <= 'Z')
  {
    if IsXmlName(tag) then Ok(seq(|tag|, i requires 0 <= i < |tag| => Lower(tag[i])))
    else Err(InvalidCharacterError)
  }

  /** The wrapper `wrapContent` creates with local name `name`; it gets the class only when a
      class name is given. */
  function Wrapper(name: string, className: Option<string>, content: seq<DomNode>): DomNode {
    Element(name, if className.Some? && className.value != [] then [Attr("class", className.value)] else [], content)
  }

  /** `wrapContent`: creates the wrapper, which throws for a tag that is not an XML name, then
      moves the body's children, one at a time and in order, into it; the wrapper becomes the
      body's only child. */
  method WrapContent(doc: seq<DomNode>, tag: string, className: Option<string>) returns (r: Result<seq<DomNode>, string>)
    ensures r.Ok? <==> IsXmlName(tag)
    ensures r.Err? ==> r.error == InvalidCharacterError
    ensures r.Ok? ==> r.value == [Wrapper(CreateElementName(tag).value, className, doc)]
  {
    var name := CreateElementName(tag);
    if name.Err? {
      return Err(name.error);
    }
    var moved: seq<DomNode> := [];
    var body := doc;
    while body != []
      invariant moved + body == doc
      decreases |body|
    {
      moved := moved + [body[0]];
      body := body[1..];
    }
    assert moved + body == moved;
    r := Ok([Wrapper(name.value, className, moved)]);
  }

  /** The wrapper's tag is the given tag up to ASCII case, in lower case, so `DIV` and `div`
      give the same wrapper; a tag with a space or starting with a digit is refused. */
  lemma WrapperTagFolded(tag: string)
    ensures IsXmlName(tag) ==> CreateElementName(tag) == CreateElementName(seq(|tag|, i requires 0 <= i < |tag| => Lower(tag[i])))
    ensures CreateElementName("DIV") == Ok("div")
    ensures CreateElementName("my div").Err? && CreateElementName("1div").Err?
  {
    if IsXmlName(tag) {
      var low := seq(|tag|, i requires 0 <= i < |tag| => Lower(tag[i]));
      assert NameStartChar(low[0]);
      assert forall i :: 1 <= i < |tag| ==> NameChar(low[i]);
      assert IsXmlName(low);
      assert forall i :: 0 <= i < |low| ==> Lower(low[i]) == low[i];
      assert seq(|low|, i requires 0 <= i < |low| => Lower(low[i])) == low;
      assert CreateElementName(tag).value == low;
    }
    assert !NameChar(' ');
    assert !IsXmlName("my div") by { assert "my div"[2] == ' '; }
    assert !NameStartChar('1');
    assert CreateElementName("DIV").value == "div";
  }

  /** Wrapping keeps the text and the elements, now below the wrapper, and the wrapper's class
      is present exactly when a non-empty class name was given. */
  lemma WrapperKeepsContent(tag: string, className: Option<string>, doc: seq<DomNode>)
    ensures var body := [Wrapper(tag, className, doc)];
      && ExtractText(body) == ExtractText(doc)
      && Elements(body) == [body[0]] + Elements(doc)
      && (GetAttr(body[0].attrs, "class").Some? <==> className.Some? && className.value != [])
  {
    var w := Wrapper(tag, className, doc);
    assert [w][0] == w && [w][1..] == [];
    assert ExtractText([w]) == TextContent(w) + NodesText([]);
    assert Elements([w]) == ElementsOf(w) + Elements([]);
  }

  // ----- extractAttributes -----

  function Names(attrs: seq<Attr>): (r: seq<string>)
    ensures |r| == |attrs| && forall k :: 0 <= k < |attrs| ==> r[k] == attrs[k].name
  {
    seq(|attrs|, k requires 0 <= k < |attrs| => attrs[k].name)
  }

  predicate NamesDistinct(attrs: seq<Attr>) {
    forall i, j :: 0 <= i < j < |attrs| ==> attrs[i].name != attrs[j].name
  }

  /** Attribute `i` is the last one with its name among the first `n`. */
  predicate LastBefore(attrs: seq<Attr>, i: nat, n: nat)
    requires i < n <= |attrs|
  {
    forall j :: i < j < n ==> attrs[j].name != attrs[i].name
  }

  /** The attributes of the first element child, or none. */
  function FirstAttrs(doc: seq<DomNode>): seq<Attr> {
    match FirstElementChild(doc)
    case None => []
    case Some(e) => e.attrs
  }

  /** `extractAttributes`: copies the first element's attributes, one `set` at a time, into a map;
      without an element the map is empty. Names are the keys; a repeated name keeps its first
      place and its last value. */
  method ExtractAttributes(doc: seq<DomNode>) returns (m: JsMaps.JsMap<string, string>)
    ensures m.Valid()
    ensures FirstElementChild(doc).None? ==> m.values == map[]
    ensures forall n :: n in m.values <==> n in Names(FirstAttrs(doc))
    ensures var attrs := FirstAttrs(doc);
      forall i :: 0 <= i < |attrs| && LastBefore(attrs, i, |attrs|) ==> m.values[attrs[i].name] == attrs[i].value
    ensures NamesDistinct(FirstAttrs(doc)) ==> m.order == Names(FirstAttrs(doc))
  {
    var attrs := FirstAttrs(doc);
    m := JsMaps.Empty();
    var k := 0;
    while k < |attrs|
      invariant 0 <= k <= |attrs|
      invariant m.Valid()
      invariant forall n :: n in m.values <==> n in Names(attrs[..k])
      invariant forall i :: 0 <= i < k && LastBefore(attrs, i, k) ==> attrs[i].name in m.values && m.values[attrs[i].name] == attrs[i].value
      invariant NamesDistinct(attrs) ==> m.order == Names(attrs[..k])
    {
      assert Names(attrs[..k + 1]) == Names(attrs[..k]) + [attrs[k].name];
      if NamesDistinct(attrs) {
        assert attrs[k].name !in Names(attrs[..k]);
      }
      LastAfterSet(attrs, k, m.values);
      m := m.Set(attrs[k].name, attrs[k].value);
      k := k + 1;
    }
    assert attrs[..k] == attrs;
  }

  /** Setting attribute `k` keeps every value that is the last of its name, and makes `k`'s the last of its own. */
  lemma LastAfterSet(attrs: seq<Attr>, k: nat, values: map<string, string>)
    requires k < |attrs|
    requires forall i :: 0 <= i < k && LastBefore(attrs, i, k) ==> attrs[i].name in values && values[attrs[i].name] == attrs[i].value
    ensures var after := values[attrs[k].name := attrs[k].value];
      forall i :: 0 <= i < k + 1 && LastBefore(attrs, i, k + 1) ==> attrs[i].name in after && after[attrs[i].name] == attrs[i].value
  {
    var after := values[attrs[k].name := attrs[k].value];
    forall i | 0 <= i < k + 1 && LastBefore(attrs, i, k + 1) ensures attrs[i].name in after && after[attrs[i].name] == attrs[i].value {
      if i < k {
        assert LastBefore(attrs, i, k) && attrs[k].name != attrs[i].name;
      }
    }
  }

  /** With distinct names, as a parser produces them, the map answers every lookup as the element does. */
  lemma ExtractedAttributesAgree(attrs: seq<Attr>, m: JsMaps.JsMap<string, string>)
    requires NamesDistinct(attrs)
    requires forall n :: n in m.values <==> n in Names(attrs)
    requires forall i :: 0 <= i < |attrs| && LastBefore(attrs, i, |attrs|) ==> m.values[attrs[i].name] == attrs[i].value
    ensures forall n :: m.Get(n) == GetAttr(attrs, n)
  {
    forall n ensures m.Get(n) == GetAttr(attrs, n) {
      if n in Names(attrs) {
        var i :| 0 <= i < |attrs| && Names(attrs)[i] == n;
        assert attrs[i].name == n;
        var v := GetAttr(attrs, n).value;
        var j :| 0 <= j < |attrs| && attrs[j] == Attr(n, v);
        assert LastBefore(attrs, j, |attrs|);
      }
    }
  }
}
