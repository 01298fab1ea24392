/**
 * The rich-text converter: tables are cut out of the HTML and built by hand as
 * Lexical table nodes, the rest goes through the HTML-to-Lexical converter, the
 * tables are merged back at their placeholders, and pending image uploads are
 * resolved against the map of uploaded media.
 */
module Lexical {
  import opened Wrappers
  import opened Strings
  import opened Json
  import opened Dom
  import opened Types
  import Seqs
  import JsMaps
  import Upload
  import HtmlUtils
  import Constants
  import Urls

  // ----- convertTableToLexicalNode -----

  /** `Number(value || '1')` kept when it is finite and above 1, else 1. */
  function Span(value: Option<string>): (n: nat)
    ensures n >= 1
  {
    match Strings.ToNumber(if value.Some? && value.value != "" then value.value else "1")
    case Some(v) => if v > 1 then v else 1
    case None => 1
  }

  /** A span written as an integer keeps that integer when it is above 1, and is 1 otherwise. */
  lemma SpanOfNumber(n: int)
    ensures Span(Some(IntToString(n))) == if n > 1 then n else 1
  {
    Strings.ToNumberOfInt(n);
  }

  /** The text of a cell: `textContent` with whitespace runs collapsed to one space, trimmed. */
  function CellText(cell: DomNode): string {
    Trim(CollapseSpaces(TextContent(cell)))
  }

  /** Cell text has no leading or trailing whitespace, no two whitespace characters in a row,
      and its only whitespace character is the plain space. */
  lemma CellTextClean(cell: DomNode)
    ensures var t := CellText(cell);
      && (t == [] || (!IsSpace(t[0]) && !IsSpace(t[|t| - 1])))
      && (forall i :: 0 <= i < |t| - 1 ==> !(IsSpace(t[i]) && IsSpace(t[i + 1])))
      && (forall i :: 0 <= i < |t| && IsSpace(t[i]) ==> t[i] == ' ')
  {
    var c := CollapseSpaces(TextContent(cell));
    var t := Trim(c);
    TrimSpec(c);
    ContainsIff(c, t);
    var k: nat :| OccursAt(c, t, k);
    assert forall i :: 0 <= i < |t| ==> t[i] == c[k + i];
  }

  /** A Lexical text node in normal mode without formatting. */
  function TextNode(text: string): (r: LexNode)
    ensures r.Obj? && r.typ == Some("text") && "text" in r.props && r.props["text"] == JStr(text) && !r.hasChildren
  {
    Obj(Some("text"), map["version" := JNum(1), "mode" := JStr("normal"), "style" := JStr(""),
      "detail" := JNum(0), "format" := JNum(0), "text" := JStr(text)], false, [])
  }

  /** The paragraph inside a table cell: no children for empty text, else one text node. */
  function CellParagraph(text: string): (r: LexNode)
    ensures r.Obj? && r.typ == Some("paragraph") && r.hasChildren
    ensures text == [] <==> r.children == []
    ensures text != [] ==> r.children == [TextNode(text)]
  {
    Obj(Some("paragraph"), map["version" := JNum(1), "format" := JStr(""), "indent" := JNum(0),
      "direction" := JNull, "textFormat" := JNum(0), "textStyle" := JStr("")],
      true, if text == [] then [] else [TextNode(text)])
  }

  predicate IsCell(n: DomNode) {
    n.Element? && (n.tag == "td" || n.tag == "th")
  }

  /** A `tablecell` node for a td or th element. */
  function TableCell(cell: DomNode): (r: LexNode)
    requires cell.Element?
    ensures r.Obj? && r.typ == Some("tablecell")
    ensures "headerState" in r.props && (r.props["headerState"] == JNum(1) <==> cell.tag == "th")
    ensures "colSpan" in r.props && r.props["colSpan"].JNum? && r.props["colSpan"].n >= 1
    ensures "rowSpan" in r.props && r.props["rowSpan"].JNum? && r.props["rowSpan"].n >= 1
    ensures r.hasChildren && r.children == [CellParagraph(CellText(cell))]
  {
    Obj(Some("tablecell"), map[
      "version" := JNum(1),
      "headerState" := JNum(if cell.tag == "th" then 1 else 0),
      "colSpan" := JNum(Span(GetAttr(cell.attrs, "colspan"))),
      "rowSpan" := JNum(Span(GetAttr(cell.attrs, "rowspan"))),
      "backgroundColor" := JNull, "width" := JNull, "height" := JNull],
      true, [CellParagraph(CellText(cell))])
  }

  /** The td and th children of a row, in order; other children are skipped. */
  function CellsOf(tr: DomNode): (r: seq<DomNode>)
    ensures forall i :: 0 <= i < |r| ==> IsCell(r[i])
  {
    if tr.Element? then Seqs.Filter(tr.children, IsCell) else []
  }

  /** A `tablerow` node with one cell per td/th child of the row. */
  function TableRow(tr: DomNode): (r: LexNode)
    ensures r.Obj? && r.typ == Some("tablerow") && r.hasChildren
    ensures var cells := CellsOf(tr);
      |r.children| == |cells| && forall i :: 0 <= i < |cells| ==> r.children[i] == TableCell(cells[i])
  {
    var cells := CellsOf(tr);
    Obj(Some("tablerow"), map["version" := JNum(1)],
      true, seq(|cells|, i requires 0 <= i < |cells| => TableCell(cells[i])))
  }

  /** Every `tr` below the table (`querySelectorAll('tr')`), nested tables included. */
  function RowsOf(table: DomNode): seq<DomNode> {
    if table.Element? then WithTag(Elements(table.children), "tr") else []
  }

  /** `convertTableToLexicalNode`: a `table` node with one row per `tr`, in document order. */
  function ConvertTable(table: DomNode): (r: LexNode)
    ensures r.Obj? && r.typ == Some("table") && r.hasChildren
    ensures var rows := RowsOf(table);
      |r.children| == |rows| && forall i :: 0 <= i < |rows| ==> r.children[i] == TableRow(rows[i])
  {
    var rows := RowsOf(table);
    Obj(Some("table"), map["version" := JNum(1)],
      true, seq(|rows|, i requires 0 <= i < |rows| => TableRow(rows[i])))
  }

  // ----- extractTablesFromHTML -----

  /** The tables of a fragment in document order (`querySelectorAll('table')`). */
  function TablesIn(ns: seq<DomNode>): seq<DomNode> {
    WithTag(Elements(ns), "table")
  }

  lemma TablesInCons(ns: seq<DomNode>)
    requires ns != []
    ensures TablesIn(ns) == TablesIn([ns[0]]) + TablesIn(ns[1..])
  {
    assert [ns[0]][1..] == [];
    assert Elements([ns[0]]) == ElementsOf(ns[0]);
    WithTagAppend(ElementsOf(ns[0]), Elements(ns[1..]), "table");
  }

  lemma TablesInElement(n: DomNode)
    requires n.Element?
    ensures TablesIn([n]) == (if n.tag == "table" then [n] else []) + TablesIn(n.children)
  {
    assert [n][1..] == [];
    assert Elements([n]) == ElementsOf(n) == [n] + Elements(n.children);
    assert WithTag([n], "table") == if n.tag == "table" then [n] else [];
    WithTagAppend([n], Elements(n.children), "table");
  }

  /** The marker text of the k-th table. */
  function Placeholder(k: nat): string {
    "__TABLE_PLACEHOLDER_" + NatToString(k) + "__"
  }

  /** Different tables get different placeholders. */
  lemma PlaceholderInjective(i: nat, j: nat)
    requires Placeholder(i) == Placeholder(j)
    ensures i == j
  {
    var a := Placeholder(i);
    var b := Placeholder(j);
    assert NatToString(i) == a[20..|a| - 2];
    assert NatToString(j) == b[20..|b| - 2];
    NatToStringInjective(i, j);
  }

  /** The paragraph put where a table was: `<p data-table-placeholder="P">P</p>`. */
  function PlaceholderParagraph(k: nat): DomNode {
    Element("p", [Attr("data-table-placeholder", Placeholder(k))], [Text(Placeholder(k))])
  }

  /** The offset, among the tables of `ns`, of the first table not below a figure inside `ns`:
      the first table whose `closest('figure')` is the figure holding `ns`, if any. */
  function FirstDirect(ns: seq<DomNode>): Option<nat>
    decreases ns
  {
    if ns == [] then None
    else match FirstDirectIn(ns[0])
      case Some(j) => Some(j)
      case None =>
        match FirstDirect(ns[1..])
        case Some(j) => Some(|TablesIn([ns[0]])| + j)
        case None => None
  }

  function FirstDirectIn(n: DomNode): Option<nat>
    decreases n
  {
    match n
    case Element(tag, _, cs) =>
      if tag == "table" then Some(0) else if tag == "figure" then None else FirstDirect(cs)
    case _ => None
  }

  /**
   * The document after the placeholder loop, where `k` tables come before `ns`. The loop visits
   * the tables in document order and replaces each table's closest figure, or the table itself,
   * while that element is still attached. So a table becomes the placeholder of its own number;
   * a figure becomes the placeholder of the first table whose closest figure it is, and is kept
   * (with its contents rewritten) when it has none. Tables inside an element already replaced
   * are handled in the detached subtree and no longer show.
   */
  function ReplaceTables(ns: seq<DomNode>, k: nat): seq<DomNode>
    decreases ns
  {
    if ns == [] then [] else [ReplaceTablesIn(ns[0], k)] + ReplaceTables(ns[1..], k + |TablesIn([ns[0]])|)
  }

  function ReplaceTablesIn(n: DomNode, k: nat): DomNode
    decreases n
  {
    match n
    case Element(tag, attrs, cs) =>
      if tag == "table" then PlaceholderParagraph(k)
      else if tag == "figure" && FirstDirect(cs).Some? then PlaceholderParagraph(k + FirstDirect(cs).value)
      else Element(tag, attrs, ReplaceTables(cs, k))
    case _ => n
  }

  /** A figure is replaced by the placeholder of one of its own tables. */
  lemma {:induction false} FirstDirectBound(ns: seq<DomNode>)
    ensures FirstDirect(ns).Some? ==> FirstDirect(ns).value < |TablesIn(ns)|
    decreases ns
  {
    if ns != [] {
      TablesInCons(ns);
      FirstDirectInBound(ns[0]);
      FirstDirectBound(ns[1..]);
    }
  }

  lemma {:induction false} FirstDirectInBound(n: DomNode)
    ensures FirstDirectIn(n).Some? ==> FirstDirectIn(n).value < |TablesIn([n])|
    decreases n
  {
    if n.Element? {
      TablesInElement(n);
      if n.tag != "table" && n.tag != "figure" {
        FirstDirectBound(n.children);
      }
    }
  }

  lemma ElementsConsSingle(x: DomNode, rest: seq<DomNode>)
    ensures Elements([x] + rest) == ElementsOf(x) + Elements(rest)
  {
    assert ([x] + rest)[0] == x && ([x] + rest)[1..] == rest;
  }

  lemma PlaceholderParagraphHasNoTable(k: nat)
    ensures forall e :: e in ElementsOf(PlaceholderParagraph(k)) ==> e.tag != "table"
  {
    assert Elements([Text(Placeholder(k))]) == [];
  }

  /** No table is left in the document after the placeholder loop. */
  lemma {:induction false} NoTableLeft(ns: seq<DomNode>, k: nat)
    ensures forall e :: e in Elements(ReplaceTables(ns, k)) ==> e.tag != "table"
    decreases ns
  {
    if ns != [] {
      ElementsConsSingle(ReplaceTablesIn(ns[0], k), ReplaceTables(ns[1..], k + |TablesIn([ns[0]])|));
      NoTableLeftIn(ns[0], k);
      NoTableLeft(ns[1..], k + |TablesIn([ns[0]])|);
    }
  }

  lemma {:induction false} NoTableLeftIn(n: DomNode, k: nat)
    ensures forall e :: e in ElementsOf(ReplaceTablesIn(n, k)) ==> e.tag != "table"
    decreases n
  {
    match n
    case Element(tag, attrs, cs) =>
      if tag == "table" {
        PlaceholderParagraphHasNoTable(k);
      } else if tag == "figure" && FirstDirect(cs).Some? {
        PlaceholderParagraphHasNoTable(k + FirstDirect(cs).value);
      } else {
        NoTableLeft(cs, k);
      }
    case _ =>
  }

  /** Without tables the document is left as it is. */
  lemma {:induction false} NoTablesUntouched(ns: seq<DomNode>, k: nat)
    requires TablesIn(ns) == []
    ensures ReplaceTables(ns, k) == ns
    decreases ns
  {
    if ns != [] {
      TablesInCons(ns);
      NoTablesUntouchedIn(ns[0], k);
      NoTablesUntouched(ns[1..], k);
    }
  }

  lemma {:induction false} NoTablesUntouchedIn(n: DomNode, k: nat)
    requires TablesIn([n]) == []
    ensures ReplaceTablesIn(n, k) == n
    decreases n
  {
    if n.Element? {
      TablesInElement(n);
      FirstDirectBound(n.children);
      NoTablesUntouched(n.children, k);
    }
  }

  /** A table cut out of the HTML, the marker left in its place, and its position. */
  datatype TablePlaceholder = TablePlaceholder(placeholder: string, node: LexNode, index: nat)

  /** The k-th table of the document, built by hand, under the k-th placeholder. */
  function TableNodes(doc: seq<DomNode>): (r: seq<TablePlaceholder>)
    ensures |r| == |TablesIn(doc)|
  {
    Placed(TablesIn(doc))
  }

  /** The k-th of `tables` converted under the k-th placeholder. */
  function Placed(tables: seq<DomNode>): (r: seq<TablePlaceholder>)
    ensures |r| == |tables|
    ensures forall k :: 0 <= k < |tables| ==> r[k] == TablePlaceholder(Placeholder(k), ConvertTable(tables[k]), k)
  {
    seq(|tables|, k requires 0 <= k < |tables| => TablePlaceholder(Placeholder(k), ConvertTable(tables[k]), k))
  }

  /** The table nodes carry pairwise different placeholders, in the order of their indices. */
  lemma TableNodesDistinct(doc: seq<DomNode>)
    ensures var r := TableNodes(doc);
      forall i, j :: 0 <= i < j < |r| ==> r[i].placeholder != r[j].placeholder && r[i].index < r[j].index
  {
    var r := TableNodes(doc);
    forall i, j | 0 <= i < j < |r| ensures r[i].placeholder != r[j].placeholder {
      if r[i].placeholder == r[j].placeholder {
        PlaceholderInjective(i, j);
      }
    }
  }

  /** The HTML `extractTablesFromHTML` returns: the input itself when it has no table. */
  function HtmlWithoutTables(parseHtml: string -> seq<DomNode>, serializeHtml: seq<DomNode> -> string, html: string): string {
    var doc := parseHtml(html);
    if TablesIn(doc) == [] then html else serializeHtml(ReplaceTables(doc, 0))
  }

  /** The loop of `extractTablesFromHTML`: the k-th table converted under the k-th placeholder. */
  /** One more table placed adds its entry at the end. */
  lemma PlacedSnoc(tables: seq<DomNode>, index: nat)
    requires index < |tables|
    ensures Placed(tables)[..index + 1] == Placed(tables)[..index] + [TablePlaceholder(Placeholder(index), ConvertTable(tables[index]), index)]
  {
    Seqs.TakeSnoc(Placed(tables), index);
  }

  method PlaceTables(tables: seq<DomNode>) returns (tableNodes: seq<TablePlaceholder>)
    ensures tableNodes == Placed(tables)
  {
    tableNodes := [];
    var placeholderCounter := 0;
    var index := 0;
    while index < |tables|
      invariant 0 <= index <= |tables| && placeholderCounter == index
      invariant tableNodes == Placed(tables)[..index]
    {
      var placeholder := Placeholder(placeholderCounter);
      placeholderCounter := placeholderCounter + 1;
      var tableNode := ConvertTable(tables[index]);
      PlacedSnoc(tables, index);
      tableNodes := tableNodes + [TablePlaceholder(placeholder, tableNode, index)];
      index := index + 1;
    }
    assert Placed(tables)[..index] == Placed(tables);
  }

  /** `extractTablesFromHTML`. The closing sort by index leaves the list as it is, since the
      loop appends in index order. */
  method ExtractTablesFromHtml(parseHtml: string -> seq<DomNode>, serializeHtml: seq<DomNode> -> string, html: string)
    returns (htmlWithoutTables: string, tableNodes: seq<TablePlaceholder>)
    ensures htmlWithoutTables == HtmlWithoutTables(parseHtml, serializeHtml, html)
    ensures tableNodes == TableNodes(parseHtml(html))
  {
    var doc := parseHtml(html);
    var tables := TablesIn(doc);
    if |tables| == 0 {
      return html, [];
    }
    tableNodes := PlaceTables(tables);
    htmlWithoutTables := serializeHtml(ReplaceTables(doc, 0));
  }

  // ----- findPlaceholderInNode -----

  /** The first placeholder of the list that occurs in `text`. */
  function FirstContained(text: string, placeholders: seq<string>): (r: Option<string>)
    ensures r.Some? ==> r.value in placeholders && Contains(text, r.value)
    ensures r.None? <==> forall p :: p in placeholders ==> !Contains(text, p)
  {
    if placeholders == [] then None
    else if Contains(text, placeholders[0]) then Some(placeholders[0])
    else FirstContained(text, placeholders[1..])
  }

  /** The `text` of a `text` node, when it is a string. */
  function OwnText(n: LexNode): Option<string> {
    if n.Obj? && n.typ == Some("text") && "text" in n.props && n.props["text"].JStr? then Some(n.props["text"].s)
    else None
  }

  /** A search result the caller accepts: `if (found)` turns down null and ''. */
  predicate Found(r: Option<string>) {
    r.Some? && r.value != ""
  }

  /** `findPlaceholderInNode`: a text node answers with the first placeholder its text contains,
      any other object with the first accepted answer among its children. */
  function FindPlaceholder(n: LexNode, placeholders: seq<string>): (r: Option<string>)
    ensures r.Some? ==> r.value in placeholders
    decreases n, 1
  {
    match n
    case Value(_) => None
    case Obj(_, _, hasChildren, children) =>
      var own := if OwnText(n).Some? then FirstContained(OwnText(n).value, placeholders) else None;
      if own.Some? then own
      else if hasChildren then FindInChildren(children, placeholders)
      else None
  }

  function FindInChildren(cs: seq<LexNode>, placeholders: seq<string>): (r: Option<string>)
    ensures r.Some? ==> r.value in placeholders && Found(r)
    decreases cs, 0
  {
    if cs == [] then None
    else
      var found := FindPlaceholder(cs[0], placeholders);
      if Found(found) then found else FindInChildren(cs[1..], placeholders)
  }

  /** The strings of the text nodes of a tree, in pre-order. */
  function Texts(n: LexNode): seq<string>
    decreases n, 1
  {
    match n
    case Value(_) => []
    case Obj(_, _, hasChildren, children) =>
      (if OwnText(n).Some? then [OwnText(n).value] else [])
      + (if hasChildren then TextsOf(children) else [])
  }

  function TextsOf(cs: seq<LexNode>): seq<string>
    decreases cs, 0
  {
    if cs == [] then [] else Texts(cs[0]) + TextsOf(cs[1..])
  }

  /** The placeholder found in the first text that contains one. */
  function FirstHit(texts: seq<string>, placeholders: seq<string>): (r: Option<string>)
    ensures r.Some? ==> r.value in placeholders
    ensures r.None? <==> forall t, p :: t in texts && p in placeholders ==> !Contains(t, p)
  {
    if texts == [] then None
    else match FirstContained(texts[0], placeholders)
      case Some(p) => Some(p)
      case None => FirstHit(texts[1..], placeholders)
  }

  lemma {:induction false} FirstHitAppend(a: seq<string>, b: seq<string>, placeholders: seq<string>)
    ensures FirstHit(a + b, placeholders) == if FirstHit(a, placeholders).Some? then FirstHit(a, placeholders) else FirstHit(b, placeholders)
  {
    if a == [] {
      assert a + b == b;
    } else {
      assert (a + b)[0] == a[0] && (a + b)[1..] == a[1..] + b;
      FirstHitAppend(a[1..], b, placeholders);
    }
  }

  /** With non-empty placeholders, the search answers with the placeholder of the first text
      node, in pre-order, whose text contains one, and with nothing when there is none. */
  lemma {:induction false} FindPlaceholderIsFirstHit(n: LexNode, placeholders: seq<string>)
    requires forall p :: p in placeholders ==> p != ""
    ensures FindPlaceholder(n, placeholders) == FirstHit(Texts(n), placeholders)
    decreases n, 1
  {
    match n
    case Value(_) =>
    case Obj(_, _, hasChildren, children) =>
      var own := if OwnText(n).Some? then [OwnText(n).value] else [];
      var below := if hasChildren then TextsOf(children) else [];
      FirstHitAppend(own, below, placeholders);
      if own != [] {
        assert own[1..] == [];
      }
      if hasChildren {
        FindInChildrenIsFirstHit(children, placeholders);
      }
  }

  lemma {:induction false} FindInChildrenIsFirstHit(cs: seq<LexNode>, placeholders: seq<string>)
    requires forall p :: p in placeholders ==> p != ""
    ensures FindInChildren(cs, placeholders) == FirstHit(TextsOf(cs), placeholders)
    decreases cs, 0
  {
    if cs != [] {
      FindPlaceholderIsFirstHit(cs[0], placeholders);
      FindInChildrenIsFirstHit(cs[1..], placeholders);
      FirstHitAppend(Texts(cs[0]), TextsOf(cs[1..]), placeholders);
    }
  }

  /** Every placeholder is non-empty. */
  lemma PlaceholdersNonEmpty(tns: seq<TablePlaceholder>, doc: seq<DomNode>)
    requires tns == TableNodes(doc)
    ensures forall p :: p in Placeholders(tns) ==> p != ""
  {
  }

  // ----- mergeTablesIntoLexical -----

  /** JavaScript truthiness of a node: objects are truthy, scalars as JSON values are. */
  predicate LexTruthy(n: LexNode) {
    n.Obj? || Truthy(n.v)
  }

  function Placeholders(tns: seq<TablePlaceholder>): (r: seq<string>)
    ensures |r| == |tns| && forall i :: 0 <= i < |tns| ==> r[i] == tns[i].placeholder
  {
    seq(|tns|, i requires 0 <= i < |tns| => tns[i].placeholder)
  }

  /** `tableNodes.find(tn => tn.placeholder === p)`. */
  function TableFor(tns: seq<TablePlaceholder>, p: string): (r: Option<TablePlaceholder>)
    ensures r.Some? ==> r.value in tns && r.value.placeholder == p
    ensures r.None? <==> forall t :: t in tns ==> t.placeholder != p
  {
    if tns == [] then None
    else if tns[0].placeholder == p then Some(tns[0])
    else TableFor(tns[1..], p)
  }

  /** `mergeTablesIntoLexical`: the children of an object are merged one by one; scalars and
      objects without a children array come back as they are. */
  function MergeTables(n: LexNode, tns: seq<TablePlaceholder>): (r: LexNode)
    ensures r.Obj? == n.Obj?
    decreases n, 1
  {
    match n
    case Obj(typ, props, hasChildren, cs) =>
      if hasChildren then Obj(typ, props, true, MergeChildren(cs, tns)) else n
    case _ => n
  }

  /** What takes the place of one child: the table node of the placeholder the child holds,
      or else the child with its own children merged. */
  function MergeChild(c: LexNode, tns: seq<TablePlaceholder>): LexNode
    decreases c, 2
  {
    var found := FindPlaceholder(c, Placeholders(tns));
    if Found(found) && TableFor(tns, found.value).Some? then TableFor(tns, found.value).value.node
    else MergeTables(c, tns)
  }

  /** The merged children. The source keeps a merged child when it is truthy; a scalar holds no
      placeholder and merges to itself, and an object stays an object, so that is the same as
      keeping the truthy children. */
  function MergeChildren(cs: seq<LexNode>, tns: seq<TablePlaceholder>): seq<LexNode>
    decreases cs, 0
  {
    if cs == [] then []
    else (if LexTruthy(cs[0]) then [MergeChild(cs[0], tns)] else []) + MergeChildren(cs[1..], tns)
  }

  /** A child holding a placeholder is replaced by the table node carrying that placeholder. */
  lemma MergeChildTakesTable(c: LexNode, tns: seq<TablePlaceholder>)
    requires Found(FindPlaceholder(c, Placeholders(tns)))
    ensures exists k :: (0 <= k < |tns| && tns[k].placeholder == FindPlaceholder(c, Placeholders(tns)).value
      && MergeChild(c, tns) == tns[k].node)
  {
    var p := FindPlaceholder(c, Placeholders(tns)).value;
    var i :| 0 <= i < |tns| && Placeholders(tns)[i] == p;
    assert tns[i] in tns;
    var t := TableFor(tns, p).value;
    var k :| 0 <= k < |tns| && tns[k] == t;
  }

  /** Merging keeps one child for each truthy child, in order, and drops the falsy scalars. */
  lemma {:induction false} MergeChildrenKeepsCount(cs: seq<LexNode>, tns: seq<TablePlaceholder>)
    ensures var kept := Seqs.Filter(cs, LexTruthy); var r := MergeChildren(cs, tns);
      |r| == |kept| && forall i :: 0 <= i < |kept| ==> r[i] == MergeChild(kept[i], tns)
    decreases cs
  {
    if cs != [] {
      MergeChildrenKeepsCount(cs[1..], tns);
    }
  }

  /** Every node, at any depth, has only truthy children. */
  predicate NoFalsyChildren(n: LexNode)
    decreases n, 1
  {
    n.Obj? && n.hasChildren ==> AllTruthy(n.children)
  }

  predicate AllTruthy(cs: seq<LexNode>)
    decreases cs, 0
  {
    cs != [] ==> LexTruthy(cs[0]) && NoFalsyChildren(cs[0]) && AllTruthy(cs[1..])
  }

  /** With no table nodes a tree without falsy children comes back unchanged. */
  lemma {:induction false} MergeWithoutTables(n: LexNode)
    requires NoFalsyChildren(n)
    ensures MergeTables(n, []) == n
    decreases n, 1
  {
    if n.Obj? && n.hasChildren {
      MergeChildrenWithoutTables(n.children);
    }
  }

  lemma {:induction false} MergeChildrenWithoutTables(cs: seq<LexNode>)
    requires AllTruthy(cs)
    ensures MergeChildren(cs, []) == cs
    decreases cs, 0
  {
    if cs != [] {
      MergeWithoutTables(cs[0]);
      MergeChildrenWithoutTables(cs[1..]);
    }
  }

  // ----- replacePendingUploads -----

  /** `pending.src`, when it is a string. */
  function PendingSrc(pending: Json): Option<string> {
    if pending.JObj? && "src" in pending.fields && pending.fields["src"].JStr? then Some(pending.fields["src"].s) else None
  }

  /** An `upload` node the converter left with a truthy `pending` record. */
  predicate IsPendingUpload(n: LexNode) {
    n.Obj? && n.typ == Some("upload") && "pending" in n.props && Truthy(n.props["pending"])
  }

  /** A resolved upload node: version 3, related to the `media` collection, holding the media id. */
  function UploadNode(id: Json, mediaId: int): (r: LexNode)
    ensures IsUploadOf(r, mediaId) && !IsPendingUpload(r) && !r.hasChildren
  {
    Obj(Some("upload"), map["version" := JNum(3), "format" := JStr(""), "id" := id, "fields" := JNull,
      "relationTo" := JStr("media"), "value" := JNum(mediaId)], false, [])
  }

  /** `r` is a version 3 upload node of the `media` collection holding `mediaId`. */
  predicate IsUploadOf(r: LexNode, mediaId: int) {
    && r.Obj? && r.typ == Some("upload")
    && "value" in r.props && r.props["value"] == JNum(mediaId)
    && "relationTo" in r.props && r.props["relationTo"] == JStr("media")
    && "version" in r.props && r.props["version"] == JNum(3)
  }

  /** The empty paragraph that takes the place of an image that was not uploaded. */
  const EmptyParagraph: LexNode :=
    Obj(Some("paragraph"), map["version" := JNum(1), "direction" := JNull, "format" := JStr(""),
      "indent" := JNum(0), "textFormat" := JNum(0), "textStyle" := JStr("")], true, [])

  /** The media id an upload node resolves to: `mediaIdOf` looks the pending `src` up, and
      only a truthy (non-zero) id counts. */
  function ResolvedId(n: LexNode, mediaIdOf: Option<string> -> Option<int>): Option<int>
    requires IsPendingUpload(n)
  {
    var m := mediaIdOf(PendingSrc(n.props["pending"]));
    if m.Some? && m.value != 0 then m else None
  }

  /**
   * `replacePendingUploads`. A pending upload becomes an upload node holding its media id, or an
   * empty paragraph when there is none; elsewhere the children are processed and the null ones
   * dropped. `generated` stands for the `upload-<time>-<random>` id given to a node without one.
   */
  function ReplacePending(n: LexNode, mediaIdOf: Option<string> -> Option<int>, generated: string): (r: LexNode)
    ensures IsPendingUpload(n) && ResolvedId(n, mediaIdOf).Some? ==> IsUploadOf(r, ResolvedId(n, mediaIdOf).value)
    ensures IsPendingUpload(n) && ResolvedId(n, mediaIdOf).None? ==> r == EmptyParagraph
    ensures !IsPendingUpload(n) ==> r.Obj? == n.Obj? && (r.Obj? ==> r.typ == n.typ && r.props == n.props)
    decreases n, 1
  {
    match n
    case Value(_) => n
    case Obj(typ, props, hasChildren, children) =>
      if IsPendingUpload(n) then
        match ResolvedId(n, mediaIdOf)
        case Some(id) =>
          UploadNode(if "id" in props && Truthy(props["id"]) then props["id"] else JStr(generated), id)
        case None => EmptyParagraph
      else if hasChildren then Obj(typ, props, true, ReplacePendingChildren(children, mediaIdOf, generated))
      else n
  }

  function ReplacePendingChildren(cs: seq<LexNode>, mediaIdOf: Option<string> -> Option<int>, generated: string): seq<LexNode>
    decreases cs, 0
  {
    if cs == [] then []
    else
      var c := ReplacePending(cs[0], mediaIdOf, generated);
      (if c == Value(JNull) then [] else [c]) + ReplacePendingChildren(cs[1..], mediaIdOf, generated)
  }

  /** No pending upload and no null child anywhere in the tree. */
  predicate Settled(n: LexNode)
    decreases n, 1
  {
    !IsPendingUpload(n) && (n.Obj? && n.hasChildren ==> AllSettled(n.children))
  }

  predicate AllSettled(cs: seq<LexNode>)
    decreases cs, 0
  {
    cs != [] ==> cs[0] != Value(JNull) && Settled(cs[0]) && AllSettled(cs[1..])
  }

  /** After the pass no pending upload is left and no node has a null child. */
  lemma {:induction false} ReplacePendingSettles(n: LexNode, mediaIdOf: Option<string> -> Option<int>, generated: string)
    ensures Settled(ReplacePending(n, mediaIdOf, generated))
    decreases n, 1
  {
    if n.Obj? && !IsPendingUpload(n) && n.hasChildren {
      ReplacePendingChildrenSettle(n.children, mediaIdOf, generated);
    }
  }

  lemma {:induction false} ReplacePendingChildrenSettle(cs: seq<LexNode>, mediaIdOf: Option<string> -> Option<int>, generated: string)
    ensures AllSettled(ReplacePendingChildren(cs, mediaIdOf, generated))
    decreases cs, 0
  {
    if cs != [] {
      ReplacePendingSettles(cs[0], mediaIdOf, generated);
      ReplacePendingChildrenSettle(cs[1..], mediaIdOf, generated);
      var c := ReplacePending(cs[0], mediaIdOf, generated);
      var rest := ReplacePendingChildren(cs[1..], mediaIdOf, generated);
      if c != Value(JNull) {
        assert ReplacePendingChildren(cs, mediaIdOf, generated) == [c] + rest;
        assert ([c] + rest)[0] == c && ([c] + rest)[1..] == rest;
      } else {
        assert ReplacePendingChildren(cs, mediaIdOf, generated) == [] + rest == rest;
      }
    }
  }

  /** A settled tree is left as it is. */
  lemma {:induction false} ReplacePendingKeepsSettled(n: LexNode, mediaIdOf: Option<string> -> Option<int>, generated: string)
    requires Settled(n)
    ensures ReplacePending(n, mediaIdOf, generated) == n
    decreases n, 1
  {
    if n.Obj? && n.hasChildren {
      ReplacePendingChildrenKeepSettled(n.children, mediaIdOf, generated);
    }
  }

  lemma {:induction false} ReplacePendingChildrenKeepSettled(cs: seq<LexNode>, mediaIdOf: Option<string> -> Option<int>, generated: string)
    requires AllSettled(cs)
    ensures ReplacePendingChildren(cs, mediaIdOf, generated) == cs
    decreases cs, 0
  {
    if cs != [] {
      ReplacePendingKeepsSettled(cs[0], mediaIdOf, generated);
      ReplacePendingChildrenKeepSettled(cs[1..], mediaIdOf, generated);
      assert [cs[0]] + cs[1..] == cs;
    }
  }

  /** Running the pass twice gives what running it once gives. */
  lemma ReplacePendingIdempotent(n: LexNode, mediaIdOf: Option<string> -> Option<int>, generated: string)
    ensures var once := ReplacePending(n, mediaIdOf, generated);
      ReplacePending(once, mediaIdOf, generated) == once
  {
    ReplacePendingSettles(n, mediaIdOf, generated);
    ReplacePendingKeepsSettled(ReplacePending(n, mediaIdOf, generated), mediaIdOf, generated);
  }

  // ----- convertToLexical -----

  /** The key under which the map of uploaded media is filled: the normalized image URL. */
  function MediaKey(src: string): string {
    Upload.NormalizeImageUrl(src)
  }

  /** The key `convertToLexical` looks an image up under, as written: the first `.wpcomstaging`
      anywhere in the URL cut out. */
  function MediaKeyAsWritten(src: string): string {
    ReplaceFirst(src, Constants.StagingSuffix, "")
  }

  /** `imageMap.get(key(src) || '')` for the `src` of a pending upload. */
  function PendingLookup(imageMap: JsMaps.JsMap<string, int>, key: string -> string): Option<string> -> Option<int> {
    (src: Option<string>) => imageMap.Get(if src.Some? then key(src.value) else "")
  }

  /** The attributes of one element after the image pass: an `img` whose non-empty `src` maps
      to a truthy media id gets `data-media-id`; nothing else changes. */
  function MarkImage(imageMap: JsMaps.JsMap<string, int>, key: string -> string, tag: string, attrs: seq<Attr>): (r: seq<Attr>)
    ensures forall n :: n != "data-media-id" ==> GetAttr(r, n) == GetAttr(attrs, n)
    ensures var src := GetAttr(attrs, "src");
      if tag == "img" && src.Some? && src.value != "" && imageMap.Get(key(src.value)).Some? && imageMap.Get(key(src.value)).value != 0
      then GetAttr(r, "data-media-id") == Some(IntToString(imageMap.Get(key(src.value)).value))
      else r == attrs
  {
    var src := GetAttr(attrs, "src");
    if tag == "img" && src.Some? && src.value != "" then
      match imageMap.Get(key(src.value))
      case Some(id) => if id != 0 then SetAttr(attrs, "data-media-id", IntToString(id)) else attrs
      case None => attrs
    else attrs
  }

  /** The image pass of `convertToLexical` over the whole document. */
  function MarkMediaIds(doc: seq<DomNode>, imageMap: JsMaps.JsMap<string, int>, key: string -> string): (r: seq<DomNode>)
    ensures var es := Elements(doc); var rs := Elements(r);
      |rs| == |es| && forall i :: 0 <= i < |es| ==> rs[i].tag == es[i].tag && rs[i].attrs == MarkImage(imageMap, key, es[i].tag, es[i].attrs)
  {
    var f := (tag: string, attrs: seq<Attr>) => MarkImage(imageMap, key, tag, attrs);
    MapAttrsElements(doc, f);
    MapAttrs(doc, f)
  }

  /** What `convertHTMLToLexical` hands back: a non-object, or an object with or without `root`. */
  datatype ConverterOutput = NotAnObject | Document(root: Option<LexNode>)

  /** The HTML given to the converter: tables cut out, images marked, WordPress markup cleaned. */
  function ConverterInput(parseHtml: string -> seq<DomNode>, serializeHtml: seq<DomNode> -> string,
                          imageMap: JsMaps.JsMap<string, int>, html: string): string
  {
    var withoutTables := HtmlWithoutTables(parseHtml, serializeHtml, html);
    var marked := serializeHtml(MarkMediaIds(parseHtml(withoutTables), imageMap, MediaKey));
    serializeHtml(HtmlUtils.CleanHtml(parseHtml(marked)))
  }

  function LexNodes(cs: seq<LexNode>): (r: seq<ConvertedNode>)
    ensures |r| == |cs| && forall i :: 0 <= i < |cs| ==> r[i] == Lex(cs[i])
  {
    seq(|cs|, i requires 0 <= i < |cs| => Lex(cs[i]))
  }

  /** `processedNodes.children || []`. */
  function ChildrenOf(n: LexNode): seq<ConvertedNode> {
    if n.Obj? && n.hasChildren then LexNodes(n.children) else []
  }

  /** The outcome of `convertToLexical` for the HTML of a chunk. */
  function LexicalResult(html: string, imageMap: JsMaps.JsMap<string, int>, parseHtml: string -> seq<DomNode>,
                         serializeHtml: seq<DomNode> -> string, converter: string -> ConverterOutput, generated: string): (r: ConversionResult)
    ensures r.warnings == []
    ensures r.success <==> r.errors == []
    ensures !r.success ==> r.nodes == [] && |r.errors| == 1
    ensures forall i :: 0 <= i < |r.nodes| ==> r.nodes[i].Lex?
  {
    match converter(ConverterInput(parseHtml, serializeHtml, imageMap, html))
    case NotAnObject => Failure("Invalid lexical JSON returned from converter", [])
    case Document(root) =>
      if root.None? || !LexTruthy(root.value) then Failure("Lexical JSON missing root property", [])
      else
        var merged := MergeTables(root.value, TableNodes(parseHtml(html)));
        var processed := ReplacePending(merged, PendingLookup(imageMap, MediaKey), generated);
        ConversionResult(ChildrenOf(processed), [], [], true)
  }

  /** `convertToLexical`. The converter, the HTML parser and serializer are parameters; the
      editor configuration is not modelled. */
  method ConvertToLexical(chunk: WPChunk, imageMap: JsMaps.JsMap<string, int>, parseHtml: string -> seq<DomNode>,
                          serializeHtml: seq<DomNode> -> string, converter: string -> ConverterOutput, generated: string)
    returns (result: ConversionResult)
    ensures result == LexicalResult(chunk.html, imageMap, parseHtml, serializeHtml, converter, generated)
    ensures result.warnings == []
    ensures result.success <==> result.errors == []
    ensures !result.success ==> result.nodes == [] && |result.errors| == 1
    ensures forall i :: 0 <= i < |result.nodes| ==> result.nodes[i].Lex?
  {
    var htmlWithoutTables, tableNodes := ExtractTablesFromHtml(parseHtml, serializeHtml, chunk.html);
    var processedHtml := serializeHtml(MarkMediaIds(parseHtml(htmlWithoutTables), imageMap, MediaKey));
    processedHtml := serializeHtml(HtmlUtils.CleanHtml(parseHtml(processedHtml)));
    var lexicalJson := converter(processedHtml);
    if lexicalJson.NotAnObject? {
      return Failure("Invalid lexical JSON returned from converter", []);
    }
    if lexicalJson.root.None? || !LexTruthy(lexicalJson.root.value) {
      return Failure("Lexical JSON missing root property", []);
    }
    var lexicalWithTables := MergeTables(lexicalJson.root.value, tableNodes);
    var processedNodes := ReplacePending(lexicalWithTables, PendingLookup(imageMap, MediaKey), generated);
    result := ConversionResult(ChildrenOf(processedNodes), [], [], true);
  }

  /** HTML without tables whose converted root has no pending upload and no falsy child comes
      back as the root's children, unchanged. */
  lemma LexicalResultPlain(html: string, imageMap: JsMaps.JsMap<string, int>, parseHtml: string -> seq<DomNode>,
                           serializeHtml: seq<DomNode> -> string, converter: string -> ConverterOutput, generated: string)
    requires TablesIn(parseHtml(html)) == []
    requires var out := converter(ConverterInput(parseHtml, serializeHtml, imageMap, html));
      out.Document? && out.root.Some? && out.root.value.Obj? && out.root.value.hasChildren
      && Settled(out.root.value) && NoFalsyChildren(out.root.value)
    ensures var root := converter(ConverterInput(parseHtml, serializeHtml, imageMap, html)).root.value;
      LexicalResult(html, imageMap, parseHtml, serializeHtml, converter, generated)
        == ConversionResult(LexNodes(root.children), [], [], true)
  {
    var root := converter(ConverterInput(parseHtml, serializeHtml, imageMap, html)).root.value;
    assert TableNodes(parseHtml(html)) == [];
    MergeWithoutTables(root);
    ReplacePendingKeepsSettled(root, PendingLookup(imageMap, MediaKey), generated);
  }

  /** When `.wpcomstaging` occurs in the path of a URL but not in its host, the key as written
      differs from the normalized key, which is the URL itself. */
  lemma PathStagingKeysDiffer(u: Urls.Url)
    requires Urls.WellFormed(u)
    requires !Contains(u.host, Constants.StagingSuffix) && Contains(u.path, Constants.StagingSuffix)
    ensures MediaKey(Urls.Serialize(u)) == Urls.Serialize(u)
    ensures MediaKeyAsWritten(Urls.Serialize(u)) != Urls.Serialize(u)
  {
    var s := Urls.Serialize(u);
    Urls.SerializeThenParse(u);
    StripStagingKeeps(u.host);
    assert u.(host := Upload.StripStaging(u.host)) == u;
    PathInSerialized(u, Constants.StagingSuffix);
  }

  lemma StripStagingKeeps(host: string)
    requires host != [] && !Contains(host, Constants.StagingSuffix)
    ensures Upload.StripStaging(host) == host
  {
  }

  lemma PathInSerialized(u: Urls.Url, p: string)
    ensures Contains(u.path, p) ==> Contains(Urls.Serialize(u), p)
  {
    var a := u.scheme + "://" + u.userinfo + u.host;
    assert Urls.Serialize(u) == a + u.path + u.suffix;
    ContainsInfix(a, u.path, u.suffix, p);
  }

  /**
   * The lookup as written misses an uploaded image whose path, not its host, holds
   * `.wpcomstaging`: the map has the image under its URL, the pending node is turned into an
   * empty paragraph. With the normalized key it resolves to its media id.
   */
  lemma {:induction false} PendingKeyAsWrittenDropsUploadedImage(u: Urls.Url)
    requires Urls.WellFormed(u)
    requires !Contains(u.host, Constants.StagingSuffix) && Contains(u.path, Constants.StagingSuffix)
    ensures var src := Urls.Serialize(u);
      var imageMap := JsMaps.Empty<string, int>().Set(MediaKey(src), 7);
      var n := Obj(Some("upload"), map["pending" := JObj(map["src" := JStr(src)])], false, []);
      && ReplacePending(n, PendingLookup(imageMap, MediaKeyAsWritten), "") == EmptyParagraph
      && IsUploadOf(ReplacePending(n, PendingLookup(imageMap, MediaKey), ""), 7)
  {
    var src := Urls.Serialize(u);
    var imageMap := JsMaps.Empty<string, int>().Set(MediaKey(src), 7);
    PathStagingKeysLookUp(u);
    PendingNodeReplaced(src, PendingLookup(imageMap, MediaKeyAsWritten));
    PendingNodeReplaced(src, PendingLookup(imageMap, MediaKey));
  }

  /**
   * The image pass as written skips the same image: keyed by `src.replace('.wpcomstaging', '')`
   * it finds nothing in the map and leaves the `img` unmarked, while keyed by the normalized URL
   * it gets `data-media-id`.
   */
  lemma {:induction false} MarkKeyAsWrittenSkipsUploadedImage(u: Urls.Url)
    requires Urls.WellFormed(u)
    requires !Contains(u.host, Constants.StagingSuffix) && Contains(u.path, Constants.StagingSuffix)
    ensures var src := Urls.Serialize(u);
      var imageMap := JsMaps.Empty<string, int>().Set(MediaKey(src), 7);
      && MarkImage(imageMap, MediaKeyAsWritten, "img", [Attr("src", src)]) == [Attr("src", src)]
      && GetAttr(MarkImage(imageMap, MediaKey, "img", [Attr("src", src)]), "data-media-id") == Some(IntToString(7))
  {
    var src := Urls.Serialize(u);
    var imageMap := JsMaps.Empty<string, int>().Set(MediaKey(src), 7);
    PathStagingKeysLookUp(u);
    assert imageMap.Get(MediaKeyAsWritten(src)) == PendingLookup(imageMap, MediaKeyAsWritten)(Some(src));
    assert imageMap.Get(MediaKey(src)) == PendingLookup(imageMap, MediaKey)(Some(src));
    assert Contains(src, Constants.StagingSuffix) by { PathInSerialized(u, Constants.StagingSuffix); }
    assert src != "";
    assert GetAttr([Attr("src", src)], "src") == Some(src);
  }

  /** With the normalized key the image pass marks every uploaded image: an `img` whose `src`
      normalizes to a key the map holds with a truthy id gets that id as `data-media-id`. */
  lemma UploadedImageMarked(src: string, attrs: seq<Attr>, imageMap: JsMaps.JsMap<string, int>)
    requires GetAttr(attrs, "src") == Some(src) && src != ""
    requires imageMap.Get(Upload.NormalizeImageUrl(src)).Some? && imageMap.Get(Upload.NormalizeImageUrl(src)).value != 0
    ensures GetAttr(MarkImage(imageMap, MediaKey, "img", attrs), "data-media-id")
      == Some(IntToString(imageMap.Get(Upload.NormalizeImageUrl(src)).value))
  {
    assert MediaKey(src) == Upload.NormalizeImageUrl(src);
  }

  /** The two keys look the URL up differently in a map holding it under its normalized key. */
  lemma PathStagingKeysLookUp(u: Urls.Url)
    requires Urls.WellFormed(u)
    requires !Contains(u.host, Constants.StagingSuffix) && Contains(u.path, Constants.StagingSuffix)
    ensures var src := Urls.Serialize(u);
      var imageMap := JsMaps.Empty<string, int>().Set(MediaKey(src), 7);
      && PendingLookup(imageMap, MediaKeyAsWritten)(Some(src)) == None
      && PendingLookup(imageMap, MediaKey)(Some(src)) == Some(7)
  {
    PathStagingKeysDiffer(u);
    var src := Urls.Serialize(u);
    var imageMap := JsMaps.Empty<string, int>().Set(MediaKey(src), 7);
    assert PendingLookup(imageMap, MediaKeyAsWritten)(Some(src)) == imageMap.Get(MediaKeyAsWritten(src));
    assert PendingLookup(imageMap, MediaKey)(Some(src)) == imageMap.Get(src);
  }

  /** A pending upload node with `src` becomes an empty paragraph when the lookup misses and
      the upload of the id it finds otherwise. */
  lemma PendingNodeReplaced(src: string, lookup: Option<string> -> Option<int>)
    ensures var n := Obj(Some("upload"), map["pending" := JObj(map["src" := JStr(src)])], false, []);
      && (lookup(Some(src)) == None ==> ReplacePending(n, lookup, "") == EmptyParagraph)
      && (lookup(Some(src)) == Some(7) ==> IsUploadOf(ReplacePending(n, lookup, ""), 7))
  {
    var n := Obj(Some("upload"), map["pending" := JObj(map["src" := JStr(src)])], false, []);
    assert PendingSrc(n.props["pending"]) == Some(src);
  }

  /** With the normalized key every uploaded image resolves: a pending upload whose `src`
      normalizes to a key the map holds with a truthy id becomes an upload node with that id. */
  lemma UploadedImageResolves(src: string, imageMap: JsMaps.JsMap<string, int>, generated: string)
    requires imageMap.Get(Upload.NormalizeImageUrl(src)).Some? && imageMap.Get(Upload.NormalizeImageUrl(src)).value != 0
    ensures var n := Obj(Some("upload"), map["pending" := JObj(map["src" := JStr(src)])], false, []);
      IsUploadOf(ReplacePending(n, PendingLookup(imageMap, MediaKey), generated), imageMap.Get(Upload.NormalizeImageUrl(src)).value)
  {
    var n := Obj(Some("upload"), map["pending" := JObj(map["src" := JStr(src)])], false, []);
    PendingUploadOf(src);
    assert PendingLookup(imageMap, MediaKey)(Some(src)) == imageMap.Get(MediaKey(src));
    assert ResolvedId(n, PendingLookup(imageMap, MediaKey)) == imageMap.Get(Upload.NormalizeImageUrl(src));
  }

  /** An upload node whose `pending` object holds `src` is a pending upload of `src`. */
  lemma PendingUploadOf(src: string)
    ensures var n := Obj(Some("upload"), map["pending" := JObj(map["src" := JStr(src)])], false, []);
      IsPendingUpload(n) && PendingSrc(n.props["pending"]) == Some(src)
  {
    var n := Obj(Some("upload"), map["pending" := JObj(map["src" := JStr(src)])], false, []);
    assert PendingSrc(n.props["pending"]) == Some(src);
  }

  /** `https://cdn.example.com/a.wpcomstaging/b.jpg`, split into its parts, is such a URL. */
  lemma ExampleUrlHasPathStaging()
    ensures var u := Urls.Url("https", "", "cdn.example.com", "/a.wpcomstaging/b.jpg", "");
      && Urls.WellFormed(u) && !Contains(u.host, Constants.StagingSuffix) && Contains(u.path, Constants.StagingSuffix)
  {
    ExampleWellFormed();
    ExampleHostClean("cdn.example.com");
    ExamplePathStaging("/a.wpcomstaging/b.jpg");
  }

  lemma ExampleWellFormed()
    ensures Urls.WellFormed(Urls.Url("https", "", "cdn.example.com", "/a.wpcomstaging/b.jpg", ""))
  {
    ExampleHostOk("cdn.example.com");
    ExamplePathOk("/a.wpcomstaging/b.jpg");
  }

  lemma ExampleHostOk(host: string)
    requires host == "cdn.example.com"
    ensures forall i :: 0 <= i < |host| ==> !Urls.EndsAuthority(host[i]) && host[i] != '@'
  {
  }

  lemma ExamplePathOk(path: string)
    requires path == "/a.wpcomstaging/b.jpg"
    ensures forall i :: 0 <= i < |path| ==> !Urls.EndsPath(path[i])
  {
  }

  lemma ExampleHostClean(host: string)
    requires host == "cdn.example.com"
    ensures !Contains(host, Constants.StagingSuffix)
  {
    forall i: nat ensures !OccursAt(host, Constants.StagingSuffix, i) {
      if i + 13 <= |host| {
        assert host[i..i + 13][0] == host[i] != '.';
      }
    }
    ContainsIff(host, Constants.StagingSuffix);
  }

  lemma ExamplePathStaging(path: string)
    requires path == "/a.wpcomstaging/b.jpg"
    ensures Contains(path, Constants.StagingSuffix)
  {
    assert OccursAt(path, Constants.StagingSuffix, 2);
    ContainsIff(path, Constants.StagingSuffix);
  }
}
