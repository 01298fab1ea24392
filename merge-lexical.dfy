/**
 * Merging the nodes a post's chunks converted into into one Lexical document: Lexical nodes
 * are kept as they are, Payload blocks are wrapped in `block` nodes and also listed in
 * `blockReferences`, and anything else is dropped.
 */
module MergeLexical {
  import opened Wrappers
  import opened Json
  import opened Types
  import Seqs

  const RootType := "root"

  /** The message of the TypeError that `'type' in node` raises when `node` is the primitive `v`. */
  function InOnPrimitive(v: Json): string {
    "Cannot use 'in' operator to search for 'type' in " + ToText(v)
  }

  /** `key in node` is defined: the node is an object (or an array), not `null` or another primitive. */
  predicate IsObject(n: ConvertedNode) {
    n.Cms? || n.node.Obj? || n.node.v.JArr? || n.node.v.JObj?
  }

  /** `'type' in node`; a Payload block has no `type` key. */
  predicate HasType(n: ConvertedNode)
    requires IsObject(n)
  {
    match n
    case Cms(_) => false
    case Lex(Obj(typ, _, _, _)) => typ.Some?
    case Lex(Value(v)) => v.JObj? && "type" in v.fields
  }

  /** `'blockType' in node`; every Payload block has one. */
  predicate HasBlockType(n: ConvertedNode)
    requires IsObject(n)
  {
    match n
    case Cms(_) => true
    case Lex(Obj(_, props, _, _)) => "blockType" in props
    case Lex(Value(v)) => v.JObj? && "blockType" in v.fields
  }

  /** `isLexicalNode`: a `type` and no `blockType`. */
  predicate IsLexicalNode(n: ConvertedNode)
    requires IsObject(n)
  {
    HasType(n) && !HasBlockType(n)
  }

  /** `isCMSBlockNode`: a `blockType`. */
  predicate IsCmsBlockNode(n: ConvertedNode)
    requires IsObject(n)
  {
    HasBlockType(n)
  }

  /** The two kinds never overlap; every Payload block is a block, every typed Lexical object without `blockType` is Lexical. */
  lemma NodeKinds(n: ConvertedNode)
    requires IsObject(n)
    ensures !(IsLexicalNode(n) && IsCmsBlockNode(n))
    ensures n.Cms? ==> IsCmsBlockNode(n) && !IsLexicalNode(n)
    ensures n.Lex? && n.node.Obj? ==> (IsLexicalNode(n) <==> n.node.typ.Some? && "blockType" !in n.node.props)
  {
  }

  /** The value of one of the node's own keys (`id`, `blockName`), which a Payload block does not carry. */
  function OwnKey(n: ConvertedNode, key: string): Option<Json> {
    match n
    case Cms(_) => None
    case Lex(Obj(_, props, _, _)) => if key in props then Some(props[key]) else None
    case Lex(Value(v)) => if v.JObj? && key in v.fields then Some(v.fields[key]) else None
  }

  /** `{ id: blockId, blockName: '', ...node }`: the node's own `id` and `blockName` win over the defaults. */
  function BlockDataOf(n: ConvertedNode, blockId: string): (b: BlockData)
    ensures b.node == n
    ensures OwnKey(n, "id").None? ==> b.id == JStr(blockId)
    ensures OwnKey(n, "blockName").None? ==> b.blockName == JStr("")
  {
    BlockData(OwnKey(n, "id").GetOr(JStr(blockId)), OwnKey(n, "blockName").GetOr(JStr("")), n)
  }

  /** Every node can be tested with `in`. */
  predicate AllObjects(ns: seq<ConvertedNode>) {
    forall i :: 0 <= i < |ns| ==> IsObject(ns[i])
  }

  /** The first node that is not an object: the one the merge loop stops at. */
  function FirstPrimitive(ns: seq<ConvertedNode>): (i: nat)
    requires !AllObjects(ns)
    ensures i < |ns| && !IsObject(ns[i]) && AllObjects(ns[..i])
  {
    if !IsObject(ns[0]) then 0
    else
      var j := FirstPrimitive(ns[1..]);
      assert ns[..j + 1] == [ns[0]] + ns[1..][..j];
      j + 1
  }

  /** Only the first primitive has all objects before it. */
  lemma FirstPrimitiveUnique(ns: seq<ConvertedNode>, i: nat)
    requires i < |ns| && !IsObject(ns[i]) && AllObjects(ns[..i])
    ensures !AllObjects(ns) && FirstPrimitive(ns) == i
  {
    var j := FirstPrimitive(ns);
  }

  /** The blocks collected from `ns` in order: the k-th gets the k-th generated id. */
  function Refs(ns: seq<ConvertedNode>, blockId: nat -> string): seq<BlockData>
    requires AllObjects(ns)
  {
    if ns == [] then []
    else
      var prev := Refs(Seqs.Init(ns), blockId);
      var n := ns[|ns| - 1];
      prev + (if !IsLexicalNode(n) && IsCmsBlockNode(n) then [BlockDataOf(n, blockId(|prev|))] else [])
  }

  /** The children `mergeNodes` collects from `ns`, in order. */
  function Children(ns: seq<ConvertedNode>, blockId: nat -> string): seq<RootChild>
    requires AllObjects(ns)
  {
    if ns == [] then []
    else
      var prev := Refs(Seqs.Init(ns), blockId);
      var n := ns[|ns| - 1];
      Children(Seqs.Init(ns), blockId)
      + (if IsLexicalNode(n) then [Plain(n.node)]
         else if IsCmsBlockNode(n) then [BlockWrapper(BlockDataOf(n, blockId(|prev|)))]
         else [])
  }

  /** A child `createLexicalRoot` keeps: a `block` wrapper (typed, no `blockType` of its own) or a Lexical node. */
  predicate IsLexicalChild(c: RootChild)
    requires c.BlockWrapper? || IsObject(Lex(c.node))
  {
    c.BlockWrapper? || IsLexicalNode(Lex(c.node))
  }

  /**
   * `createLexicalRoot`: a `root` with direction `ltr` (and format `''`, indent 0, version 1)
   * over the Lexical children.
   */
  function CreateLexicalRoot(children: seq<RootChild>): (r: Root)
    requires forall i :: 0 <= i < |children| ==> children[i].BlockWrapper? || IsObject(Lex(children[i].node))
    ensures r.typ == RootType && r.direction == Some("ltr") && r.children.Some?
    ensures forall c :: c in r.children.value ==> c in children && IsLexicalChild(c)
    ensures (forall i :: 0 <= i < |children| ==> IsLexicalChild(children[i])) ==> r.children.value == children
  {
    KeptChildren(children);
    Root(RootType, Some(Seqs.Filter(children, Keeps)), Some("ltr"))
  }

  /** The filter `createLexicalRoot` applies, total over every child. */
  predicate Keeps(c: RootChild) {
    (c.BlockWrapper? || IsObject(Lex(c.node))) && IsLexicalChild(c)
  }

  /** What the filter keeps comes from the children, and everything is kept when everything passes. */
  lemma KeptChildren(children: seq<RootChild>)
    ensures forall c :: c in Seqs.Filter(children, Keeps) ==> c in children
    ensures (forall i :: 0 <= i < |children| ==> Keeps(children[i])) ==> Seqs.Filter(children, Keeps) == children
  {
    forall c | c in Seqs.Filter(children, Keeps) ensures c in children {
      Seqs.FilterSubset(children, Keeps, c);
    }
    FilterAll(children, Keeps);
  }

  /** Filtering keeps everything when everything passes. */
  lemma {:induction false} FilterAll<T>(xs: seq<T>, p: T -> bool)
    ensures (forall i :: 0 <= i < |xs| ==> p(xs[i])) ==> Seqs.Filter(xs, p) == xs
  {
    if xs != [] {
      FilterAll(xs[1..], p);
    }
  }

  /** The result of `mergeNodes`: the TypeError on a primitive node, or the merged document. */
  function MergeResult(ns: seq<ConvertedNode>, blockId: nat -> string): Result<Merged, string> {
    if !AllObjects(ns) then Err(InOnPrimitive(ns[FirstPrimitive(ns)].node.v))
    else
      var refs := Refs(ns, blockId);
      ChildrenKept(ns, blockId);
      Ok(Merged(CreateLexicalRoot(Children(ns, blockId)), if |refs| > 0 then Some(refs) else None))
  }

  /** Every collected child is one `createLexicalRoot` keeps. */
  lemma {:induction false} ChildrenKept(ns: seq<ConvertedNode>, blockId: nat -> string)
    requires AllObjects(ns)
    ensures forall i :: 0 <= i < |Children(ns, blockId)| ==>
      Keeps(Children(ns, blockId)[i])
  {
    if ns != [] {
      ChildrenKept(Seqs.Init(ns), blockId);
    }
  }

  /** After the first `i` nodes, the loop of `mergeNodes` holds their children and references. */
  predicate Collected(nodes: seq<ConvertedNode>, i: nat, blockId: nat -> string, children: seq<RootChild>, refs: seq<BlockData>) {
    i <= |nodes| && AllObjects(nodes[..i]) && children == Children(nodes[..i], blockId) && refs == Refs(nodes[..i], blockId)
  }

  /** One more node: a Lexical node adds itself, a block its reference and its wrapper, anything else nothing. */
  lemma CollectedStep(nodes: seq<ConvertedNode>, i: nat, blockId: nat -> string, children: seq<RootChild>, refs: seq<BlockData>)
    requires Collected(nodes, i, blockId, children, refs) && i < |nodes| && IsObject(nodes[i])
    ensures var n := nodes[i];
      && (IsLexicalNode(n) ==> Collected(nodes, i + 1, blockId, children + [Plain(n.node)], refs))
      && (!IsLexicalNode(n) && IsCmsBlockNode(n) ==>
            var b := BlockDataOf(n, blockId(|refs|));
            Collected(nodes, i + 1, blockId, children + [BlockWrapper(b)], refs + [b]))
      && (!IsLexicalNode(n) && !IsCmsBlockNode(n) ==> Collected(nodes, i + 1, blockId, children, refs))
  {
    Seqs.TakeSnoc(nodes, i);
    Seqs.InitOfSnoc(nodes[..i], nodes[i]);
  }

  /**
   * `mergeNodes`: one pass over the nodes, pushing Lexical nodes as they are and, for each
   * block, its data to the references and a `block` wrapper to the children.
   */
  method MergeNodes(nodes: seq<ConvertedNode>, blockId: nat -> string) returns (r: Result<Merged, string>)
    ensures r == MergeResult(nodes, blockId)
  {
    var lexicalChildren: seq<RootChild> := [];
    var blockReferences: seq<BlockData> := [];
    var i := 0;
    while i < |nodes|
      invariant Collected(nodes, i, blockId, lexicalChildren, blockReferences)
    {
      var node := nodes[i];
      if !IsObject(node) {
        FirstPrimitiveUnique(nodes, i);
        return Err(InOnPrimitive(node.node.v));
      }
      CollectedStep(nodes, i, blockId, lexicalChildren, blockReferences);
      if IsLexicalNode(node) {
        lexicalChildren := lexicalChildren + [Plain(node.node)];
      } else if IsCmsBlockNode(node) {
        var blockData := BlockDataOf(node, blockId(|blockReferences|));
        blockReferences := blockReferences + [blockData];
        lexicalChildren := lexicalChildren + [BlockWrapper(blockData)];
      }
      i := i + 1;
    }
    assert nodes[..i] == nodes;
    ChildrenKept(nodes, blockId);
    var root := CreateLexicalRoot(lexicalChildren);
    if |blockReferences| > 0 {
      r := Ok(Merged(root, Some(blockReferences)));
    } else {
      r := Ok(Merged(root, None));
    }
  }

  /** The input nodes that are blocks, in order (the reference definition of what is referenced). */
  function CmsInputs(ns: seq<ConvertedNode>): seq<ConvertedNode>
    requires AllObjects(ns)
  {
    if ns == [] then []
    else CmsInputs(Seqs.Init(ns)) + (if !IsLexicalNode(ns[|ns| - 1]) && IsCmsBlockNode(ns[|ns| - 1]) then [ns[|ns| - 1]] else [])
  }

  /** The input nodes that are Lexical, in order. */
  function LexicalInputs(ns: seq<ConvertedNode>): seq<LexNode>
    requires AllObjects(ns)
  {
    if ns == [] then []
    else LexicalInputs(Seqs.Init(ns)) + (if IsLexicalNode(ns[|ns| - 1]) then [ns[|ns| - 1].node] else [])
  }

  /** The block data held by the `block` wrappers among `cs`, in order. */
  function WrappedBlocks(cs: seq<RootChild>): seq<BlockData> {
    if cs == [] then []
    else WrappedBlocks(Seqs.Init(cs)) + (if cs[|cs| - 1].BlockWrapper? then [cs[|cs| - 1].fields] else [])
  }

  /** The Lexical nodes among `cs`, in order. */
  function PlainNodes(cs: seq<RootChild>): seq<LexNode> {
    if cs == [] then []
    else PlainNodes(Seqs.Init(cs)) + (if cs[|cs| - 1].Plain? then [cs[|cs| - 1].node] else [])
  }

  /**
   * The k-th reference is made from the k-th block of the input, with the k-th generated id
   * unless the node has its own `id`, and `''` as its name unless it has its own.
   */
  lemma {:induction false} RefsAreCmsInputs(ns: seq<ConvertedNode>, blockId: nat -> string)
    requires AllObjects(ns)
    ensures |Refs(ns, blockId)| == |CmsInputs(ns)|
    ensures forall k :: 0 <= k < |CmsInputs(ns)| ==> Refs(ns, blockId)[k] == BlockDataOf(CmsInputs(ns)[k], blockId(k))
  {
    if ns != [] {
      RefsAreCmsInputs(Seqs.Init(ns), blockId);
    }
  }

  /** The wrappers among the children hold exactly the references, in the same order. */
  lemma {:induction false} WrappersAreRefs(ns: seq<ConvertedNode>, blockId: nat -> string)
    requires AllObjects(ns)
    ensures WrappedBlocks(Children(ns, blockId)) == Refs(ns, blockId)
  {
    if ns != [] {
      WrappersAreRefs(Seqs.Init(ns), blockId);
      var prev := Children(Seqs.Init(ns), blockId);
      var n := ns[|ns| - 1];
      var step := if IsLexicalNode(n) then [Plain(n.node)]
        else if IsCmsBlockNode(n) then [BlockWrapper(BlockDataOf(n, blockId(|Refs(Seqs.Init(ns), blockId)|)))]
        else [];
      var c := Children(ns, blockId);
      assert c == prev + step;
      if step == [] {
        assert c == prev;
      } else {
        Seqs.InitOfSnoc(prev, step[0]);
        assert c == prev + [step[0]];
      }
    }
  }

  /** The Lexical children are exactly the Lexical inputs, in order and unchanged. */
  lemma {:induction false} PlainsAreLexicalInputs(ns: seq<ConvertedNode>, blockId: nat -> string)
    requires AllObjects(ns)
    ensures PlainNodes(Children(ns, blockId)) == LexicalInputs(ns)
  {
    if ns != [] {
      PlainsAreLexicalInputs(Seqs.Init(ns), blockId);
      var prev := Children(Seqs.Init(ns), blockId);
      var n := ns[|ns| - 1];
      var step := if IsLexicalNode(n) then [Plain(n.node)]
        else if IsCmsBlockNode(n) then [BlockWrapper(BlockDataOf(n, blockId(|Refs(Seqs.Init(ns), blockId)|)))]
        else [];
      var c := Children(ns, blockId);
      assert c == prev + step;
      if step == [] {
        assert c == prev;
      } else {
        Seqs.InitOfSnoc(prev, step[0]);
        assert c == prev + [step[0]];
      }
    }
  }

  /** Each kept input gives one child; nodes that are neither kind give none. */
  lemma {:induction false} ChildCount(ns: seq<ConvertedNode>, blockId: nat -> string)
    requires AllObjects(ns)
    ensures |Children(ns, blockId)| == |LexicalInputs(ns)| + |CmsInputs(ns)|
  {
    if ns != [] {
      ChildCount(Seqs.Init(ns), blockId);
    }
  }

  /** `blockReferences` is present exactly when the input has a block, and then lists every block. */
  lemma MergeReferences(ns: seq<ConvertedNode>, blockId: nat -> string)
    requires AllObjects(ns)
    ensures MergeResult(ns, blockId).Ok?
    ensures MergeResult(ns, blockId).value.blockReferences.Some? <==> CmsInputs(ns) != []
    ensures MergeResult(ns, blockId).value.root.children == Some(Children(ns, blockId))
  {
    RefsAreCmsInputs(ns, blockId);
    ChildrenKept(ns, blockId);
  }

  /** A `null` (or `undefined`) entry. */
  predicate IsNull(n: ConvertedNode) {
    n == Lex(Value(JNull))
  }

  /** The root of an empty merge. */
  const EmptyRoot := Root(RootType, Some([]), Some("ltr"))

  /** `validateMergedStructure`: a `root` typed `root` whose `children` is an array. */
  predicate ValidateMergedStructure(merged: Merged) {
    merged.root.typ == RootType && merged.root.children.Some?
  }

  /**
   * `mergeNodesPreservingOrder`: drops `null` entries, gives the empty root (without block
   * references) when nothing is left, and merges otherwise.
   */
  function MergeNodesPreservingOrder(nodes: seq<ConvertedNode>, blockId: nat -> string): (r: Result<Merged, string>)
    ensures (forall i :: 0 <= i < |nodes| ==> IsNull(nodes[i])) ==> r == Ok(Merged(EmptyRoot, None))
    ensures r.Ok? ==> ValidateMergedStructure(r.value)
    ensures r.Err? <==> exists i :: 0 <= i < |nodes| && !IsNull(nodes[i]) && !IsObject(nodes[i])
  {
    var valid := Seqs.Filter(nodes, (n: ConvertedNode) => !IsNull(n));
    NoneLeft(nodes);
    PrimitiveKept(nodes);
    if valid == [] then Ok(Merged(EmptyRoot, None))
    else MergeResult(valid, blockId)
  }

  /** The filter leaves nothing exactly when every entry is `null`. */
  lemma {:induction false} NoneLeft(nodes: seq<ConvertedNode>)
    ensures Seqs.Filter(nodes, (n: ConvertedNode) => !IsNull(n)) == [] <==> forall i :: 0 <= i < |nodes| ==> IsNull(nodes[i])
  {
    if nodes != [] {
      NoneLeft(nodes[1..]);
      if !IsNull(nodes[0]) {
        assert Seqs.Filter(nodes, (n: ConvertedNode) => !IsNull(n))[0] == nodes[0];
      } else {
        assert forall i :: 1 <= i < |nodes| ==> nodes[i] == nodes[1..][i - 1];
      }
    }
  }

  /** A primitive other than `null` survives the filter, and the filter leaves no other primitive. */
  lemma {:induction false} PrimitiveKept(nodes: seq<ConvertedNode>)
    ensures AllObjects(Seqs.Filter(nodes, (n: ConvertedNode) => !IsNull(n)))
      <==> forall i :: 0 <= i < |nodes| ==> IsNull(nodes[i]) || IsObject(nodes[i])
  {
    var p := (n: ConvertedNode) => !IsNull(n);
    if nodes != [] {
      PrimitiveKept(nodes[1..]);
      assert forall i :: 1 <= i < |nodes| ==> nodes[i] == nodes[1..][i - 1];
      if p(nodes[0]) {
        var rest := Seqs.Filter(nodes[1..], p);
        var f := [nodes[0]] + rest;
        assert Seqs.Filter(nodes, p) == f;
        assert AllObjects(f) <==> IsObject(nodes[0]) && AllObjects(rest) by {
          assert f[0] == nodes[0];
          assert forall i :: 1 <= i < |f| ==> f[i] == rest[i - 1];
          assert forall j :: 0 <= j < |rest| ==> rest[j] == f[j + 1];
        }
      }
    }
  }
}
