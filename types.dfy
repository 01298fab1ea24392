/** The records the migration passes between its stages. */
module Types {
  import opened Wrappers
  import opened Json

  /** A WordPress post as the migration reads it; the optional fields are `None` when absent. */
  datatype WPPost = WPPost(
    id: int, title: string, slug: string, content: string,
    excerpt: Option<string>, date: Option<string>, author: Option<int>,
    categories: Option<seq<int>>, status: Option<string>)

  /** One block of a post: its type, inner HTML, comment attributes, the matched text and its position. */
  datatype WPChunk = WPChunk(typ: string, html: string, attributes: Option<Attrs>, rawComment: Option<string>, index: nat)

  /** The parsed opening comment of a block. */
  datatype WPBlockComment = WPBlockComment(typ: string, attributes: Attrs, raw: string)

  datatype UploadStatus = Pending | Uploaded | Failed | Skipped

  /** An image found in post HTML and the state of its upload. */
  datatype ImageReference = ImageReference(
    src: string, normalizedSrc: string, alt: string,
    mediaId: Option<int>, status: UploadStatus, error: Option<string>)

  /**
   * A node of Lexical JSON as the converters see it: a JSON value that is not a node (a
   * scalar, or an array), or an object with its optional `type`, its other keys, and its
   * `children`, which are present exactly when `hasChildren` (the key holds an array) and
   * are otherwise empty and ignored.
   */
  datatype LexNode =
    | Value(v: Json)
    | Obj(typ: Option<string>, props: map<string, Json>, hasChildren: bool, children: seq<LexNode>)

  /** The `link` group of a button block; its `type` is always `custom`; `caption` is the `label` key. */
  datatype ButtonLink = ButtonLink(url: string, newTab: bool, caption: Option<string>)

  /** The Payload blocks the structured-block converters emit, one variant per `blockType`; a `columnCount` of `None` is `NaN`, stored as `null`. */
  datatype CmsNode =
    | YoutubeNode(youtubeUrl: string)
    | GalleryNode(images: seq<int>, numberPerRow: string)
    | ButtonNode(link: ButtonLink, appearance: string)
    | VideoNode(video: int)
    | VideopressNode(videopressUrl: string)
    | ColumnsNode(columns: seq<Root>, columnCount: Option<int>)

  /** A converted node: Lexical content, or a Payload block. */
  datatype ConvertedNode = Lex(node: LexNode) | Cms(block: CmsNode)

  /** The data of one block: its `id`, its `blockName` and the node it was made from. */
  datatype BlockData = BlockData(id: Json, blockName: Json, node: ConvertedNode)

  /** A child of a merged root: a Lexical node kept as it is, or the `block` node wrapping a block. */
  datatype RootChild = Plain(node: LexNode) | BlockWrapper(fields: BlockData)

  /** A Lexical root: its `type`, its `children` when they form an array, and its `direction`. */
  datatype Root = Root(typ: string, children: Option<seq<RootChild>>, direction: Option<string>)

  /** The result of merging: the root, and the block references when there are blocks. */
  datatype Merged = Merged(root: Root, blockReferences: Option<seq<BlockData>>)

  /** What a converter reports for one chunk. */
  datatype ConversionResult = ConversionResult(
    nodes: seq<ConvertedNode>, warnings: seq<string>, errors: seq<string>, success: bool)

  /** A failed conversion with a single error. */
  function Failure(error: string, warnings: seq<string>): (r: ConversionResult)
    ensures !r.success && r.nodes == [] && r.errors == [error] && r.warnings == warnings
  {
    ConversionResult([], warnings, [error], false)
  }
}
