/**
 * The block registry: which WordPress block types Lexical converts natively,
 * which map to a CMS block, how a chunk's type is detected from its declared
 * type, attributes and HTML, and which conversion strategy a type gets.
 */
module Registry {
  import opened Wrappers
  import opened Strings
  import opened Json
  import opened Constants

  /** The native-support table: listed types with their flag. */
  const LexicalSupported: map<string, bool> := map[
    Paragraph := true, Heading := true, List := true, Quote := true, Table := true,
    Columns := false, Column := false, Image := false, Code := true]

  /** The WordPress types converted to a CMS block, with the block they become. */
  const UnsupportedMapping: map<string, CmsBlock> := map[
    Gallery := GalleryBlock, ShortcodeGallery := GalleryBlock,
    YoutubeEmbed := YoutubeBlock, ShortcodeYoutube := YoutubeBlock,
    VideopressEmbed := VideopressBlock,
    Video := VideoBlock, ShortcodeVideo := VideoBlock,
    Buttons := ButtonBlock, Button := ButtonBlock,
    Columns := ColumnsBlock]

  /** `LEXICAL_SUPPORTED[t] === true`. */
  predicate IsLexicalSupported(t: string) {
    t in LexicalSupported && LexicalSupported[t]
  }

  /** Exactly paragraph, heading, list, quote, table and code are converted natively. */
  lemma LexicalSupportedTypes(t: string)
    ensures IsLexicalSupported(t) <==> t in {Paragraph, Heading, List, Quote, Table, Code}
  {
  }

  /** The mapping lookup, restricted to the mapping's own entries. */
  function GetCmsBlockMapping(t: string): (r: Option<CmsBlock>)
    ensures r.Some? <==> t in UnsupportedMapping
  {
    if t in UnsupportedMapping then Some(UnsupportedMapping[t]) else None
  }

  /** The type has an entry of its own in the mapping. */
  predicate HasCmsBlockMapping(t: string) {
    t in UnsupportedMapping
  }

  /** No mapped type is also natively supported: the two tables never compete. */
  lemma MappedTypesAreNotLexical(t: string)
    ensures HasCmsBlockMapping(t) ==> !IsLexicalSupported(t)
  {
  }

  /** Only the video and gallery families, YouTube and VideoPress embeds, buttons and columns are mapped;
      media and banner blocks are never the target of a mapping. */
  lemma MappingTargets(t: string)
    ensures HasCmsBlockMapping(t) ==> GetCmsBlockMapping(t).value !in {MediaBlock, Banner}
  {
  }

  /**
   * The lookups as written: `name in UNSUPPORTED_MAPPING` also holds for the members every
   * JavaScript object inherits (`constructor`, `toString`, ...), and the indexed read then
   * yields that inherited member instead of a block slug.
   */
  const InheritedMembers: set<string> := {
    "constructor", "hasOwnProperty", "isPrototypeOf", "propertyIsEnumerable", "toString",
    "valueOf", "toLocaleString", "__proto__", "__defineGetter__", "__defineSetter__",
    "__lookupGetter__", "__lookupSetter__"}

  predicate HasCmsBlockMappingAsWritten(t: string) {
    t in UnsupportedMapping || t in InheritedMembers
  }

  /** With the inherited-member check, a type can count as mapped while having no block to map to. */
  lemma MappedWithoutBlockAsWritten()
    ensures HasCmsBlockMappingAsWritten("constructor") && GetCmsBlockMapping("constructor").None?
  {
  }

  /** Checking the mapping's own entries, "mapped" and "has a block" agree on every type. */
  lemma MappedIffBlock(t: string)
    ensures HasCmsBlockMapping(t) <==> GetCmsBlockMapping(t).Some?
    ensures !(t in InheritedMembers) ==> (HasCmsBlockMappingAsWritten(t) <==> HasCmsBlockMapping(t))
  {
  }

  /** `[name ... ]`, case-insensitive: the opening text and a later closing bracket. */
  predicate HasBracketTag(html: string, open: string) {
    exists i :: 0 <= i <= |html| && OccursAtIgnoreCase(html, open, i) && FindChar(html[i + |open|..], ']').Some?
  }

  /** The detection patterns in their declared order; the first one that matches names the type. */
  function PatternType(html: string): (r: Option<string>)
    ensures r.Some? ==> r.value in {YoutubeEmbed, ShortcodeYoutube, ShortcodeGallery, ShortcodeVideo, Button}
  {
    if Contains(html, "youtube.com") || Contains(html, "youtu.be") then Some(YoutubeEmbed)
    else if HasBracketTag(html, "[youtube") then Some(ShortcodeYoutube)
    else if HasBracketTag(html, "[gallery") then Some(ShortcodeGallery)
    else if HasBracketTag(html, "[video") then Some(ShortcodeVideo)
    else if Contains(html, "wp-block-button") || Contains(html, "wp-block-buttons") then Some(Button)
    else None
  }

  /** The button pattern's second test adds nothing: "wp-block-buttons" contains "wp-block-button". */
  lemma ButtonsImpliesButton(html: string)
    ensures Contains(html, "wp-block-buttons") ==> Contains(html, "wp-block-button")
  {
    if Contains(html, "wp-block-buttons") {
      var i := IndexOf(html, "wp-block-buttons").value;
      assert html[i..i + 15] == html[i..i + 16][..15];
      assert OccursAt(html, "wp-block-button", i);
      ContainsIff(html, "wp-block-button");
    }
  }

  /** The embed provider named by an `embed` block's attributes, if any. */
  function EmbedProvider(attrs: Attrs): (r: Option<string>)
    ensures r.Some? ==> r.value in {YoutubeEmbed, VideopressEmbed}
  {
    var provider := if "providerNameSlug" in attrs then Some(attrs["providerNameSlug"]) else None;
    var url := StrAttr(Some(attrs), "url");
    if provider == Some(JStr("youtube")) then Some(YoutubeEmbed)
    else if provider == Some(JStr("videopress")) then Some(VideopressEmbed)
    else if url.Some? && (Contains(url.value, "youtube.com") || Contains(url.value, "youtu.be")) then Some(YoutubeEmbed)
    else if url.Some? && Contains(url.value, "videopress.com") then Some(VideopressEmbed)
    else None
  }

  /** A `video` block's attributes mark it as VideoPress. */
  predicate IsVideopressVideo(attrs: Attrs) {
    var classes := StrAttr(Some(attrs), "videoPressClassNames");
    var url := StrAttr(Some(attrs), "url");
    (classes.Some? && Contains(classes.value, "videopress"))
    || TruthyAttr(Some(attrs), "guid").Some?
    || (url.Some? && Contains(url.value, "videopress.com"))
  }

  /** The block type of a chunk, from its declared type, attributes and HTML, in that order of trust. */
  function DetectBlockType(html: string, declared: string, attrs: Option<Attrs>): (r: string)
    ensures r == declared || HasCmsBlockMapping(r) || (declared == [] && r == Paragraph)
    ensures r != []
  {
    if declared == Embed && attrs.Some? && EmbedProvider(attrs.value).Some? then EmbedProvider(attrs.value).value
    else if declared == Video && attrs.Some? && IsVideopressVideo(attrs.value) then VideopressEmbed
    else if declared != [] && HasCmsBlockMapping(declared) then declared
    else if PatternType(html).Some? then PatternType(html).value
    else if declared != [] then declared
    else Paragraph
  }

  /** A mapped declared type is kept, except that a VideoPress-flavoured `video` becomes a VideoPress embed. */
  lemma DetectKeepsMappedType(html: string, declared: string, attrs: Option<Attrs>)
    requires HasCmsBlockMapping(declared)
    ensures var r := DetectBlockType(html, declared, attrs);
      r == declared || (declared == Video && r == VideopressEmbed && attrs.Some? && IsVideopressVideo(attrs.value))
  {
  }

  /** An embed whose provider slug is "youtube" is a YouTube embed whatever its HTML says. */
  lemma DetectYoutubeProvider(html: string, attrs: Attrs)
    requires "providerNameSlug" in attrs && attrs["providerNameSlug"] == JStr("youtube")
    ensures DetectBlockType(html, Embed, Some(attrs)) == YoutubeEmbed
  {
  }

  /** Any chunk without a mapped declared type that mentions youtu.be in its HTML is taken for a
      YouTube embed, a paragraph included, unless attributes decide first. */
  lemma DetectYoutubeMention(html: string, declared: string, attrs: Option<Attrs>)
    requires !HasCmsBlockMapping(declared) && declared != Embed && declared != Video
    requires Contains(html, "youtu.be")
    ensures DetectBlockType(html, declared, attrs) == YoutubeEmbed
  {
  }

  /** Without any signal, the declared type stands, and an empty one becomes a paragraph. */
  lemma DetectFallback(html: string, declared: string, attrs: Option<Attrs>)
    requires PatternType(html).None? && !HasCmsBlockMapping(declared) && declared != Embed && declared != Video
    ensures DetectBlockType(html, declared, attrs) == if declared == [] then Paragraph else declared
  {
  }

  datatype Strategy = LexicalStrategy | CmsBlockStrategy | CustomStrategy

  /** Native Lexical first, then a CMS block, otherwise the custom (best-effort Lexical) path. */
  function GetConversionStrategy(t: string): (s: Strategy)
    ensures s == LexicalStrategy <==> IsLexicalSupported(t)
    ensures s == CmsBlockStrategy <==> HasCmsBlockMapping(t)
    ensures s == CustomStrategy <==> !IsLexicalSupported(t) && !HasCmsBlockMapping(t)
  {
    if IsLexicalSupported(t) then LexicalStrategy
    else if HasCmsBlockMapping(t) then CmsBlockStrategy
    else CustomStrategy
  }

  /** A detected type that differs from the declared one is always routed to a CMS block. */
  lemma DetectedTypesRouteToBlocks(html: string, declared: string, attrs: Option<Attrs>)
    ensures var r := DetectBlockType(html, declared, attrs);
      r != declared && declared != [] ==> GetConversionStrategy(r) == CmsBlockStrategy
  {
    var r := DetectBlockType(html, declared, attrs);
    MappedTypesAreNotLexical(r);
  }
}
