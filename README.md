# WordPress-to-Lexical migration, modelled in Dafny

This project models the migration pipeline that moves WordPress posts into a Payload CMS site whose
rich text is stored as Lexical JSON, together with the small URL and path helpers the site uses for
the migrated content. It states and proves in Dafny what each part of the pipeline promises.

- **Block splitter** (`ChunkSplitter`) cuts Gutenberg post HTML into chunks at `<!-- wp:T … -->` …
  `<!-- /wp:T -->` markers. Each chunk keeps its index, its attribute JSON and its inner HTML, and
  any text left over becomes one trailing paragraph chunk.
- **Constants, registry and detector** (`Constants`, `Registry`, `ChunkDetector`) hold the block
  tables, the priority-ordered refinement of a chunk's type, the three conversion strategies
  (Lexical, Payload block, custom) and the detector's confidence rule.
- **Media** (`Extract`, `Upload`) finds images and YouTube ids, de-duplicates images by normalised
  URL and validates downloads against the allow-lists and size ceilings. Uploads go to a media store
  class; the check-then-create upload is idempotent, and the upload loop updates an array of image
  references in place.
- **HTML clean-up** (`HtmlUtils`) works on a DOM tree datatype: class and attribute stripping,
  sanitising, removal of empty elements, wrapping, and attribute and text extraction.
- **Converters** (`Lexical`, `UnsupportedBlocks`):
  - the hand-built table conversion;
  - table placeholders and their re-insertion;
  - resolution of pending uploads;
  - the YouTube, gallery, button, video, VideoPress and columns block converters and their router.
- **Orchestration** (`HtmlEngine`, `MergeLexical`, `MigrateWp`) covers the per-chunk dispatch and
  the statistics loop, the order-preserving merge of Lexical nodes and Payload blocks, and the
  per-post and batch counters of the migration driver.
- **Legacy helper** (`LegacyHelper`) is the older one-file conversion. It builds a document from the
  first table only, accepts an existing media id of 0, and processes images one after another.
- **Site helpers** (`MockData`, `PreviewPath`, `MediaUrl`, `ImageLoader`, `VideoIds`,
  `YoutubeBlock`, `VideopressBlock`) cover the sample post source, the preview path, the media and
  image-loader URLs, and the video-id extractors of the YouTube and VideoPress blocks. Each
  extractor is proved to recover the id from the URL the converters build.

Shared helper modules are:
- `Wrappers`: Option and Result;
- `Strings` and `Seqs`: string scanning, de-duplication and mapping;
- `Json`: attribute values;
- `JsMaps`: an insertion-ordered map, like a JavaScript `Map`;
- `Dom`: the HTML tree;
- `Urls`: absolute URLs as `new URL` parses and prints them;
- `Types`: chunks, image references, Lexical nodes, Payload blocks and conversion results.

Collaborators the pipeline only calls are parameters of the model:
- the HTML parser and serialiser;
- the HTML-to-Lexical converter;
- `fetch`;
- the clock;
- the id generator;
- `encodeURIComponent` and `URLSearchParams`.

Code that changes state step by step is modelled as methods with loop invariants, proved against
the functions that specify them. This covers the upload loop over an array of image references, the
media store, the shared image map, the chunk loops and the migration counters. Code that only
computes is modelled as functions and lemmas.

## Model

| member | source | states |
|---|---|---|
| Constants.WpBlocksDistinct | src/scripts/migrate-wp/core/constants.ts:12-39 | the WordPress block type names are pairwise distinct, so registry keys are unambiguous |
| Constants.CmsSlugsDistinct | src/scripts/migrate-wp/core/constants.ts:43-54 | no two CMS blocks share a slug |
| Constants.MatchAt | src/scripts/migrate-wp/core/constants.ts:121-126 | a match of a YouTube pattern starts where it is tried, ends inside the text, and captures exactly 11 characters of `[a-zA-Z0-9_-]` |
| Constants.LastIdAssignment | src/scripts/migrate-wp/core/constants.ts:121 | the id the greedy `[^\]]*` settles on in a shortcode follows an `id=` and is 11 id characters long |
| Constants.FirstMatchFrom | src/scripts/migrate-wp/core/constants.ts:121-126 | `exec` from `lastIndex` returns the leftmost match at or after it, and none exists before it |
| Constants.ExecAdvances | src/scripts/migrate-wp/core/constants.ts:121-126 | the YouTube patterns never match the empty string, so an `exec` loop over them moves forward |
| Constants.CapturesAreVideoIds | src/scripts/migrate-wp/core/constants.ts:124-126 | every id a pattern captures is 11 characters from `[a-zA-Z0-9_-]` |
| ChunkSplitter.OpenAt | src/scripts/migrate-wp/wp/chunk-splitter.ts:66 | an opening comment read at `p` ends after `p`, within the text, and has a non-empty type token |
| ChunkSplitter.SpacesFromRun | src/scripts/migrate-wp/wp/chunk-splitter.ts:66 | a `\s*` run is whitespace and stops at the end of the text or at the first other character |
| ChunkSplitter.TokenFromRun | src/scripts/migrate-wp/wp/chunk-splitter.ts:66 | a `[a-z0-9/-]+` run is made of type characters and stops at the end or at the first other character |
| ChunkSplitter.BraceFromFirst | src/scripts/migrate-wp/wp/chunk-splitter.ts:66 | `[^}]*}` ends at the first `}`, and fails only when none follows |
| ChunkSplitter.OpenAtToken | src/scripts/migrate-wp/wp/chunk-splitter.ts:66 | the type of an opening is made only of `[a-z0-9/-]` characters and follows `<!--`, spaces and `wp:` |
| ChunkSplitter.FirstCloseIsFirst | src/scripts/migrate-wp/wp/chunk-splitter.ts:66 | the closing comment chosen is a `<!-- /wp:T -->` for the same type and no earlier position holds one (lazy `[\s\S]*?`); when none is found there is none anywhere after |
| ChunkSplitter.BlockAtCloses | src/scripts/migrate-wp/wp/chunk-splitter.ts:66 | a block is its opening comment followed by the first closing comment with the same type (the `\1` back-reference); inner blocks of other types stay in the body |
| ChunkSplitter.UnclosedOpeningIsNoBlock | src/scripts/migrate-wp/wp/chunk-splitter.ts:66 | an opening comment with no closing comment of its type after it starts no block |
| ChunkSplitter.NextBlock | src/scripts/migrate-wp/wp/chunk-splitter.ts:71 | `exec` from `lastIndex` finds a match at the first position from which the pattern matches, and there is none before it; `None` only when no later position matches |
| ChunkSplitter.Blocks | src/scripts/migrate-wp/wp/chunk-splitter.ts:71-96 | the global search yields matches of the pattern in increasing, non-overlapping order |
| ChunkSplitter.ParseBlockComment | src/scripts/migrate-wp/wp/chunk-splitter.ts:23-48 | a parsed comment keeps the whole input as `raw` |
| ChunkSplitter.ParseBlockCommentSpec | src/scripts/migrate-wp/wp/chunk-splitter.ts:23-48 | `null` exactly when no opening comment occurs anywhere; otherwise the type is the trimmed token of the earliest opening |
| ChunkSplitter.ParsedCommentHasBlocks | src/scripts/migrate-wp/wp/chunk-splitter.ts:148-150 | every text that `parseBlockComment` accepts is one `hasWPBlocks` accepts |
| ChunkSplitter.UnterminatedMarkerHasBlocks | src/scripts/migrate-wp/wp/chunk-splitter.ts:25-29 | the converse fails: `<!-- wp:x` has blocks by `hasWPBlocks` but does not parse, since `-->` is missing |
| ChunkSplitter.SelfClosingNeverOpens | src/scripts/migrate-wp/wp/chunk-splitter.ts:66 | a self-closing marker `<!-- wp:T /-->` is not an opening comment, so it never starts a block |
| ChunkSplitter.DetectBlockTypeFromHtml | src/scripts/migrate-wp/wp/chunk-splitter.ts:164-195 | the fallback type is never empty |
| ChunkSplitter.DetectFromHtmlSpec | src/scripts/migrate-wp/wp/chunk-splitter.ts:164-195 | the result is a known WordPress block type; it is `gallery` exactly when the HTML mentions `wp-block-gallery`, and `paragraph` exactly when it mentions none of the ten class markers |
| ChunkSplitter.DetectFromHtmlNoMarker | src/scripts/migrate-wp/wp/chunk-splitter.ts:194 | HTML without any `wp-block-` class is a paragraph |
| ChunkSplitter.NormalizeBlockType | src/scripts/migrate-wp/wp/chunk-splitter.ts:124-134 | the raw type is the result or `core/` followed by it; a type not starting with `core/` is unchanged |
| ChunkSplitter.NormalizeOnce | src/scripts/migrate-wp/wp/chunk-splitter.ts:126 | only one leading `core/` is removed: `core/core/list` becomes `core/list` |
| ChunkSplitter.ParseAttrs | src/scripts/migrate-wp/wp/chunk-splitter.ts:75-84 | absent or unparseable attribute text gives `{}`; a parsed object gives its fields |
| ChunkSplitter.CollectChunks | src/scripts/migrate-wp/wp/chunk-splitter.ts:68-96 | the `exec` loop pushes one chunk per match of the global search, numbered from 0 |
| ChunkSplitter.SplitIntoChunks | src/scripts/migrate-wp/wp/chunk-splitter.ts:62-110 | the chunks are those of every block in order followed by the trailing paragraph chunk (`Chunks`) |
| ChunkSplitter.ChunkIndicesConsecutive | src/scripts/migrate-wp/wp/chunk-splitter.ts:69-107 | the k-th chunk has index k, the leftover chunk included |
| ChunkSplitter.ChunksShape | src/scripts/migrate-wp/wp/chunk-splitter.ts:87-107 | one chunk per matched block with the normalized type, trimmed body and whole matched text, plus exactly one last `paragraph` chunk holding the trimmed leftover text when that is not blank |
| ChunkSplitter.TrimToken | src/scripts/migrate-wp/wp/chunk-splitter.ts:73 | trimming a type token changes nothing |
| ChunkSplitter.MalformedAttributesAreEmpty | src/scripts/migrate-wp/wp/chunk-splitter.ts:75-84 | a block whose attribute text is absent or does not parse gets `{}` and the scan goes on |
| Registry.LexicalSupportedTypes | src/scripts/migrate-wp/core/registry.ts:23-35 | `isLexicalSupported` holds exactly for paragraph, heading, list, quote, table and code (columns, column and image are listed as false) |
| Registry.GetCmsBlockMapping | src/scripts/migrate-wp/core/registry.ts:44-69 | the lookup yields a block exactly for the types the mapping lists |
| Registry.MappedTypesAreNotLexical | src/scripts/migrate-wp/core/registry.ts:23-69 | no mapped type is also natively supported |
| Registry.MappingTargets | src/scripts/migrate-wp/core/registry.ts:44-69 | no type maps to the media or banner block (the image mapping is commented out) |
| Registry.MappedWithoutBlockAsWritten | src/scripts/migrate-wp/core/registry.ts:135-137 | with `in`, an inherited member such as `constructor` counts as mapped while the mapping gives no block for it |
| Registry.MappedIffBlock | src/scripts/migrate-wp/core/registry.ts:119-137 | checking the mapping's own entries, "mapped" holds exactly when a block is returned; for any other name it agrees with `in` |
| Registry.PatternType | src/scripts/migrate-wp/core/registry.ts:75-89 | the pattern scan can only name YouTube embed, the three shortcodes or button |
| Registry.ButtonsImpliesButton | src/scripts/migrate-wp/core/registry.ts:87-88 | the pattern's second test adds nothing: text with `wp-block-buttons` has `wp-block-button` |
| Registry.EmbedProvider | src/scripts/migrate-wp/core/registry.ts:163-184 | an `embed` block's attributes can only turn it into a YouTube or VideoPress embed |
| Registry.DetectBlockType | src/scripts/migrate-wp/core/registry.ts:157-221 | the detected type is the declared one, a mapped one, or `paragraph` when nothing was declared; it is never empty |
| Registry.DetectKeepsMappedType | src/scripts/migrate-wp/core/registry.ts:187-204 | a mapped declared type is kept, except a `video` whose attributes mark it as VideoPress, which becomes a VideoPress embed |
| Registry.DetectYoutubeProvider | src/scripts/migrate-wp/core/registry.ts:163-170 | an `embed` whose `providerNameSlug` is `youtube` is a YouTube embed whatever its HTML |
| Registry.DetectYoutubeMention | src/scripts/migrate-wp/core/registry.ts:75-77 | any unmapped, non-embed, non-video block whose HTML mentions `youtu.be` becomes a YouTube embed (see also lines 207-217) |
| Registry.DetectFallback | src/scripts/migrate-wp/core/registry.ts:220 | without any signal the declared type stands, and an empty one becomes `paragraph` |
| Registry.GetConversionStrategy | src/scripts/migrate-wp/core/registry.ts:236-246 | `lexical` exactly for supported types, `cms-block` exactly for mapped ones, `custom` exactly for the rest |
| Registry.DetectedTypesRouteToBlocks | src/scripts/migrate-wp/core/registry.ts:157-246 | a detected type that differs from a non-empty declared one is always routed to a CMS block |
| ChunkDetector.Confidence | src/scripts/migrate-wp/wp/chunk-detector.ts:46-67 | the confidence is always one of 0.6, 0.7, 0.8, 0.9 and 0.95 |
| ChunkDetector.DetectChunk | src/scripts/migrate-wp/wp/chunk-detector.ts:33-76 | a detection names a non-empty type, carries a CMS slug exactly when it is a CMS block, and is never both natively supported and a CMS block |
| ChunkDetector.GetChunkStrategy | src/scripts/migrate-wp/wp/chunk-detector.ts:89-92 | the strategy is `getConversionStrategy` of the detected type |
| ChunkDetector.DetectionAgreesWithRegistry | src/scripts/migrate-wp/wp/chunk-detector.ts:35-44 | the type is `detectBlockType` of the chunk, and the support flag, block flag and slug are the registry's answers for that type |
| ChunkDetector.ConfidenceRule | src/scripts/migrate-wp/wp/chunk-detector.ts:47-67 | for an `embed`, 0.9 exactly when the HTML mentions YouTube and 0.6 otherwise; else 0.7 without a comment, and with one 0.95 exactly when the type was kept and 0.8 exactly when it was refined |
| ChunkDetector.BatchDetectChunks | src/scripts/migrate-wp/wp/chunk-detector.ts:105-107 | one detection per chunk, in the same order |
| ChunkDetector.FilterChunksByStrategy | src/scripts/migrate-wp/wp/chunk-detector.ts:121-126 | every chunk kept has the requested strategy |
| ChunkDetector.FilterExactly | src/scripts/migrate-wp/wp/chunk-detector.ts:121-126 | a chunk is kept exactly when it is in the input with that strategy, and filtering a concatenation filters each part, so the original order is kept |
| ChunkDetector.FiltersPartition | src/scripts/migrate-wp/wp/chunk-detector.ts:121-126 | the three strategy filters split the chunks: their sizes add up to the number of chunks |
| ChunkDetector.ValidateDetection | src/scripts/migrate-wp/wp/chunk-detector.ts:141-156 | a detection is valid exactly when its type is non-empty, whatever its confidence |
| ChunkDetector.DetectionsAreValid | src/scripts/migrate-wp/wp/chunk-detector.ts:33-76 | every detection `detectChunk` produces is valid (see also lines 141-156) |
| Extract.ImageRefOf | src/scripts/migrate-wp/media/extract.ts:27-42 | an `<img>` yields a reference exactly when its `src` is present and non-empty |
| Extract.ImageRefsShape | src/scripts/migrate-wp/media/extract.ts:33-41 | every reference is `pending`, has no media id, keeps its raw non-empty `src` and carries `normalizeImageUrl(src)` |
| Extract.ImageRefsAppend | src/scripts/migrate-wp/media/extract.ts:27-42 | the references of consecutive elements are those of each part in turn: document order is kept |
| Extract.ExtractImages | src/scripts/migrate-wp/media/extract.ts:23-45 | the loop returns one reference per `<img>` with a non-empty `src`, in document order (`ImageRefs`) |
| Extract.ExtractImagesFromChunks | src/scripts/migrate-wp/media/extract.ts:58-75 | the result is the references of all chunks in chunk order with later duplicates of a normalised URL dropped |
| Extract.ChunkImagesDistinctAndComplete | src/scripts/migrate-wp/media/extract.ts:58-75 | no two results share a `normalizedSrc`, every input `normalizedSrc` is represented, and the reference kept for a URL is its first occurrence |
| Extract.CollectCaptures | src/scripts/migrate-wp/media/extract.ts:93-105 | one pattern's `exec` loop pushes each captured id not yet present, so the ids stay the de-duplication of all captures so far |
| Extract.ExtractYouTubeIds | src/scripts/migrate-wp/media/extract.ts:89-108 | the ids are the captures of the watch/short, embed and shortcode patterns, in that order, de-duplicated keeping the first |
| Extract.YouTubeIdsAreDistinctVideoIds | src/scripts/migrate-wp/media/extract.ts:89-108 | the returned ids are pairwise distinct and each is 11 characters from `[a-zA-Z0-9_-]` |
| Extract.ExtractGalleryImages | src/scripts/migrate-wp/media/extract.ts:121-124 | one URL per extracted reference, the normalised `src`, in order and not de-duplicated |
| Extract.ReplaceAttrs | src/scripts/migrate-wp/media/extract.ts:149-157 | an element that is not an `<img>` with a non-empty `src` is left as it is |
| Extract.RestoreAttrs | src/scripts/migrate-wp/media/extract.ts:183-195 | an element that is not an `<img>` carrying `data-original-src` is left as it is |
| Extract.ReplaceImageUrls | src/scripts/migrate-wp/media/extract.ts:140-161 | the elements keep their number, order and tags; each one's attributes are rewritten by the single-element rule |
| Extract.RestoreImageUrls | src/scripts/migrate-wp/media/extract.ts:176-198 | the same for the restore rule |
| Extract.ReplaceThenRestore | src/scripts/migrate-wp/media/extract.ts:149-157 | replacing then restoring an image that got a placeholder sets `src` to the URL found for the placeholder (else for the normalised original) and drops `data-original-src`; with no URL found the placeholder and the original stay; every other attribute is unchanged (see also lines 183-195) |
| Extract.NoPlaceholderUntouched | src/scripts/migrate-wp/media/extract.ts:149-157 | an image that got no placeholder comes back from the round trip unchanged (see also lines 183-195) |
| Upload.StripStaging | src/scripts/migrate-wp/media/upload.ts:26 | the host with its first `.wpcomstaging` removed is never longer than the host |
| Upload.NormalizeImageUrl | src/scripts/migrate-wp/media/upload.ts:23-31 | a string that does not parse as an absolute URL is returned unchanged |
| Upload.NormalizeOnlyTouchesHost | src/scripts/migrate-wp/media/upload.ts:24-27 | for a URL that parses, the result parses back to the same scheme, user information, port, path, query and fragment, with only the staging suffix taken out of the host |
| Upload.NormalizeWithoutStaging | src/scripts/migrate-wp/media/upload.ts:23-31 | a URL without `.wpcomstaging` anywhere is returned unchanged |
| Upload.ContentType | src/scripts/migrate-wp/media/upload.ts:57 | a present, non-empty content-type header is used as it is (see also line 259) |
| Upload.FileNameOf | src/scripts/migrate-wp/media/upload.ts:70-71 | the file name is never empty: the last path segment, or the timestamped default (see also lines 272-273) |
| Upload.DownloadMedia | src/scripts/migrate-wp/media/upload.ts:45-82 | a successful download has a listed MIME type, a size within the kind's ceiling and a non-empty file name (see also lines 247-284) |
| Upload.DownloadAccepts | src/scripts/migrate-wp/media/upload.ts:49-71 | the download succeeds exactly when the response is ok, its content type is listed, its size is within the ceiling and the normalised URL parses (see also lines 251-273) |
| Upload.MissingTypeIsDefault | src/scripts/migrate-wp/media/upload.ts:57 | a missing content type becomes `image/jpeg` or `video/mp4`, and both are on the allowed lists (see also line 259) |
| Upload.FindByFilename | src/scripts/migrate-wp/media/upload.ts:101-111 | the result is the index of the first document with the file name, and nothing exactly when none has it |
| Upload.CheckExisting | src/scripts/migrate-wp/media/upload.ts:96-128 | an id returned belongs to a document carrying the file name |
| Upload.CheckExistingNone | src/scripts/migrate-wp/media/upload.ts:100-127 | nothing is returned exactly when the lookup fails, no document has the name, or the first one's id is `NaN` |
| Upload.MediaStore.CheckExistingMedia | src/scripts/migrate-wp/media/upload.ts:96-128 | the store's lookup returns `CheckExisting` of its documents: an id returned is the numeric id of a document with the file name, and nothing is returned exactly when the lookup fails, no document has the name, or the first such document's id is `NaN` |
| Upload.MediaStore.UploadMedia | src/scripts/migrate-wp/media/upload.ts:147-186 | a truthy existing id is returned and nothing is created; otherwise a create failure is returned and nothing is created; otherwise one document with the file name, the alt text (or the file name), MIME type and size is appended under the next id, which is returned; the new collection is `MediaAfter` of the old one |
| Upload.UploadIsIdempotent | src/scripts/migrate-wp/media/upload.ts:154-160 | after an upload, looking the file name up again finds the returned id, so uploading it again creates nothing (see also lines 166-181) |
| Upload.FindAfterAppend | src/scripts/migrate-wp/media/upload.ts:101-111 | a file name no document had is found at the appended document's index |
| Upload.MediaAfter | src/scripts/migrate-wp/media/upload.ts:162-177 | an upload never removes or changes a document already in the collection |
| Upload.UploadedIdIsStored | src/scripts/migrate-wp/media/upload.ts:154-181 | a successful upload returns the id of a document with the uploaded file name in the collection afterwards |
| Upload.ProcessRef | src/scripts/migrate-wp/media/upload.ts:206-229 | one reference is left as it is when skipped or already uploaded with an id, becomes `failed` without an id, or `uploaded` with an id; the collection only grows |
| Upload.ProcessRefUploads | src/scripts/migrate-wp/media/upload.ts:217-229 | a reference to process ends `uploaded` exactly when its download succeeds and the upload gives an id; that id is stored in the reference and names a document with the downloaded file name |
| Upload.ProcessAll | src/scripts/migrate-wp/media/upload.ts:206-230 | processing the references in order gives one outcome per reference, each as `ProcessRef` allows, and never loses a document |
| Upload.ProcessAllStep | src/scripts/migrate-wp/media/upload.ts:206-230 | processing one more reference processes it against the collection the earlier ones left |
| Upload.MapOfSnoc | src/scripts/migrate-wp/media/upload.ts:207-224 | one more reference sets its normalised URL to its id exactly when it is uploaded with an id, and otherwise leaves the map as it was |
| Upload.MapOfLastWins | src/scripts/migrate-wp/media/upload.ts:204-232 | a URL is a key exactly when some uploaded reference with an id has it, and its value is the id of the last such reference |
| Upload.MapKeysFromInputs | src/scripts/migrate-wp/media/upload.ts:200-233 | every key of the returned map is the normalised URL of one of the input references |
| Upload.MapOfEmpty | src/scripts/migrate-wp/media/upload.ts:204-232 | the map is empty exactly when no reference was uploaded with an id |
| Upload.ProcessImage | src/scripts/migrate-wp/media/upload.ts:206-229 | the new reference and the new collection are `ProcessRef` of the old collection; a skipped or already uploaded reference leaves the collection unchanged; the store's failure switches are unchanged |
| Upload.UploadImages | src/scripts/migrate-wp/media/upload.ts:200-233 | the array afterwards holds the references `ProcessAll` gives and the store holds its collection; the map is `MapOf` those references, so each key is an uploaded URL with the id of its last upload |
| HtmlUtils.KeptTokens | src/scripts/migrate-wp/converters/html-utils.ts:29 | no class token that is kept starts with `wp-` |
| HtmlUtils.SplitPiecesOccur | src/scripts/migrate-wp/converters/html-utils.ts:29 | every piece of a split occurs in the string that was split |
| HtmlUtils.CleanClassSpec | src/scripts/migrate-wp/converters/html-utils.ts:27-35 | attributes other than `class` are untouched; a class without `wp-` is left alone; otherwise the class becomes the kept tokens joined by spaces, or is removed when none is kept, and no remaining token starts with `wp-` |
| HtmlUtils.StripData | src/scripts/migrate-wp/converters/html-utils.ts:38-45 | no `data-wp-*` or `data-id` attribute remains |
| HtmlUtils.StripDataKeeps | src/scripts/migrate-wp/converters/html-utils.ts:40-44 | every other attribute keeps its value |
| HtmlUtils.CleanHtmlAsWritten | src/scripts/migrate-wp/converters/html-utils.ts:22-48 | every element keeps its tag and position, and its attributes are cleaned by the selectors as written (`[data-wp-]` matches only an attribute literally named `data-wp-`) |
| HtmlUtils.DataWpSurvivesAsWritten | src/scripts/migrate-wp/converters/html-utils.ts:38 | a `<div data-wp-interactive="core/navigation">` keeps that attribute through the cleaning as written |
| HtmlUtils.CleanHtml | src/scripts/migrate-wp/converters/html-utils.ts:22-48 | every element keeps its tag and position, and its attributes are cleaned by the class rule and by removing every `data-wp-*` and `data-id` attribute |
| HtmlUtils.CleanHtmlLeavesNoWpMarkup | src/scripts/migrate-wp/converters/html-utils.ts:22-48 | after cleaning no element has a `data-wp-*` or `data-id` attribute or a `wp-` class token, and every other attribute keeps its value |
| HtmlUtils.ElementsCons | src/scripts/migrate-wp/converters/html-utils.ts:152 | the elements of a node list are those of its first node followed by those of the rest |
| HtmlUtils.SanitizeLeavesNoScript | src/scripts/migrate-wp/converters/html-utils.ts:139-162 | no `<script>` element and no `on*` attribute remains anywhere |
| HtmlUtils.FilterTwice | src/scripts/migrate-wp/converters/html-utils.ts:154-158 | filtering twice by the same test is filtering once |
| HtmlUtils.SanitizeIdempotent | src/scripts/migrate-wp/converters/html-utils.ts:139-162 | sanitizing sanitized HTML changes nothing |
| HtmlUtils.StripHandlersKeeps | src/scripts/migrate-wp/converters/html-utils.ts:152-158 | every attribute whose name does not start with `on` keeps its value |
| HtmlUtils.SanitizeKeepsSafe | src/scripts/migrate-wp/converters/html-utils.ts:139-162 | sanitizing removes nothing else: HTML without scripts or `on*` attributes comes back unchanged |
| HtmlUtils.SanitizeKeepsText | src/scripts/migrate-wp/converters/html-utils.ts:139-162 | without scripts, the text of the HTML is the same after sanitizing |
| HtmlUtils.ExtractTextConcat | src/scripts/migrate-wp/converters/html-utils.ts:62-66 | the text of consecutive nodes is the text of each in turn |
| HtmlUtils.ExtractTextExample | src/scripts/migrate-wp/converters/html-utils.ts:56-59 | `<p>Hello <strong>world</strong></p>` reads as `Hello world` |
| HtmlUtils.RemoveEmpty | src/scripts/migrate-wp/converters/html-utils.ts:112-125 | removing empty elements never adds nodes at the top level |
| HtmlUtils.Shapes | src/scripts/migrate-wp/converters/html-utils.ts:116 | one tag and attribute list per element, in order |
| HtmlUtils.ShapesAppend | src/scripts/migrate-wp/converters/html-utils.ts:116 | the shapes of joined lists are the shapes of each list joined |
| HtmlUtils.NoElementsBelow | src/scripts/migrate-wp/converters/html-utils.ts:119 | a node list with no element child contains no element at any depth |
| HtmlUtils.RemoveEmptyDropsExactlyRemovable | src/scripts/migrate-wp/converters/html-utils.ts:112-125 | the elements left, in document order, are exactly those that were not an empty `p`, `div`, `span` or `h1`-`h6` without element children |
| HtmlUtils.RemoveEmptyInShapes | src/scripts/migrate-wp/converters/html-utils.ts:116-122 | the same, inside one element that is kept |
| HtmlUtils.VisibleOfBlank | src/scripts/migrate-wp/converters/html-utils.ts:118 | text made only of white space has no visible characters |
| HtmlUtils.RemoveEmptyKeepsText | src/scripts/migrate-wp/converters/html-utils.ts:112-125 | removing empty elements does not change the visible text |
| HtmlUtils.RemoveEmptyIsSinglePass | src/scripts/migrate-wp/converters/html-utils.ts:116-122 | the removal is one pass over the elements as first selected: `<div><p></p></div>` becomes `<div></div>`, and only a second pass removes that |
| HtmlUtils.CreateElementName | src/scripts/migrate-wp/converters/html-utils.ts:86 | `createElement` accepts exactly the tags that are XML names, giving `InvalidCharacterError` otherwise, and the local name is the tag in ASCII lower case |
| HtmlUtils.WrapContent | src/scripts/migrate-wp/converters/html-utils.ts:82-98 | a tag that is not an XML name gives `InvalidCharacterError`; otherwise the body becomes the single wrapper element, named by the lower-cased tag, holding the whole original content |
| HtmlUtils.WrapperTagFolded | src/scripts/migrate-wp/converters/html-utils.ts:86 | tags equal up to ASCII case give the same wrapper (`DIV` gives `div`), and tags with a space or a leading digit are refused |
| HtmlUtils.WrapperKeepsContent | src/scripts/migrate-wp/converters/html-utils.ts:82-98 | the wrapped body has the same text, its elements are the wrapper followed by the original elements, and the wrapper has a class exactly when a non-empty class name was given |
| HtmlUtils.Names | src/scripts/migrate-wp/converters/html-utils.ts:183 | the attribute names, one per attribute, in order |
| HtmlUtils.ExtractAttributes | src/scripts/migrate-wp/converters/html-utils.ts:176-189 | the map is empty when there is no element; its keys are exactly the first element's attribute names, each holding the value of that name's last occurrence; with distinct names the keys keep attribute order |
| HtmlUtils.ExtractedAttributesAgree | src/scripts/migrate-wp/converters/html-utils.ts:176-189 | for distinct attribute names, looking a name up in the map agrees with reading the attribute |
| Lexical.Span | src/scripts/migrate-wp/converters/lexical.ts:32-33 | a column or row span is at least 1 (see also lines 38-39) |
| Lexical.SpanOfNumber | src/scripts/migrate-wp/converters/lexical.ts:32-39 | a span written as an integer keeps it when it is above 1 and is 1 otherwise |
| Strings.ToNumberOfInt | src/scripts/migrate-wp/media/upload.ts:179 | `Number` reads a rendered integer back as that integer |
| Strings.ToNumberOfBlank | src/scripts/migrate-wp/media/upload.ts:116 | `Number` reads blank text, the empty string included, as 0 |
| Lexical.CellTextClean | src/scripts/migrate-wp/converters/lexical.ts:31 | cell text has no leading or trailing white space, no two white-space characters in a row, and only plain spaces |
| Lexical.TextNode | src/scripts/migrate-wp/converters/lexical.ts:54-62 | a `text` node without children carrying the given text |
| Lexical.CellParagraph | src/scripts/migrate-wp/converters/lexical.ts:44-65 | the cell paragraph has no children exactly when the text is empty, and otherwise one text node with that text |
| Lexical.TableCell | src/scripts/migrate-wp/converters/lexical.ts:29-67 | a `tablecell` whose header state is 1 exactly for `th`, whose spans are at least 1, and whose only child is the paragraph of the cell text |
| Lexical.CellsOf | src/scripts/migrate-wp/converters/lexical.ts:23-28 | only `td` and `th` children are kept |
| Lexical.TableRow | src/scripts/migrate-wp/converters/lexical.ts:22-74 | a `tablerow` with one cell per `td`/`th` child, in order |
| Lexical.ConvertTable | src/scripts/migrate-wp/converters/lexical.ts:20-81 | a `table` node with one row per `tr` below the table, in document order |
| Lexical.TablesInCons | src/scripts/migrate-wp/converters/lexical.ts:95 | the tables of a node list are those of its first node followed by those of the rest |
| Lexical.TablesInElement | src/scripts/migrate-wp/converters/lexical.ts:95 | the tables of an element are itself, when it is a table, followed by those below it |
| Lexical.PlaceholderInjective | src/scripts/migrate-wp/converters/lexical.ts:106 | different table indices give different placeholders |
| Lexical.FirstDirectBound | src/scripts/migrate-wp/converters/lexical.ts:113-114 | a figure is replaced by the placeholder of one of its own tables |
| Lexical.PlaceholderParagraphHasNoTable | src/scripts/migrate-wp/converters/lexical.ts:117-119 | the placeholder paragraph contains no table |
| Lexical.NoTableLeft | src/scripts/migrate-wp/converters/lexical.ts:105-127 | after the placeholder loop no table is left anywhere in the document |
| Lexical.NoTablesUntouched | src/scripts/migrate-wp/converters/lexical.ts:105-127 | a document without tables is left as it is |
| Lexical.TableNodes | src/scripts/migrate-wp/converters/lexical.ts:105-130 | one table node per table in the document |
| Lexical.Placed | src/scripts/migrate-wp/converters/lexical.ts:105-126 | the k-th table is converted and recorded under the k-th placeholder with index k |
| Lexical.TableNodesDistinct | src/scripts/migrate-wp/converters/lexical.ts:126-130 | the table nodes carry pairwise different placeholders in increasing index order, so the sort changes nothing |
| Lexical.PlacedSnoc | src/scripts/migrate-wp/converters/lexical.ts:126 | placing one more table appends exactly its entry |
| Lexical.PlaceTables | src/scripts/migrate-wp/converters/lexical.ts:101-127 | the loop records the k-th table converted under the k-th placeholder |
| Lexical.ExtractTablesFromHtml | src/scripts/migrate-wp/converters/lexical.ts:89-136 | without tables the HTML comes back unchanged with no table nodes; otherwise the document after the placeholder loop, and one table node per table |
| Lexical.FirstContained | src/scripts/migrate-wp/converters/lexical.ts:151-155 | the first placeholder the text contains, and nothing exactly when it contains none |
| Lexical.FindPlaceholder | src/scripts/migrate-wp/converters/lexical.ts:145-168 | any placeholder found is one of those searched for |
| Lexical.FindInChildren | src/scripts/migrate-wp/converters/lexical.ts:158-165 | an answer from the children is an accepted (non-empty) placeholder |
| Lexical.FirstHit | src/scripts/migrate-wp/converters/lexical.ts:145-168 | the placeholder found in the first text containing one; nothing exactly when no text contains any |
| Lexical.FirstHitAppend | src/scripts/migrate-wp/converters/lexical.ts:158-165 | searching joined text lists answers from the first list when it has a hit, else from the second |
| Lexical.FindPlaceholderIsFirstHit | src/scripts/migrate-wp/converters/lexical.ts:145-168 | with non-empty placeholders the recursive search finds the first placeholder in the first text node, in pre-order, that contains one |
| Lexical.FindInChildrenIsFirstHit | src/scripts/migrate-wp/converters/lexical.ts:158-165 | the same over a list of children |
| Lexical.PlaceholdersNonEmpty | src/scripts/migrate-wp/converters/lexical.ts:106 | every placeholder of the table nodes is non-empty, so every hit is accepted |
| Lexical.Placeholders | src/scripts/migrate-wp/converters/lexical.ts:185 | one placeholder per table node, in order |
| Lexical.TableFor | src/scripts/migrate-wp/converters/lexical.ts:199 | the table node carrying the placeholder, and nothing exactly when none does |
| Lexical.MergeTables | src/scripts/migrate-wp/converters/lexical.ts:177-239 | an object stays an object and a scalar stays a scalar |
| Lexical.MergeChildTakesTable | src/scripts/migrate-wp/converters/lexical.ts:195-202 | a child holding a placeholder is replaced by the table node of that placeholder |
| Lexical.MergeChildrenKeepsCount | src/scripts/migrate-wp/converters/lexical.ts:188-219 | one merged child per truthy child, in order; falsy scalar children are dropped |
| Lexical.MergeWithoutTables | src/scripts/migrate-wp/converters/lexical.ts:177-239 | with no table nodes, a tree without falsy children comes back unchanged |
| Lexical.MergeChildrenWithoutTables | src/scripts/migrate-wp/converters/lexical.ts:188-219 | the same for a list of truthy children |
| Lexical.UploadNode | src/scripts/migrate-wp/converters/lexical.ts:361-369 | a version 3 upload node of the `media` collection holding the id, no longer pending |
| Lexical.ReplacePending | src/scripts/migrate-wp/converters/lexical.ts:347-413 | a pending upload with a truthy id becomes an upload node with that id and one without becomes the empty paragraph; every other node keeps its type and properties |
| Lexical.ReplacePendingSettles | src/scripts/migrate-wp/converters/lexical.ts:347-413 | after the pass no pending upload is left and no node has a null child |
| Lexical.ReplacePendingChildrenSettle | src/scripts/migrate-wp/converters/lexical.ts:386-392 | the same for a list of children |
| Lexical.ReplacePendingKeepsSettled | src/scripts/migrate-wp/converters/lexical.ts:347-413 | a tree without pending uploads or null children comes back unchanged |
| Lexical.ReplacePendingChildrenKeepSettled | src/scripts/migrate-wp/converters/lexical.ts:386-392 | the same for a list of children |
| Lexical.ReplacePendingIdempotent | src/scripts/migrate-wp/converters/lexical.ts:347-413 | running the pass twice gives what running it once gives |
| Lexical.MarkImage | src/scripts/migrate-wp/converters/lexical.ts:276-289 | an `img` with a non-empty `src` whose key maps to a truthy id gets `data-media-id` set to that id; every other attribute, and every other element, is unchanged |
| Lexical.MarkMediaIds | src/scripts/migrate-wp/converters/lexical.ts:276-291 | every element keeps its tag and position and gets its attributes from `MarkImage` |
| Lexical.LexNodes | src/scripts/migrate-wp/converters/lexical.ts:324 | one converted node per Lexical child, in order |
| Lexical.LexicalResult | src/scripts/migrate-wp/converters/lexical.ts:257-338 | no warnings; success exactly when there are no errors; a failure has no nodes and exactly one error |
| Lexical.ConvertToLexical | src/scripts/migrate-wp/converters/lexical.ts:257-338 | the conversion of a chunk is `LexicalResult` of its HTML: no warnings; success exactly when there are no errors; a failure has no nodes and exactly one error; every node is Lexical |
| Lexical.LexicalResultPlain | src/scripts/migrate-wp/converters/lexical.ts:265-328 | for HTML without tables whose converted root has no pending uploads or falsy children, the result is the root's children, with success and no errors |
| Lexical.PathStagingKeysDiffer | src/scripts/migrate-wp/converters/lexical.ts:281 | for a URL with `.wpcomstaging` in its path but not its host, normalising leaves it unchanged while the key as written cuts the path (see also line 357) |
| Lexical.StripStagingKeeps | src/scripts/migrate-wp/media/upload.ts:26 | a host without `.wpcomstaging` is not changed by normalising |
| Lexical.PathInSerialized | src/scripts/migrate-wp/converters/lexical.ts:281 | text in a URL's path is text in the URL |
| Lexical.MarkKeyAsWrittenSkipsUploadedImage | src/scripts/migrate-wp/converters/lexical.ts:276-288 | with the key as written, the image pass leaves an uploaded image whose path holds `.wpcomstaging` without `data-media-id`; with the normalised key it is marked |
| Lexical.UploadedImageMarked | src/scripts/migrate-wp/converters/lexical.ts:276-288 | with the normalised key every uploaded image is marked: an `img` whose normalised `src` maps to a truthy id gets that id as `data-media-id` |
| Lexical.PendingKeyAsWrittenDropsUploadedImage | src/scripts/migrate-wp/converters/lexical.ts:357-383 | with the key as written, an uploaded image whose path holds `.wpcomstaging` is turned into an empty paragraph; with the normalised key it becomes an upload of its id |
| Lexical.PathStagingKeysLookUp | src/scripts/migrate-wp/converters/lexical.ts:357-358 | the key as written misses the map entry, the normalised key finds it |
| Lexical.PendingNodeReplaced | src/scripts/migrate-wp/converters/lexical.ts:356-383 | a pending node whose lookup misses becomes the empty paragraph; one whose lookup hits becomes an upload of that id |
| Lexical.UploadedImageResolves | src/scripts/migrate-wp/converters/lexical.ts:356-369 | with the normalised key every uploaded image resolves: a pending upload whose normalised `src` maps to a truthy id becomes an upload node with that id |
| Lexical.ExampleUrlHasPathStaging | src/scripts/migrate-wp/converters/lexical.ts:357 | `https://cdn.example.com/a.wpcomstaging/b.jpg` is a well-formed URL with the suffix in its path and not in its host |
| UnsupportedBlocks.UrlYoutubeId | src/scripts/migrate-wp/converters/unsupported-blocks.ts:38-42 | an id taken from the `url` attribute is an 11-character YouTube video id |
| UnsupportedBlocks.YoutubeId | src/scripts/migrate-wp/converters/unsupported-blocks.ts:32-57 | the first id found in the HTML wins; with none there and no `url` attribute there is no id; any id is a valid video id |
| UnsupportedBlocks.ConvertYouTube | src/scripts/migrate-wp/converters/unsupported-blocks.ts:25-81 | success exactly when an id is found, giving one `youtubeBlock` with the watch URL of that id; otherwise the failure "Could not extract YouTube video ID" |
| UnsupportedBlocks.WrapperUrl | src/scripts/migrate-wp/converters/unsupported-blocks.ts:457-466 | a URL taken from the embed wrapper is non-empty and starts with `http://` or `https://` |
| UnsupportedBlocks.ConvertVideopress | src/scripts/migrate-wp/converters/unsupported-blocks.ts:441-505 | success exactly when there is a `url` attribute, an http(s) wrapper text or a `guid`; the block holds the first of these in that order, the `guid` as a videopress.com URL; otherwise the failure "Could not extract VideoPress URL" |
| UnsupportedBlocks.Anchors | src/scripts/migrate-wp/converters/unsupported-blocks.ts:202 | only `<a>` elements are collected (see also line 207) |
| UnsupportedBlocks.ButtonLinks | src/scripts/migrate-wp/converters/unsupported-blocks.ts:201-218 | only links are turned into buttons, and there are none exactly when the document has no `<a>` at all |
| UnsupportedBlocks.ButtonFields | src/scripts/migrate-wp/converters/unsupported-blocks.ts:224-256 | a button links to the `href` or to `#`, opens a new tab exactly for `target="_blank"`, carries the trimmed text as label exactly when it is non-empty, and is outlined exactly when the container, the link or the chunk's class asks for it |
| UnsupportedBlocks.ButtonMaker | src/scripts/migrate-wp/converters/unsupported-blocks.ts:223-264 | applied to any link, gives that link's `buttonBlock` |
| UnsupportedBlocks.ButtonNodes | src/scripts/migrate-wp/converters/unsupported-blocks.ts:223-264 | one button per link, in order |
| UnsupportedBlocks.ButtonStep | src/scripts/migrate-wp/converters/unsupported-blocks.ts:229-233 | processing one more link adds its warning exactly when it has no `href` |
| UnsupportedBlocks.ButtonsFor | src/scripts/migrate-wp/converters/unsupported-blocks.ts:220-264 | the loop yields one button per link and one warning per link without `href`, in order |
| UnsupportedBlocks.ConvertButton | src/scripts/migrate-wp/converters/unsupported-blocks.ts:190-291 | the result is `ButtonResult` of the parsed chunk: success exactly when there is a link, a failure is "No button link found" without warnings, and one `buttonBlock` per link |
| UnsupportedBlocks.ButtonsPerLink | src/scripts/migrate-wp/converters/unsupported-blocks.ts:190-291 | the conversion succeeds exactly when the document has a link; it then gives one `buttonBlock` per selected link |
| UnsupportedBlocks.OneWarningPerMissingHref | src/scripts/migrate-wp/converters/unsupported-blocks.ts:229-233 | there is exactly one warning per link without `href` |
| UnsupportedBlocks.NumberPerRow | src/scripts/migrate-wp/converters/unsupported-blocks.ts:143-144 | a truthy `columns` attribute gives its text, anything else `"3"` |
| UnsupportedBlocks.PendingImage | src/scripts/migrate-wp/converters/unsupported-blocks.ts:116-121 | each gallery URL becomes a pending reference that the upload will process, keyed by the URL itself |
| UnsupportedBlocks.PendingImages | src/scripts/migrate-wp/converters/unsupported-blocks.ts:116-121 | one pending reference per gallery URL, in order |
| UnsupportedBlocks.GalleryStep | src/scripts/migrate-wp/converters/unsupported-blocks.ts:95-173 | the result is well shaped; a failure leaves the shared map as it was; it succeeds exactly when the gallery has URLs and the upload map is not empty |
| UnsupportedBlocks.GalleryUploads | src/scripts/migrate-wp/converters/unsupported-blocks.ts:95-173 | no URLs fail with "No images found in gallery" and change nothing; the gallery succeeds exactly when some image is uploaded with an id; the uploaded keys are gallery URLs, each with the id of its last upload |
| UnsupportedBlocks.GallerySucceeds | src/scripts/migrate-wp/converters/unsupported-blocks.ts:114-139 | the gallery succeeds exactly when some image of the upload has an id |
| UnsupportedBlocks.GalleryKeysAreUrls | src/scripts/migrate-wp/converters/unsupported-blocks.ts:115-123 | every URL the gallery upload maps is one of the gallery's URLs |
| UnsupportedBlocks.UploadGalleryImages | src/scripts/migrate-wp/converters/unsupported-blocks.ts:116-123 | the returned map is `MapOf` the processed gallery references and the store holds the collection their processing gives |
| UnsupportedBlocks.ConvertGallery | src/scripts/migrate-wp/converters/unsupported-blocks.ts:95-173 | the result, the new collection and the new shared map are `GalleryStep` of the old collection and map |
| UnsupportedBlocks.VideoElementSrc | src/scripts/migrate-wp/converters/unsupported-blocks.ts:320-323 | a `src` taken from a `<video>` is non-empty |
| UnsupportedBlocks.VideoUrl | src/scripts/migrate-wp/converters/unsupported-blocks.ts:311-338 | the `url` attribute wins when present; any URL found is non-empty |
| UnsupportedBlocks.VideoFailure | src/scripts/migrate-wp/converters/unsupported-blocks.ts:384-393 | a failed download or upload gives no nodes and no success |
| UnsupportedBlocks.VideoOutcome | src/scripts/migrate-wp/converters/unsupported-blocks.ts:366-393 | success exactly when the upload yields an id |
| UnsupportedBlocks.VideoResult | src/scripts/migrate-wp/converters/unsupported-blocks.ts:304-427 | every outcome is well shaped: failures carry no nodes, successes one block and no errors |
| UnsupportedBlocks.VideoMedia | src/scripts/migrate-wp/converters/unsupported-blocks.ts:366-383 | the collection after `convertVideo` only grows |
| UnsupportedBlocks.VideoSucceeds | src/scripts/migrate-wp/converters/unsupported-blocks.ts:304-427 | a YouTube URL is refused; a video block comes out exactly when a non-YouTube URL is found, downloaded and uploaded, and it holds the uploaded id |
| UnsupportedBlocks.ConvertVideo | src/scripts/migrate-wp/converters/unsupported-blocks.ts:304-427 | the result is `VideoResult` and the new collection `VideoMedia` of the collection as it was |
| UnsupportedBlocks.ColumnOf | src/scripts/migrate-wp/converters/unsupported-blocks.ts:549-597 | a converted column's root passes the merged-structure check, and a column converted with a warning has the empty root |
| UnsupportedBlocks.Extend | src/scripts/migrate-wp/converters/unsupported-blocks.ts:548-598 | a converted column appends its root; a failed one records its error and adds nothing |
| UnsupportedBlocks.Collect | src/scripts/migrate-wp/converters/unsupported-blocks.ts:548-598 | when no column failed there is one root per column |
| UnsupportedBlocks.ColumnOutcomes | src/scripts/migrate-wp/converters/unsupported-blocks.ts:548-598 | one outcome per column, every converted one valid |
| UnsupportedBlocks.CollectStep | src/scripts/migrate-wp/converters/unsupported-blocks.ts:548-598 | gathering one more outcome after a run without errors extends that run by it |
| UnsupportedBlocks.FailedColumnStays | src/scripts/migrate-wp/converters/unsupported-blocks.ts:548-598 | once a column has failed the later columns change nothing: the first error is the one reported |
| UnsupportedBlocks.CollectValid | src/scripts/migrate-wp/converters/unsupported-blocks.ts:548-598 | every gathered root passes the merged-structure check |
| UnsupportedBlocks.ColumnCount | src/scripts/migrate-wp/converters/unsupported-blocks.ts:601 | the count is at most six; without a truthy `columns` attribute it is the number of columns found, capped at six; with one it is `Number` of the attribute, capped at six, or `NaN` when that is no number (see also line 607) |
| UnsupportedBlocks.ColumnCountOf | src/scripts/migrate-wp/converters/unsupported-blocks.ts:601-607 | a non-zero `columns` number, or its decimal text, gives that number capped at six; a zero gives the number of columns found, capped at six |
| Json.NumberValueOfNumber | src/scripts/migrate-wp/converters/unsupported-blocks.ts:601 | `Number` of a JSON number, and of its decimal text, is that number |
| UnsupportedBlocks.ConvertColumn | src/scripts/migrate-wp/converters/unsupported-blocks.ts:549-597 | one column's outcome is `ColumnOf`: a converted column's root passes the merged-structure check, and a column with issues is the empty root |
| UnsupportedBlocks.ConvertColumns | src/scripts/migrate-wp/converters/unsupported-blocks.ts:522-625 | the result is `ColumnsResult` of the chunk |
| UnsupportedBlocks.ColumnsShape | src/scripts/migrate-wp/converters/unsupported-blocks.ts:522-625 | no columns fail with "No columns found in columns block"; a success is one `columnsBlock` with one valid root per column and at most six columns |
| UnsupportedBlocks.Unsupported | src/scripts/migrate-wp/converters/unsupported-blocks.ts:659-665 | an unsupported type fails with exactly one warning and one error and no nodes |
| UnsupportedBlocks.ConvertWithoutUploads | src/scripts/migrate-wp/converters/unsupported-blocks.ts:640-665 | YouTube, VideoPress, button and columns mappings give their converter's result; no mapping, or a mapping to a block with no converter, is reported as unsupported |
| UnsupportedBlocks.BlockOf | src/scripts/migrate-wp/converters/unsupported-blocks.ts:633-667 | only a gallery changes the shared map and only a gallery or a video changes the collection |
| UnsupportedBlocks.BlockShaped | src/scripts/migrate-wp/converters/unsupported-blocks.ts:633-667 | whatever the mapping, the result is well shaped |
| UnsupportedBlocks.ConvertUnsupportedBlock | src/scripts/migrate-wp/converters/unsupported-blocks.ts:633-667 | the result, the new collection and the new shared map are `BlockOf` of the old ones, so each mapped block gets its converter's result; the result is well shaped, and a type without a mapping gives `Unsupported` |
| HtmlEngine.DetectedChunk | src/scripts/migrate-wp/converters/html-engine.ts:34-40 | the chunk handed on carries the detected type and keeps its HTML, attributes, comment and index |
| HtmlEngine.ChunkStep | src/scripts/migrate-wp/converters/html-engine.ts:29-94 | a chunk that uploads nothing leaves the collection and the shared map as they were |
| HtmlEngine.ChunkStepFits | src/scripts/migrate-wp/converters/html-engine.ts:29-94 | the result has the shape of the chunk's strategy |
| HtmlEngine.RunAll | src/scripts/migrate-wp/converters/html-engine.ts:108-129 | one result per chunk, and the shared map stays a valid map |
| HtmlEngine.RunAllStep | src/scripts/migrate-wp/converters/html-engine.ts:108-129 | converting one more chunk extends the run by that chunk's step, against the collection and map the earlier chunks left |
| HtmlEngine.RunAllFits | src/scripts/migrate-wp/converters/html-engine.ts:108-129 | every result of the run fits its chunk |
| HtmlEngine.AllFitSnoc | src/scripts/migrate-wp/converters/html-engine.ts:114-117 | a result that fits its chunk extends a run of results that fit theirs |
| HtmlEngine.FailedChunkHasNoNodes | src/scripts/migrate-wp/converters/html-engine.ts:29-94 | whatever the strategy, a failed chunk contributes no nodes |
| HtmlEngine.ConvertChunk | src/scripts/migrate-wp/converters/html-engine.ts:29-94 | the result, the new collection and the new shared map are `ChunkStep` of the old ones; the result fits its chunk; a chunk that uploads nothing changes neither |
| HtmlEngine.ConvertChunks | src/scripts/migrate-wp/converters/html-engine.ts:108-129 | the results, the collection and the shared map are `RunAll` of the chunks from the old state: one result per chunk, in order, each fitting its chunk |
| HtmlEngine.Prefixed | src/scripts/migrate-wp/converters/html-engine.ts:172 | each message is prefixed with `[Chunk <index>] `, one for one (see also line 175) |
| HtmlEngine.GatherStep | src/scripts/migrate-wp/converters/html-engine.ts:166-181 | gathering one more result adds it to the tally of the earlier ones |
| HtmlEngine.SucceededSnoc | src/scripts/migrate-wp/converters/html-engine.ts:170-173 | a success extends a run of successes |
| HtmlEngine.AbortedAtSnoc | src/scripts/migrate-wp/converters/html-engine.ts:174-180 | the first failure after a run of successes is the one the conversion aborts on, with its message |
| HtmlEngine.ConvertChunksWithStats | src/scripts/migrate-wp/converters/html-engine.ts:144-204 | the results so far, the collection and the shared map are `RunAll` of the chunks converted; every result fits its chunk; with `continueOnError` the call always returns the combined result; without it, it returns exactly when every chunk succeeded and otherwise aborts on the first failure |
| HtmlEngine.GatherCounts | src/scripts/migrate-wp/converters/html-engine.ts:159-203 | every chunk is counted once, as successful or as failed, and none is skipped |
| HtmlEngine.GatherNodes | src/scripts/migrate-wp/converters/html-engine.ts:170-171 | the nodes are those of the successful chunks, concatenated in chunk order |
| HtmlEngine.GatherMessages | src/scripts/migrate-wp/converters/html-engine.ts:170-176 | warnings come only from successful chunks and errors only from failed ones, each behind its chunk's prefix |
| MergeLexical.NodeKinds | src/scripts/migrate-wp/utils/merge-lexical.ts:25-42 | no node is both Lexical and a block; every Payload block is a block and not Lexical; a Lexical object is Lexical exactly when it has a `type` and no `blockType` |
| MergeLexical.BlockDataOf | src/scripts/migrate-wp/utils/merge-lexical.ts:108-112 | the block data keeps the node, and takes the generated id and the empty name unless the node has its own |
| MergeLexical.CreateLexicalRoot | src/scripts/migrate-wp/utils/merge-lexical.ts:55-66 | a `root` with direction `ltr` whose children are drawn from those given and all pass `isLexicalNode`; when every child passes, all are kept in order |
| MergeLexical.KeptChildren | src/scripts/migrate-wp/utils/merge-lexical.ts:59 | the filter keeps only given children, and keeps them all when they all pass |
| MergeLexical.FilterAll | src/scripts/migrate-wp/utils/merge-lexical.ts:59 | filtering keeps everything when everything passes |
| MergeLexical.ChildrenKept | src/scripts/migrate-wp/utils/merge-lexical.ts:99-127 | every child `mergeNodes` collects passes the root's filter, so none is lost there (see also line 59) |
| MergeLexical.CollectedStep | src/scripts/migrate-wp/utils/merge-lexical.ts:99-127 | one more node: a Lexical node adds itself, a block adds its data to the references and its wrapper to the children, anything else adds nothing |
| MergeLexical.MergeNodes | src/scripts/migrate-wp/utils/merge-lexical.ts:95-139 | the loop's result is `MergeResult` of the nodes |
| MergeLexical.FirstPrimitive | src/scripts/migrate-wp/utils/merge-lexical.ts:99-100 | the loop throws at the first node that is not an object, every node before it being one (the `in` of line 26 throws there) |
| MergeLexical.FirstPrimitiveUnique | src/scripts/migrate-wp/utils/merge-lexical.ts:99-100 | a primitive with only objects before it is that first node |
| MergeLexical.RefsAreCmsInputs | src/scripts/migrate-wp/utils/merge-lexical.ts:103-115 | the k-th reference is made from the k-th block of the input with the k-th generated id |
| MergeLexical.WrappersAreRefs | src/scripts/migrate-wp/utils/merge-lexical.ts:115-126 | the `block` wrappers among the children hold exactly the references, in the same order |
| MergeLexical.PlainsAreLexicalInputs | src/scripts/migrate-wp/utils/merge-lexical.ts:100-102 | the Lexical children are exactly the Lexical inputs, in order and unchanged |
| MergeLexical.ChildCount | src/scripts/migrate-wp/utils/merge-lexical.ts:99-128 | one child per Lexical or block input; nodes of neither kind give none |
| MergeLexical.MergeReferences | src/scripts/migrate-wp/utils/merge-lexical.ts:130-138 | merging objects succeeds, the root holds the collected children, and `blockReferences` is present exactly when the input has a block |
| MergeLexical.MergeNodesPreservingOrder | src/scripts/migrate-wp/utils/merge-lexical.ts:152-174 | all-null input gives the empty root without references; every merged result passes `validateMergedStructure`; the merge fails exactly when a non-null primitive is among the nodes (see also lines 189-203) |
| MergeLexical.NoneLeft | src/scripts/migrate-wp/utils/merge-lexical.ts:157-160 | the filter leaves nothing exactly when every entry is null |
| MergeLexical.PrimitiveKept | src/scripts/migrate-wp/utils/merge-lexical.ts:157 | after the filter only objects and non-null primitives remain, so only the latter can make `in` throw |
| MigrateWp.Htmls | src/scripts/migrate-wp.ts:67 | the HTML of each chunk, one for one, in order |
| MigrateWp.Srcs | src/scripts/migrate-wp.ts:68-78 | the normalised URL of each image, one for one, in order |
| MigrateWp.UploadPostImages | src/scripts/migrate-wp.ts:62-80 | the map is `MapOf` the processed post images and the store holds the collection their processing gives; its keys are URLs of the post's images; with no images nothing is uploaded and the map is empty |
| MigrateWp.Prepare | src/scripts/migrate-wp.ts:62-80 | with images skipped, the collection is unchanged and the map empty |
| MigrateWp.MigratePost | src/scripts/migrate-wp.ts:44-227 | the chunks are the splitter's; no chunks gives `null` and touches nothing; the results are `RunAll` over the prepared collection and map; a dry run writes nothing; a run that returns and is not dry writes post 4 with the post's title and slug and the merged document of the gathered nodes, and returns what the write gives: the stored post's numeric id, or the write's error |
| MigrateWp.Publish | src/scripts/migrate-wp.ts:107-217 | a merge that throws is the result and nothing is written; a dry run writes nothing and returns `null`; otherwise post 4 is written with the title, the slug and the merged document, and the result is the written post's numeric id or the write's error |
| MigrateWp.CountersStep | src/scripts/migrate-wp.ts:287-321 | one more post adds its chunks, its images and one success or one failure to the counters |
| MigrateWp.NoneThrewStep | src/scripts/migrate-wp.ts:291-320 | a post that returned extends a run of posts none of which threw |
| MigrateWp.Migrate | src/scripts/migrate-wp.ts:248-340 | no posts give all-zero counters; a run that returns reports the counters of all posts; it returns exactly when `continueOnError` is set or no post threw; otherwise it rethrows the first post's exception |
| MigrateWp.CountersAddUp | src/scripts/migrate-wp.ts:287-334 | every post counts once, as a success or a failure, and every failure is one error |
| MigrateWp.SkippedImagesNotCounted | src/scripts/migrate-wp.ts:297-301 | with images skipped no image is counted |
| LegacyHelper.ImagesOfAppend | src/scripts/migrate-posts/helper/index.tsx:227-236 | collecting the images of two runs of `<img>` elements is the concatenation of collecting each run |
| LegacyHelper.ImagesOfSnoc | src/scripts/migrate-posts/helper/index.tsx:228-234 | visiting one more element appends at most that element's image, in document order |
| LegacyHelper.ExtractImagesFromHtml | src/scripts/migrate-posts/helper/index.tsx:222-237 | the loop collects, in document order, exactly the images of the `<img>` elements of the parsed document |
| LegacyHelper.ImagesMatchReferences | src/scripts/migrate-posts/helper/index.tsx:222-237 | the legacy extraction yields the same sources and alt texts, in the same order, as the current pipeline's image-reference extraction |
| LegacyHelper.DuplicatesKept | src/scripts/migrate-posts/helper/index.tsx:228-234 | the same image twice is collected twice: duplicates are not removed |
| LegacyHelper.Download | src/scripts/migrate-posts/helper/index.tsx:125-151 | a successful download always has a non-empty file name |
| LegacyHelper.DownloadAcceptsMore | src/scripts/migrate-posts/helper/index.tsx:129-140 | the legacy download succeeds exactly when the response is ok and the normalised URL parses (no content-type or size check), and it agrees with the current download wherever that one succeeds |
| LegacyHelper.ReusesIdZero | src/scripts/migrate-posts/helper/index.tsx:172-182 | an existing document with id 0 is reused with id 0, where the current upload creates a new document instead |
| LegacyHelper.AgreesWithCurrent | src/scripts/migrate-posts/helper/index.tsx:160-214 | apart from an existing id 0, the legacy upload gives the same outcome as the current one |
| LegacyHelper.MediaAfter | src/scripts/migrate-posts/helper/index.tsx:199-210 | uploading never removes or changes a document already in the media collection |
| LegacyHelper.UploadedIdIsStored | src/scripts/migrate-posts/helper/index.tsx:160-214 | a successful upload returns the id of a document that is in the collection afterwards |
| LegacyHelper.UploadImageToPayload | src/scripts/migrate-posts/helper/index.tsx:154-219 | the method returns the specified outcome and leaves the collection in the specified state: existing documents are kept, and one document is added only when no reusable one exists and creation succeeds |
| LegacyHelper.SrcsOf | src/scripts/migrate-posts/helper/index.tsx:428-437 | the set holds exactly the sources of the listed images |
| LegacyHelper.SrcsOfSnoc | src/scripts/migrate-posts/helper/index.tsx:428-437 | one more image adds exactly its source to the set |
| LegacyHelper.ProcessImageRecords | src/scripts/migrate-posts/helper/index.tsx:428-437 | processing one image keeps every existing media document, and every key of the image map afterwards is a processed source that names a stored document |
| LegacyHelper.ProcessAllRecords | src/scripts/migrate-posts/helper/index.tsx:426-437 | after the loop every key of the image map is the source of one of the images and maps to the id of a document in the media collection, and no earlier document was lost |
| LegacyHelper.NothingDownloaded | src/scripts/migrate-posts/helper/index.tsx:428-437 | when every download fails, the loop uploads nothing and the image map stays as it was: failures are swallowed, not raised |
| LegacyHelper.ProcessImages | src/scripts/migrate-posts/helper/index.tsx:426-437 | the loop over the images leaves the media collection and the image map as the specification of the whole run says |
| LegacyHelper.TableTagFrom | src/scripts/migrate-posts/helper/index.tsx:318 | the scan finds a match exactly when `<table` followed by whitespace or `>` occurs, case-insensitively, at some position from the start index on |
| LegacyHelper.TableDocument | src/scripts/migrate-posts/helper/index.tsx:378-413 | the document's root has exactly three children: an empty paragraph, the converted table and another empty paragraph |
| LegacyHelper.TableBranch | src/scripts/migrate-posts/helper/index.tsx:318-322 | the table path is taken exactly when the HTML mentions a table tag and the parsed document holds a table, and then it uses the first table |
| LegacyHelper.PendingLookupAgrees | src/scripts/migrate-posts/helper/index.tsx:250-254 | with no empty-string key in the map, the legacy lookup of a pending source gives the same id as the current pipeline's lookup |
| LegacyHelper.Finish | src/scripts/migrate-posts/helper/index.tsx:449-463 | a converter output that is not an object fails with "Invalid lexical JSON returned from converter", a missing or falsy root fails with "Lexical JSON missing root property", and otherwise the result is the root with its pending uploads replaced |
| LegacyHelper.FinishSettles | src/scripts/migrate-posts/helper/index.tsx:240-308 | a successful conversion leaves no pending upload anywhere in the tree |
| LegacyHelper.HtmlToLexicalContent | src/scripts/migrate-posts/helper/index.tsx:311-464 | HTML with a table is converted by the table path and the media collection is left untouched; otherwise the images are processed first and the result is the checked converter output with pending uploads replaced through the resulting image map |
| MockData.MockPosts | src/scripts/migrate-wp/wp/mock-data.ts:146-244 | the fixture is a single post with id 1 whose content is the sample block markup |
| MockData.Limit | src/scripts/migrate-wp/wp/mock-data.ts:257-262 | the result is always a prefix of the posts; a positive limit keeps the first `limit` posts (all of them when fewer), and a missing or non-positive limit keeps everything |
| MockData.GetMockPosts | src/scripts/migrate-wp/wp/mock-data.ts:257-262 | the listed posts are always a prefix of the fixture |
| MockData.Find | src/scripts/migrate-wp/wp/mock-data.ts:275-277 | the first post with the asked id is found, and nothing is found exactly when no post has that id |
| MockData.SampleSource | src/scripts/migrate-wp/wp/mock-data.ts:257-277 | the sample source finds a post for id 1 only, returns the fixture's one post for it, and lists that post whatever the limit |
| MockData.LimitTwice | src/scripts/migrate-wp/wp/mock-data.ts:257-262 | applying two positive limits one after the other is the same as applying the smaller one |
| PreviewPath.EncodedCategory | src/lib/generate-preview-path.ts:22 | a category is encoded exactly when it is present and non-empty |
| PreviewPath.PostPath | src/lib/generate-preview-path.ts:24-29 | the post path is `/blog/<category>/<slug>` when an encoded category is present and non-empty, and `/blog/<slug>` otherwise |
| PreviewPath.PathSegments | src/lib/generate-preview-path.ts:24-29 | when the encoded slug and category hold no `/`, splitting the path on `/` gives back exactly the segments `""`, `blog`, the category if any, and the slug |
| PreviewPath.PreviewParams | src/lib/generate-preview-path.ts:31-41 | the query holds slug, collection, path and preview secret (empty when unset) in that order, plus `categorySlug` last exactly when there is a category |
| PreviewPath.GeneratePreviewPath | src/lib/generate-preview-path.ts:14-46 | a path is produced exactly when a slug is given (an empty slug included), and it is the preview route followed by the serialised parameters |
| PreviewPath.CategoryParamIffCategory | src/lib/generate-preview-path.ts:22-41 | the `categorySlug` parameter is present exactly when the given category is non-empty, and then it holds the encoded category |
| MediaUrl.GetMediaUrl | src/lib/get-media-url.ts:9-21 | the URL is empty exactly when the file name is missing or empty; otherwise it is an absolute http(s) URL ending in the file name, the name itself when already absolute, else the name under the media bucket |
| MediaUrl.GetMediaUrlIdempotent | src/lib/get-media-url.ts:9-21 | resolving a resolved URL again changes nothing, whatever the cache tags |
| ImageLoader.NormalizeSrc | src/lib/image-loader.ts:5-7 | the result is the source with at most one leading `/` removed, and it differs from the source exactly when the source starts with `/` |
| ImageLoader.LoaderParams | src/lib/image-loader.ts:10-18 | the parameters start with the width and end with `format=auto`, with a quality parameter between them exactly when a non-zero quality is given |
| ImageLoader.SourcePart | src/lib/image-loader.ts:20-34 | a source starting with `http` is appended as it is; any other source loses at most its leading `/` |
| ImageLoader.CloudflareLoader | src/lib/image-loader.ts:9-38 | the URL is the image host and resize path, the comma-joined parameters, `/` and the source part, so it always begins with the image host, resize path and width |
| VideoIds.RunLen | src/blocks/youtube-block/component.tsx:16 | the run counted from a position holds only id characters and stops at the end of the text or at the first other character: the greedy `[a-zA-Z0-9_-]+` |
| VideoIds.FirstMatchFrom | src/blocks/youtube-block/component.tsx:16 | the position found is a match of the prefix followed by an id character, and no earlier position from the start matches; nothing is found only when no position matches |
| VideoIds.Capture | src/blocks/youtube-block/component.tsx:16-17 | a capture exists exactly when the prefix occurs followed by an id character, and it is a non-empty run of id characters |
| VideoIds.CaptureAfter | src/blocks/youtube-block/component.tsx:16-17 | when the first match of the prefix is followed by an id and then the end or a non-id character, the capture is exactly that id |
| YoutubeBlock.ExtractVideoId | src/blocks/youtube-block/component.tsx:12-33 | empty input gives nothing; any id found is made of id characters; a short link wins over the other forms; with no short, watch or embed link, an id is found exactly when the trimmed input is eleven id characters, and it is that trimmed input |
| YoutubeBlock.WatchUrlRoundTrip | src/blocks/youtube-block/component.tsx:12-33 | the block extracts back the id from the watch URL the migration builds for it (unsupported-blocks.ts line 58) |
| YoutubeBlock.BareIdRoundTrip | src/blocks/youtube-block/component.tsx:27-30 | an eleven-character id given on its own is returned as it is |
| VideopressBlock.ExtractVideoId | src/blocks/videopress-block/component.tsx:12-25 | empty input gives nothing; any id found is made of id characters; a `videopress.com/v/` link gives the id after it; without one, an id is found exactly when the trimmed input is made of id characters, and it is that trimmed input |
| VideopressBlock.GuidUrlRoundTrip | src/blocks/videopress-block/component.tsx:12-25 | the block extracts back the guid from the URL the migration builds for it (unsupported-blocks.ts line 471), whatever query follows |
| VideopressBlock.SampleEmbedUrlId | src/blocks/videopress-block/component.tsx:15-17 | the embed URL of the sample post's video yields its guid `lfrcFm6E` |
| Urls.ParseThenSerialize | src/scripts/migrate-wp/media/upload.ts:23-31 | a URL that parses serialises back to exactly the text it came from, and its parts are those a parsed URL can have |
| Urls.SerializeThenParse | src/scripts/migrate-wp/media/upload.ts:23-31 | a well-formed URL serialises to a text that parses back to the same parts |
| JsMaps.SetEachValues | src/scripts/migrate-wp/converters/unsupported-blocks.ts:154-156 | copying the uploaded entries into the shared map keeps every other key, adds every copied key, and gives each copied key its uploaded id |
| JsMaps.MapObject.SetAll | src/scripts/migrate-wp/converters/unsupported-blocks.ts:154-156 | the shared map afterwards is the old map with the source's entries set one by one, in the source's insertion order |

## Left out

- Network and storage I/O is not modelled. `fetch` is a function from URL to response. `payload.find`/`create` are the media store class, with switches for a failing lookup or create. The bytes of a download are modelled only by their length.
- The post write in `migratePost` (`payload.update`) is the `written` out-parameter: the update it would send, to post id 4 as the source always does (src/scripts/migrate-wp.ts:134-141), with the title, the slug and the merged document. The `persisted` parameter stands for what that call gives back.
- JSDOM parsing and serialisation are parameters (`parseHtml`, `serializeHtml`). The model works on the `Dom` tree they return, not on markup text.
- The Lexical converter (`convertHTMLToLexical` with `editorConfigFactory`) is a parameter that returns a converter output. Its editor configuration plays no part.
- `encodeURIComponent` and `URLSearchParams` serialisation are parameters of `PreviewPath.GeneratePreviewPath`, and `process.env.PREVIEW_SECRET` is an optional argument.
- Regular expressions are not modelled in general. Each pattern the code uses is a hand-written scanner with the same leftmost, greedy matching.
- `Date.now` and `Math.random` ids are not modelled. Block ids and upload-node ids come from parameters (a sequence of generated ids, or one generated id), and the file-name fallback takes the clock as a `now` parameter.
- ProcessAll (`Upload.ProcessAll`, `LegacyHelper.ProcessAll`): one `now` serves a whole batch, and the gallery and post uploads pass it on too, while the source reads `Date.now()` on every download (src/scripts/migrate-wp/media/upload.ts:71 and :273, src/scripts/migrate-posts/helper/index.tsx:140). So two images whose URL path ends in `/` both get the name `image-<now>.jpg` in the model (two such videos `video-<now>.mp4`), and the second reuses the first one's document through `checkExistingMedia`; in the source they get different names unless both downloads fall in the same millisecond.
- Json (`Json.JNum`): numbers in block attributes are integers. A fractional value such as `{"columns":2.5}` cannot be represented, although `JSON.parse` gives 2.5 and `Math.min` keeps it (src/scripts/migrate-wp/converters/unsupported-blocks.ts:601-607).
- `processingTime` and every log line (`console`, the logger) are not modelled.
- ConvertColumns (`UnsupportedBlocks.ConvertColumns`): the columns are converted one after another in column order, while the source converts them concurrently under `Promise.all`. There, the column warnings are pushed in the order the conversions finish, and when several columns throw, the error reported is the first rejection in time. The model gives the warnings in column order and reports the error of the first failing column.
- ReplacePending (`Lexical.ReplacePending`): the `Promise.all` over the children is sequential in the model. The lookups do not change the map, so the result is the same.
- StrAttr (`Json.StrAttr`): where the code reads an attribute `as string` and goes on only when it is truthy, a number, boolean, array or object counts as absent in the model. The cast does nothing at run time, so the source would pass such a value on to string operations (`match`, `includes`, `startsWith`, template literals), where it throws or prints as `String` gives it.
- ToNumber (`Strings.ToNumber`): `Number(...)` of text is modelled for integers only: surrounding whitespace is ignored, blank text is 0, and decimal digits with an optional sign are read. Fractions, exponents, hexadecimal, binary and octal prefixes and `Infinity` read as `NaN`, although `Number` accepts them. This governs table spans (src/scripts/migrate-wp/converters/lexical.ts:32-33), the `columns` count (src/scripts/migrate-wp/converters/unsupported-blocks.ts:601) and document ids read as text (src/scripts/migrate-wp/media/upload.ts:116, 179, 335 and src/scripts/migrate-wp.ts:219): a text id such as `1e3` is taken as `NaN` where the source reads 1000, and a span of `2.5` is 1 where the source keeps 2.5. Fractional limits for `getMockWPPosts` are not modelled (the limit is an integer).
- HtmlEngine.ConvertChunk: the `default` arm for an unknown strategy and the `catch` arm are not modelled. The three strategies are exhaustive in the model, and the collaborators are total functions.
- The `catch` in the `convertChunksWithStats` loop is not modelled. It adds a second error and a second failure for a chunk that already failed, but only on the path that rethrows, so those counts never reach a caller.
- The `No valid buttons found` branch of `convertButton` is not modelled because it cannot be reached: a non-empty list of links always gives one button per link (`UnsupportedBlocks.ButtonsPerLink`).
- The `throw` in `migratePost` when `validateMergedStructure` fails is not modelled because it cannot be reached: every successful merge validates (the contract of `MergeLexical.MergeNodesPreservingOrder`).
- MergeTables (`Lexical.MergeTables`): descends only into `children` arrays. The source also recurses into every other object or array field of a node (src/scripts/migrate-wp/converters/lexical.ts:222-238). In the model the other fields are plain JSON values, so a table placeholder nested in such a field is left in place where the source would replace it.
- ReplacePending (`Lexical.ReplacePending`): descends only into `children` arrays. The source also recurses into every other object or array field of a node (src/scripts/migrate-wp/converters/lexical.ts:394-412), so a pending upload nested in such a field is resolved by the source and left as it is by the model.
- DetectBlockType (`Registry.DetectBlockType`): uses the corrected mapping test of the first Findings row (the mapping's own entries only). With the source's `in` test, a declared type named after an inherited member such as `constructor` counts as mapped.
- GetConversionStrategy (`Registry.GetConversionStrategy`): the same corrected test, so such a type gets the custom strategy here and the Payload-block strategy in the source.
- DetectChunk (`ChunkDetector.DetectChunk`): the same corrected test, so `isCmsBlock` is false for such a type here and true in the source.
- ConvertUnsupportedBlock (`UnsupportedBlocks.ConvertUnsupportedBlock`): switches on `getCMSBlockMapping`, as the source does, so its result agrees with the source's: an inherited name such as `constructor` has no CMS block in either and reaches the `Unsupported block type` arm. Its columns run the corrected `ColumnOf`.
- LexicalResult (`Lexical.LexicalResult`): uses the corrected definitions of the second, third and fourth Findings rows: `cleanHTML` removes every `data-wp-*` attribute; the image pass (`Lexical.MarkMediaIds`, src/scripts/migrate-wp/converters/lexical.ts:281) and the pending-upload lookup (src/scripts/migrate-wp/converters/lexical.ts:357) both key by `normalizeImageUrl` of the `src` (`Lexical.MediaKey`), not by `src.replace('.wpcomstaging', '')` (`Lexical.MediaKeyAsWritten`). For a URL whose path, not its host, holds `.wpcomstaging`, the model marks and resolves the image where the source leaves it unmarked and turns it into an empty paragraph.
- ConvertToLexical (`Lexical.ConvertToLexical`): is `LexicalResult`, so it uses the same corrected definitions, the image pass included.
- ColumnOf (`UnsupportedBlocks.ColumnOf`): converts each column with the corrected `LexicalResult`, so a column's image pass, cleaning and pending lookup are the corrected ones.
- ConvertColumn (`UnsupportedBlocks.ConvertColumn`): is `ColumnOf`, so it carries the same corrections.
- ConvertColumns (`UnsupportedBlocks.ConvertColumns`): runs the corrected `ColumnOf` on every column.
- ConvertChunk (`HtmlEngine.ConvertChunk`): runs the corrected strategy test and the corrected `LexicalResult`.
- ConvertChunks (`HtmlEngine.ConvertChunks`): runs the corrected `ConvertChunk` on every chunk.
- ConvertChunksWithStats (`HtmlEngine.ConvertChunksWithStats`): runs the corrected `ConvertChunk` on every chunk.
- MigratePost (`MigrateWp.MigratePost`): runs the corrected chunk conversions, so its results and the written document are those of the corrected pipeline.
- Migrate (`MigrateWp.Migrate`): the outcome of each post is a function of the post alone, so two identical posts in one run always get the same outcome. In the source media uploaded for the first post is found again for the second, which can change its outcome.
- `MockData` takes the fixture's block markup as a parameter (`content`). Only the fixture's shape (one post, id 1) is modelled, not its text.
- LegacyHelper.HtmlToLexicalContent: the result is the converted root, not the `{ root }` wrapper. The pending-upload pass descends only into `children` arrays, not into other object or array fields of a node.
- The collection of `generatePreviewPath` is fixed to `posts`, the only entry of its prefix table.
- `new URL(...)` is modelled only for absolute URLs with an authority (`scheme://host…`), serialised without canonicalisation (no case folding, default-port removal or percent-encoding). Anything else counts as a string that does not parse.
- The framework and UI code is not modelled: the Payload configuration, collections and hooks, SQL migrations, React components, block schema files, the WordPress REST client and the top-level call to `migrate`.

## Findings

| source | as written | input that shows it | evidently intended | confidence | as-written member | corrected member |
|---|---|---|---|---|---|---|
| src/scripts/migrate-wp/core/registry.ts:135-137 | `blockType in UNSUPPORTED_MAPPING` also holds for names the object inherits, such as `constructor` or `toString` | `hasCMSBlockMapping('constructor')` is true while `getCMSBlockMapping('constructor')` gives no CMS block | a type has a mapping exactly when the table itself has an entry for it | not executed | Registry.MappedWithoutBlockAsWritten | Registry.MappedIffBlock |
| src/scripts/migrate-wp/converters/html-utils.ts:38 | the selector `[data-wp-]` matches only an attribute literally named `data-wp-`, so elements that carry only `data-wp-*` attributes are never visited | `<div data-wp-interactive="core/navigation">` keeps its attribute after `cleanHTML` | every `data-wp-*` attribute is removed, as the loop's `startsWith('data-wp-')` test intends | not executed | HtmlUtils.DataWpSurvivesAsWritten | HtmlUtils.CleanHtmlLeavesNoWpMarkup |
| src/scripts/migrate-wp/converters/lexical.ts:281 | the image pass keys its lookup by `src.replace('.wpcomstaging', '')`, while the image map is keyed by `normalizeImageUrl`, which removes the suffix from the host only | an uploaded image at `https://cdn.example.com/a.wpcomstaging/b.jpg` is looked up as `https://cdn.example.com/a/b.jpg` and gets no `data-media-id` | the lookup uses the same normalisation as the map, so every uploaded image is marked with its media id | not executed | Lexical.MarkKeyAsWrittenSkipsUploadedImage | Lexical.UploadedImageMarked |
| src/scripts/migrate-wp/converters/lexical.ts:357 | the pending-upload key is `src.replace('.wpcomstaging', '')`, which removes the first occurrence anywhere in the URL, while the image map is keyed by `normalizeImageUrl`, which removes it from the host only | an uploaded image at `https://cdn.example.com/a.wpcomstaging/b.jpg` is keyed under the unchanged URL, looked up as `https://cdn.example.com/a/b.jpg`, and replaced by an empty paragraph | the lookup uses the same normalisation as the map, so every uploaded image resolves to its media id | not executed | Lexical.PendingKeyAsWrittenDropsUploadedImage | Lexical.UploadedImageResolves |
