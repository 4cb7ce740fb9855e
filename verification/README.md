# exitwp in Dafny

A model of the core of `exitwp.py`, the converter that turns a WordPress
XML export into a Jekyll site. The model covers:

- reading each `<item>` into an item record through the namespaced field
  accessor `gi`;
- filtering its categories and tags into taxonomies;
- the per-item steps of `write_jekyll`:
  - the field filter that skips items;
  - the YAML front matter;
  - routing by item type to `_posts`, `_drafts/attachments` or the page tree;
  - the identifier cache `get_item_uid`;
  - the walk up a page's parents;
  - the output file name (`get_item_path`);
  - the attachment registry `get_attachment_path`;
  - the renamed, de-duplicated taxonomy block;
- the whole item loop as a fold over the export's items.

The item loop composes the corrected versions of the two defects listed
under "## Findings": the identifier cache `Identifiers.Resolve` and the
download loop `Emit.PlaceImages`. The `Emit` rows for the loop therefore
describe the program as its authors intended. The code as written is
modelled beside them, by `Identifiers.ResolveAsWritten` and
`Emit.PlaceImagesAsWritten`, and is not run through the loop.

Everything is pure: the caches `item_uids` and `attachments` are values
threaded through the loop. The libraries the converter calls are not
modelled. These are the regular-expression body rewrites, BeautifulSoup,
the date functions, `urlparse`/`splitext`, the attachment link template and
html2text. Each is a function-typed field of `Items.Collaborators`, which the
model takes as a parameter. Uncaught Python exceptions become the `Failure`
case of `Base.Result`, and `Base.Fault` names the exception.

Modules, in dependency order:

| module | file | what it holds |
|---|---|---|
| `Base` | base.dfy | `Option`, `Result`, the faults |
| `Seqs` | seqs.dfy | `NoDups`, `FirstIndex`, order-keeping `Dedup`, `Reverse` |
| `Decimal` | decimal.dfy | `str(n)` and `int(s)` on decimal text |
| `Strings` | strings.dfy | `strip`, character filters, the title sanitiser, the `?p=` rewrite |
| `Candidates` | candidates.dfy | the "first free numbered name" search both caches use |
| `Tables` | tables.dfy | two-level string tables and their invariants |
| `Fields` | fields.dfy | `gi` and `parse_header` |
| `Taxonomy` | taxonomy.dfy | category filtering and the front-matter taxonomy remap |
| `Items` | items.dfy | the item record, the configuration, `parse_items` |
| `Identifiers` | identifiers.dfy | `get_item_uid`, both as intended and as written |
| `Attachments` | attachments.dfy | `get_attachment_path` |
| `Paths` | paths.dfy | `get_blog_path`, `get_item_path`, the parent walk |
| `Emit` | emit.dfy | the body of the `write_jekyll` item loop and the loop itself |

Two details of the code shape the model:

- The identifier sanitiser replaces only the space character with `_`.
  Tabs, newlines and other whitespace are dropped by the `[^a-zA-Z0-9_-]`
  filter like any other disallowed character.
- Every call of `get_item_uid` uses the one namespace `''`. Posts,
  attachments, pages and page parents therefore share a single identifier
  table. `Identifiers.Resolve` takes the namespace as a parameter, and
  `Emit` always passes `""`.

## Model

| member | source | states |
|---|---|---|
| Fields.Lookup | exitwp.py:119-135 | An undeclared prefix raises the uncaught `KeyError` (`UnknownPrefix`). A present child with text gives its stripped text. A missing child, or one without text, gives `No Content Found`, or `""` when `empty` is set. |
| Fields.SplitQualified | exitwp.py:122-125 | A name splits at its first colon only when that colon is not the first character. Otherwise the whole name is a tag of the default namespace. |
| Fields.FieldText | exitwp.py:119-135 | `gi(q)` fails exactly when the prefix it splits off is undeclared, and then names that prefix. |
| Fields.QualifiedSplit | exitwp.py:122-123 | `p:t`, with `p` non-empty and colon-free, splits into exactly `p` and `t`. |
| Fields.ParseHeader | exitwp.py:93-98 | The header exists exactly when the channel and its three children exist. Each value is the child's text, or `None` as text, unstripped. |
| Items.FieldIsGi | exitwp.py:119-135 | The per-field reader used by the model is `gi` on the qualified name: it fails iff the prefix is undeclared, and otherwise agrees with `gi`. |
| Items.MissingPrefix | exitwp.py:137-171 | When some prefix an item needs is undeclared, the read trips over the first missing one in read order: `content`, then `excerpt`, then `wp`, then `dc`. It names `excerpt` only when `content` is declared, `wp` only when both are, and `dc` exactly when the other three are. |
| Items.BaseItem | exitwp.py:137-177 | The record read from an item, field by field: `title` and `link` from the default namespace, `author` from `dc:creator`, `date` from `wp:post_date_gmt` with the `wp:post_date` fallback, `slug`, `status`, `type`, `wp_id` and `parent` from their `wp:` fields, `comments` iff the status text is `open`, the filtered taxonomies, the rewritten body, the `excerpt:encoded` text (empty allowed), the images found in the rewritten body, and no attachment URL. |
| Items.WithAttachment | exitwp.py:178-189 | An attachment keeps every field except the body and gains its URL path. With a template configured, the body gets in front the template filled with the item's title and URL path, passed through the body rewrites; without one it is unchanged. |
| Items.AttachmentBodySplits | exitwp.py:178-189 | An attachment's body splits back into the text put in front (the rewritten link, or nothing without a template) and the body it had before. |
| Items.BuildItem | exitwp.py:162-189 | Only attachments carry a URL, the `urlparse` path of `wp:attachment_url`. Images come from the rewritten body before any link is prepended. The body is the rewritten content, and for an attachment with a template it is preceded by the rewritten link built from the item's title and URL path. |
| Items.ParseItem | exitwp.py:103-191 | Reading an item fails iff one of its namespace prefixes is undeclared or neither `wp:post_date_gmt` nor `wp:post_date` parses (the uncaught `ValueError` of the fallback at lines 156-160). A missing `content`, `excerpt` or `wp` gives `UnknownPrefix` naming the first of them. With those three present, an unparseable date gives `BadDate`, even when `dc` is missing too, because `dc:creator` is read after the dates. Otherwise the read gives the built record. |
| Items.ReadAll | exitwp.py:100-193 | Reading a list item by item succeeds iff every item reads, and then gives one result per item in order. On failure the fault is that of the first item that does not read. |
| Items.ParseItems | exitwp.py:100-193 | One record per item, in document order, each the item's own read. The whole read fails iff some item fails, and then with the fault of the first such item. |
| Taxonomy.Insert | exitwp.py:115-117 | Adding a value under a domain creates the domain at the end if it is new, appends the value (or skips a repeat when asked), and leaves other domains unchanged. |
| Taxonomy.GroupSpec | exitwp.py:105-117 | Grouping lists each name once, in first-seen order. Under each name it keeps all its values in order, or the first occurrences only in de-duplicating mode. |
| Taxonomy.KeptPairsMembership | exitwp.py:106-114 | A (domain, entry) pair is kept iff some category has that domain and text, its domain is not filtered, and its entry is not the filtered entry of its domain. |
| Taxonomy.FilterCategoriesSpec | exitwp.py:104-117 | Each domain appears once. Under it are exactly the kept entries, in document order and with repeats. A filtered domain has no entries. |
| Taxonomy.FilterCategoriesMembership | exitwp.py:104-117 | An entry is listed under a domain iff a category with that domain attribute and that text passes both filters. |
| Taxonomy.MappedValuesMembership | exitwp.py:388-390 | A value reaches output name `n` iff some group whose domain maps to `n` holds it. |
| Taxonomy.RemapSpec | exitwp.py:387-395 | Each output name appears once. Its list is the order-keeping de-duplication of the values of every domain mapped to it, so it has no repeats. A value is listed iff some group mapped to that name holds it. |
| Seqs.Dedup | exitwp.py:393-395 | De-duplication keeps exactly the elements of its input, each once. |
| Seqs.DedupOrder | exitwp.py:391-395 | De-duplication keeps first occurrences in their original order. |
| Seqs.DedupOfDistinct | exitwp.py:393-395 | A list without repeats passes through de-duplication unchanged. |
| Strings.Strip | exitwp.py:127 | `strip()` gives the slice of the text between its leading and trailing whitespace: the slice neither starts nor ends with whitespace, everything cut before and after it is whitespace, and it is `""` iff the text is all whitespace. |
| Strings.StripIdempotent | exitwp.py:127 | Stripping twice is stripping once. |
| Strings.SanitizeGivesSlug | exitwp.py:250-251 | A sanitised title holds only `[a-zA-Z0-9_-]`. |
| Strings.SanitizeCounts | exitwp.py:250-251 | A sanitised title holds one `_` per `_` or space of the title, and every other allowed character as often as the title does. Nothing else survives. |
| Strings.SanitizeKeepsSlugs | exitwp.py:250-251 | A title already made of slug characters is its own sanitised form. |
| Strings.SanitizeIdempotent | exitwp.py:250-251 | Sanitising twice is sanitising once. |
| Strings.SanitizeAppend | exitwp.py:250-251 | The sanitiser works character by character: sanitising a concatenation concatenates the sanitised parts. |
| Strings.RewriteQueryRemovesAll | exitwp.py:327 | After `re.sub(r'\?p=', 'archives/', link)` the link contains no `?p=`. |
| Strings.RewriteQueryKeepsPlain | exitwp.py:327 | A link without `?p=` is left unchanged. |
| Strings.RewriteQueryReplaces | exitwp.py:327 | The first `?p=` of a link becomes `archives/`: the text before it is kept, and the text after it is rewritten in turn. |
| Decimal.ParseInt | exitwp.py:331 | `int()` succeeds exactly on optionally signed decimal text with at least one digit, and the result has the sign of the text. |
| Decimal.ParseIntRoundTrip | exitwp.py:331 | `int(str(x)) == x` for every integer. |
| Decimal.DigitsOfNat | exitwp.py:257 | The decimal text of `n` reads back as `n`. |
| Decimal.NatToStringInjective | exitwp.py:257 | Different counters give different suffix texts. |
| Candidates.FirstFree | exitwp.py:255-257 | The collision search stops at the first counter whose name is unused. Every earlier counter's name was in use. |
| Candidates.CandidateInjective | exitwp.py:257 | Different counters give different `base_n` names. |
| Identifiers.NameSource | exitwp.py:245-249 | The identifier text is the slug, else the title, else `untitled`; it is `untitled` when slug and title are both empty. |
| Identifiers.DatePrefix | exitwp.py:234-244 | A dated identifier starts `YYYY-MM-DD-`, and continues with `<wp_id>-` exactly when ids are prefixed. |
| Identifiers.BaseUidShape | exitwp.py:233-253 | An identifier starts with its date prefix. After it come only slug characters, from the sanitised slug, else the sanitised title, else `untitled`. |
| Identifiers.Disambiguate | exitwp.py:253-259 | The chosen identifier is not already handed out in its namespace, and is the base itself when the base is free. |
| Identifiers.DisambiguateFirst | exitwp.py:254-257 | A taken base gets the smallest `_n`, with n from 2, that is free. Every smaller suffix is taken. |
| Identifiers.Resolve | exitwp.py:225-260 | The answer is recorded for the item in its namespace. A cached item gets its cached identifier and the cache does not change. |
| Identifiers.ResolveFresh | exitwp.py:232-259 | An uncached item gets the first free form of its base, distinct from every identifier of its namespace. Only its own entry is added. |
| Identifiers.ResolveKeeps | exitwp.py:225-260 | The cache only grows, and identifiers stay distinct inside each namespace. |
| Identifiers.ResolveIdempotent | exitwp.py:230-231 | Resolving the same id a second time gives the same identifier and leaves the cache alone, whatever base is offered. |
| Identifiers.ResolveSeparates | exitwp.py:225-260 | Two different ids resolved in turn in one namespace get different identifiers. |
| Identifiers.ResolveAsWritten | exitwp.py:225-260 | The cache as the code is written: a cached id is answered from the cache. An uncached id whose base is not a key is answered with the base and nothing is stored. An uncached id whose base is a key gets `base_n` for the smallest n ≥ 2 whose name is neither a key nor the outer loop's id. It is stored under the outer loop's id: that is the item's own id in the main loop, and another item's while a page's parents are walked. |
| Identifiers.AsWrittenStoresUnderLoopItem | exitwp.py:253-259 | As written, resolving page `2` with slug `about` against a table whose key is `about`, while the outer loop is on item `7`, gives `about_2`, stores it under `7`, and stores nothing under `2`. |
| Identifiers.AsWrittenCollides | exitwp.py:253-259 | As written, pages `1` and `2` with slug `about` both get `about`. The intended cache gives the second `about_2`. |
| Attachments.FileRoot | exitwp.py:286-287 | An empty file root becomes `1`; any other root is kept. |
| Attachments.PlaceAttachment | exitwp.py:274-293 | A known source keeps its file name and the registry is unchanged. A new source gets `root+ext` when free, else `root-k+ext` for the first free k ≥ 1, never a name already used in its folder. The registry grows and stays one-to-one per folder. |
| Attachments.PlaceIdempotent | exitwp.py:280-281 | Asking again for a placed source returns the same name and changes nothing. |
| Attachments.SameBaseNameSeparated | exitwp.py:288-293 | Two sources sharing the base name `a.png` in one folder get `a.png` and `a-1.png`. |
| Paths.DropScheme | exitwp.py:209 | `^https?` removes `https` when present, else `http`, else nothing, and leaves a suffix of the link. |
| Paths.BlogName | exitwp.py:207-210 | The blog folder name keeps exactly the `[A-Za-z0-9_.-]` characters of the link with its scheme removed, each as often as there, and nothing else. |
| Emit.SiteOf | exitwp.py:207-211 | An export's site lies below the build folder, in `jekyll/<blog name of the channel link>`, and holds the export's items and link. |
| Emit.PostUnderBuildDir | exitwp.py:207-211 | A post of an export is written to `<build>/jekyll/<blog name of the channel link>/_posts/<uid>.<fmt>`. |
| Paths.BlogDir | exitwp.py:207-211 | The blog folder is the build folder, then `jekyll`, then the blog name. |
| Paths.BlogNameOfHost | exitwp.py:207-210 | For `https://<host>` with a host of folder-name characters, the folder name is the host. |
| Paths.ItemFile | exitwp.py:262-272 | An item file lies below `<blog>/<dir>`. A page gets `<uid>/index.<fmt>`; anything else gets `<uid>.<fmt>`. |
| Paths.ItemFileSeparates | exitwp.py:262-272 | Different identifiers in one folder give different files. |
| Paths.FindIndex | exitwp.py:360-361 | The position found is that of the first item with the id; no position is found exactly when no item has it. |
| Paths.FindById | exitwp.py:360-361 | `next(...)` gives an item with the id that no earlier item shares, and gives none exactly when no item has it. |
| Paths.AncestorsChain | exitwp.py:357-365 | The parent walk lists export items, each the parent of the one before. It stops at a parent `0`, at a missing parent, or at the bound. |
| Paths.AncestorsStable | exitwp.py:359-365 | A walk that ended below the bound gives the same parents with any larger bound. |
| Paths.ClimbPushesAncestors | exitwp.py:357-365 | The loop as written resolves the identifiers of the page's parents, nearest first, each put in front of the path. |
| Paths.ClimbFromTop | exitwp.py:357-366 | The folders of a page are the identifiers of its parents, outermost first. |
| Paths.ChainFacts | exitwp.py:357-365 | Resolving the parents one after another gives one identifier each, records it in the cache, and keeps the cache one-to-one. |
| Paths.PageDirsRecorded | exitwp.py:357-366 | There is one folder per parent. The folder for each parent is that parent's cached identifier, root-most first, and the cache stays one-to-one. |
| Paths.PageC | exitwp.py:355 | From an empty cache, page C with slug `c` gets the identifier `c`, which is then its only cache entry. |
| Paths.ThreeLevels | exitwp.py:356-365 | Once C has its identifier, the walk up from C, under B under A, gives the folders `a/b`. |
| Paths.TwoParents | exitwp.py:359-363 | Prepending the parents' identifiers nearest-first, with C already cached, gives the root-most first. |
| Emit.FieldFilterFirstStop | exitwp.py:308-314 | The first filter entry whose field is missing (the uncaught `KeyError`) or matches decides the outcome. With no such entry the item is kept. |
| Emit.FieldFilterOrder | exitwp.py:308-311 | The filter's order matters: a matching `status` before a missing `attachment_url` skips the item, and the other order crashes. |
| Emit.PermalinkSource | exitwp.py:327 | The permalink comes from a link with no `?p=` left, and is the link's own path when it had none. Each `?p=` is replaced by `archives/` (Strings.RewriteQueryReplaces). |
| Emit.Route | exitwp.py:339-370 | An item gets an output file exactly when its type is not filtered and is `post`, `attachment` or `page`. |
| Emit.DatedTargetFacts | exitwp.py:341-353 | A post or attachment keeps a cached identifier and otherwise gets the first free form of its dated base. Its file is `<blog>/<dir>/<uid>.<fmt>`, and the cache grows and stays one-to-one. |
| Emit.PageWalkFacts | exitwp.py:356-365 | The page walk gives one folder per parent. Each folder is that parent's cached identifier, and the cache grows and stays one-to-one. |
| Emit.PageTargetFile | exitwp.py:354-366 | A page's file is `<blog>/<parent folders>/<uid>/index.<fmt>`, one folder per parent. Each is the parent's cached identifier, root-most first. |
| Emit.PageTreeFile | exitwp.py:354-368 | From an empty cache, page C (slug `c`) under B under A is written to `<blog>/a/b/c/index.<fmt>`. |
| Emit.PageTargetKeeps | exitwp.py:354-366 | Placing a page records its identifier, and the cache grows and stays one-to-one. |
| Emit.PlaceImagesRecords | exitwp.py:372-377 | With downloads on, every image of the item gets a file name in the item's folder. The registry grows and stays one-to-one. |
| Emit.PlaceImagesAsWritten | exitwp.py:372-380 | The download loop as written succeeds iff the item has no images, or the blog link is non-empty and every image source is empty. Any other image ends the run with a `MixedUrlTypes` fault. |
| Emit.AsWrittenImagesCrash | exitwp.py:373-380 | As written, link `http://x` with image `a.png` ends the run with the `urljoin` `TypeError`. The corrected loop places `a.png`. |
| Emit.AsWrittenEmptyLinkCrash | exitwp.py:373-380 | As written, with an empty blog link the first image ends the run: `urljoin` returns the bytes source, `urlretrieve` rejects it, and the handler raises again. |
| Emit.AsWrittenEmptySources | exitwp.py:372-380 | With a non-empty blog link and only empty image sources, the loop as written places exactly what the corrected loop places. |
| Emit.HeaderKeys | exitwp.py:324-353 | Front matter fails iff an attachment lacks its URL. It copies title, author, slug and comments, has `wordpress_id` equal to `int(wp_id)`, and builds the permalink from the rewritten link. `excerpt` appears iff non-empty. `published: false` appears iff the status is not `publish`, except attachments in `inherit`. The attachment URL appears iff the item is an attachment. The layout is `page` for pages and `post` otherwise. |
| Emit.WriteItemOutcome | exitwp.py:305-370 | An item is written iff no filter entry stops it, its id is an integer, its type is routed, and an attachment has its URL. The run fails iff a filter field is missing, or a kept item has a non-integer id, or a routed attachment lacks a URL. An unwritten item changes no state. |
| Emit.WriteItemProduces | exitwp.py:305-409 | A kept, routed item with an integer id and valid front matter is written with exactly that front matter. |
| Emit.ProduceFile | exitwp.py:341-353 | A post goes to `<blog>/_posts/<uid>.<fmt>` and an attachment to `<blog>/_drafts/attachments/<uid>.<fmt>`. |
| Emit.ProducePageFile | exitwp.py:354-368 | A page goes to `<blog>/<parent folders>/<uid>/index.<fmt>`, each folder its parent's cached identifier. |
| Emit.TargetFacts | exitwp.py:339-368 | Whatever its type, a routed item's identifier is cached under its id, and the cache grows and stays one-to-one. |
| Emit.WriteItemRecords | exitwp.py:339-409 | A written item carries its id and cached identifier. With downloads on, all its images are registered in its folder. Both caches grow and stay one-to-one. |
| Emit.ConvertFromOk | exitwp.py:305-409 | Over the whole loop, at most one output per item. Each output's identifier stays cached under its id to the end, and both caches only grow and stay one-to-one. |
| Emit.ConvertSeparates | exitwp.py:305-409 | Two outputs of one run for different ids have different identifiers. |

## Left out

- XML parsing and namespace collection: a parsed item is a map from qualified tag to text.
- The regular-expression body rewrites, BeautifulSoup's image scan, date parsing and normalisation (a collaborator that gives `None` when neither date text parses), `strftime`, `urlparse`, `os.path.splitext`/`basename`, the attachment link template and html2text. Each is a parameter in `Items.Collaborators`, not modelled.
- The front-matter `date`: the header's date object comes from a date parse that falls back to the current time. The model keeps the item's date text and does not model the clock.
- YAML serialisation, file and folder creation, `urlretrieve`, console output, configuration loading and the glob over export files. Only the values written are modelled.
- `os.path.normpath`: paths are lists of segments.
- The `html2text` failure: `Render` gives `None`, where the converter prints a message and writes no body.
- Decimal.ParseInt: does not accept the surrounding whitespace, underscores and non-ASCII digits that Python's `int()` also takes. Ids come from `gi`, which has already stripped them, and export ids are plain ASCII digits.
- Paths.Ancestors: the parent walk is bounded by the number of items. The converter loops forever on a cycle of parent ids, which the model does not reproduce.
- Emit.SlotOf: an item field can only be compared as text or a boolean. The model never matches a filter entry on the category and image fields (`taxanomies`, `img_srcs`); the converter can, for instance `img_srcs: []` against an item with no images.
- Emit: the item loop (`WriteItem`, `Produce`, `ConvertFrom`, `Convert`) uses the corrected `Identifiers.Resolve` and `Emit.PlaceImages`, not the as-written `Identifiers.ResolveAsWritten` and `Emit.PlaceImagesAsWritten`. So its rows (DatedTargetFacts, PageTargetFile, WriteItemOutcome, WriteItemRecords, ConvertFromOk, ConvertSeparates and the rest) describe the intended program. As written, two pages with one slug share a file, and any image ends the run unless its source is empty and the blog link is not; see "## Findings".
- Emit.WriteItem: with downloads on, the converter also tries to download the images of items it does not route. The item has no identifier, so with the `urljoin` defect corrected the attempt only prints a message and leaves the state as it was. The model skips it.

## Findings

| source | as written | input that shows it | evidently intended | confidence | as-written member | corrected member |
|---|---|---|---|---|---|---|
| exitwp.py:253-259 | The collision loop tests the candidate against the table's keys, which are item ids, not against the identifiers handed out. A first candidate with no collision is returned without being stored, and a stored one is stored under the outer loop's item. | Two pages with ids `1` and `2`, both with slug `about`, and an empty cache: both get `about`, so both write `about/index.<fmt>`. | Test against the identifiers already handed out, and store the result under the resolved item's own id: the second page gets `about_2`. | not executed | Identifiers.AsWrittenCollides, Identifiers.AsWrittenStoresUnderLoopItem | Identifiers.ResolveSeparates |
| exitwp.py:373-380 | `urljoin(link, img.encode('utf-8'))` mixes `str` and `bytes`, which raises `TypeError` in Python 3 whenever both are non-empty. With an empty link `urljoin` returns the bytes source, and `urlretrieve` raises `TypeError` on it. Either way the handler builds its message with the same `urljoin` and `str + bytes`, raises again, and ends the run. Only an empty source under a non-empty link gets through. | `download_images` on, blog link `http://x`, a post whose body has `<img src="a.png">`. | Join the text URL and register the image with `get_attachment_path`. | not executed | Emit.AsWrittenImagesCrash, Emit.AsWrittenEmptyLinkCrash | Emit.PlaceImagesRecords |
