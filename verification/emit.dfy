/** The writer (`write_jekyll` in exitwp.py). For each item it applies the
    field filter, builds the front matter, and applies the type filter. A
    kept item gets an identifier and a file, its images are registered, and
    its taxonomy block and body are produced. The run does this for every
    item of an export.

    The loop is the program as intended: identifiers come from the corrected
    cache `Identifiers.Resolve` and images from the corrected download loop
    `PlaceImages`. The code as written differs in both places, and those
    versions (`Identifiers.ResolveAsWritten`, `PlaceImagesAsWritten`) are
    modelled beside them but not composed into the loop.

    Opening and writing files, YAML output and downloads are not modelled.
    An item's result is the file it would be written to and what would be
    written there. */
module Emit {
  import opened Base
  import Fields
  import opened Strings
  import opened Decimal
  import opened Tables
  import opened Taxonomy
  import opened Items
  import opened Identifiers
  import opened Attachments
  import opened Paths

  // ------------------------------------------------------------ field filter

  /** What an item record holds under a key: a text or a flag, a value of
      another kind that never equals a configured text or flag (the
      taxonomy dict, the image list), or nothing. */
  datatype Slot = Absent | Opaque | Held(value: FieldValue)

  /** The entry of the item record under `key`. Only attachments have an
      `attachment_url`. */
  function SlotOf(item: Item, key: string): Slot {
    if key == "title" then Held(Text(item.title))
    else if key == "link" then Held(Text(item.link))
    else if key == "author" then Held(Text(item.author))
    else if key == "date" then Held(Text(item.date))
    else if key == "slug" then Held(Text(item.slug))
    else if key == "status" then Held(Text(item.status))
    else if key == "type" then Held(Text(item.kind))
    else if key == "wp_id" then Held(Text(item.wpId))
    else if key == "parent" then Held(Text(item.parent))
    else if key == "comments" then Held(Flag(item.comments))
    else if key == "body" then Held(Text(item.body))
    else if key == "excerpt" then Held(Text(item.excerpt))
    else if key == "taxanomies" || key == "img_srcs" then Opaque
    else if key == "attachment_url" && item.attachmentUrl.Some? then Held(Text(item.attachmentUrl.value))
    else Absent
  }

  /** Entry `e` of the field filter ends the scan: the item lacks the field
      (an uncaught KeyError) or holds the value that excludes it. */
  predicate Stops(item: Item, e: (string, FieldValue)) {
    SlotOf(item, e.0).Absent? || SlotOf(item, e.0) == Held(e.1)
  }

  /** Whether the field filter, scanned in configuration order, excludes
      the item. */
  function FieldFilter(item: Item, filter: seq<(string, FieldValue)>): Result<bool>
    decreases |filter|
  {
    if |filter| == 0 then Success(false)
    else if SlotOf(item, filter[0].0).Absent? then Failure(MissingField(filter[0].0))
    else if SlotOf(item, filter[0].0) == Held(filter[0].1) then Success(true)
    else FieldFilter(item, filter[1..])
  }

  /** The first entry that stops the scan decides: a missing field fails
      the run, a matching value excludes the item. When no entry stops the
      scan, the item is kept. */
  lemma {:induction false} FieldFilterFirstStop(item: Item, filter: seq<(string, FieldValue)>)
    ensures (forall j :: 0 <= j < |filter| ==> !Stops(item, filter[j])) ==> FieldFilter(item, filter) == Success(false)
    ensures forall j :: 0 <= j < |filter| && Stops(item, filter[j]) && (forall i :: 0 <= i < j ==> !Stops(item, filter[i])) ==>
              FieldFilter(item, filter) == if SlotOf(item, filter[j].0).Absent? then Failure(MissingField(filter[j].0)) else Success(true)
    decreases |filter|
  {
    if |filter| > 0 {
      var tail := filter[1..];
      FieldFilterFirstStop(item, tail);
      if forall j :: 0 <= j < |filter| ==> !Stops(item, filter[j]) {
        assert !Stops(item, filter[0]);
        forall j | 0 <= j < |tail| ensures !Stops(item, tail[j]) {
          assert tail[j] == filter[j + 1];
        }
      }
      forall j | 0 <= j < |filter| && Stops(item, filter[j]) && (forall i :: 0 <= i < j ==> !Stops(item, filter[i]))
        ensures FieldFilter(item, filter) == if SlotOf(item, filter[j].0).Absent? then Failure(MissingField(filter[j].0)) else Success(true)
      {
        if j > 0 {
          assert !Stops(item, filter[0]);
          assert tail[j - 1] == filter[j];
          forall i | 0 <= i < j - 1 ensures !Stops(item, tail[i]) {
            assert tail[i] == filter[i + 1];
          }
        }
      }
    }
  }

  /** The order of the filter matters: a match met first excludes the item,
      a missing field met first stops the run. */
  lemma FieldFilterOrder(item: Item)
    requires item.status == "draft" && item.attachmentUrl.None?
    ensures FieldFilter(item, [("status", Text("draft")), ("attachment_url", Text(""))]) == Success(true)
    ensures FieldFilter(item, [("attachment_url", Text("")), ("status", Text("draft"))]) == Failure(MissingField("attachment_url"))
  {
  }

  // ---------------------------------------------------------- front matter

  /** The front matter of an item. An optional key is `None` when absent. */
  datatype FrontMatter = FrontMatter(
    title: string,
    permalink: string,
    author: string,
    date: string,
    slug: string,
    wordpressId: int,
    comments: bool,
    excerpt: Option<string>,
    published: Option<bool>,
    attachmentUrl: Option<string>,
    layout: Option<string>)

  /** `int(wp_id)`, an uncaught ValueError when the id is not a number. */
  function WordpressId(item: Item): Result<int> {
    match ParseInt(item.wpId)
    case None => Failure(NotAnInteger(item.wpId))
    case Some(n) => Success(n)
  }

  /** The keys every item gets, plus `excerpt` for a non-empty excerpt and
      `published: false` for a status other than `publish`. The permalink is
      the path of the link once every `?p=` is replaced by `archives/`. */
  function CommonHeader(co: Collaborators, item: Item, id: int): FrontMatter {
    FrontMatter(
      item.title, co.urlPath(RewriteQuery(item.link)), item.author, item.date, item.slug, id, item.comments,
      if item.excerpt != "" then Some(item.excerpt) else None,
      if item.status != "publish" then Some(false) else None,
      None, None)
  }

  /** The front matter of an item that is written. An attachment also gets
      the path of its URL, and it loses `published` when its status is
      `inherit`. An attachment record without a URL is an uncaught KeyError. */
  function Complete(co: Collaborators, h: FrontMatter, item: Item): Result<FrontMatter> {
    if item.kind == "attachment" then
      if item.attachmentUrl.None? then Failure(MissingField("attachment_url"))
      else
        Success(h.(attachmentUrl := Some(co.urlPath(item.attachmentUrl.value)),
                   published := if item.status == "inherit" then None else h.published,
                   layout := Some("post")))
    else Success(h.(layout := Some(if item.kind == "page" then "page" else "post")))
  }

  /** The text the permalink's path is taken from has no `?p=` left, and it
      is the link itself when the link had none. */
  lemma PermalinkSource(link: string)
    ensures !Contains(RewriteQuery(link), QueryMark)
    ensures !Contains(link, QueryMark) ==> RewriteQuery(link) == link
  {
    RewriteQueryRemovesAll(link);
    if !Contains(link, QueryMark) {
      RewriteQueryKeepsPlain(link);
    }
  }

  // ---------------------------------------------------------------- routing

  /** Where the site's items go: the blog folder, the blog link, and every
      item of the export (the parent walk searches all of them). */
  datatype Site = Site(blogDir: Path, link: string, items: seq<Item>)

  /** The site of an export whose channel header is `header` and whose
      items are `items`, written below `buildDir` (`get_blog_path`). */
  function SiteOf(buildDir: Path, header: Fields.ExportHeader, items: seq<Item>): (s: Site)
    ensures |buildDir| <= |s.blogDir| && s.blogDir[..|buildDir|] == buildDir
    ensures s.blogDir[|buildDir|..] == ["jekyll", BlogName(header.link)]
    ensures s.link == header.link && s.items == items
  {
    Site(BlogDir(buildDir, header.link), header.link, items)
  }

  /** A written item's identifier, its file, and the identifier cache after
      the item (and, for a page, its parents) was resolved. */
  datatype Target = Target(uid: string, file: Path, uids: Table)

  /** The kinds of item that are written: posts, attachments and pages whose
      kind is not filtered out. */
  predicate Routed(cfg: Config, item: Item) {
    item.kind !in cfg.itemTypeFilter && (item.kind == "post" || item.kind == "attachment" || item.kind == "page")
  }

  /** A post or attachment: a dated identifier, in folder `dir`. */
  function DatedTarget(cfg: Config, co: Collaborators, site: Site, dir: Path, t: Table, item: Item): Target {
    var a := Resolve(t, "", item.wpId, ItemBase(co.dayOf(item.date), item.wpId, item.slug, item.title, true, cfg.uidWithId));
    Target(a.uid, ItemFile(site.blogDir, dir, a.uid, item.kind, cfg.targetFormat), a.table)
  }

  /** A page: an undated identifier, in the folders of its parents. */
  function PageTarget(cfg: Config, site: Site, t: Table, item: Item): Target {
    var a := PageUid(t, PageKey(item));
    var w := Climb(site.items, item, |site.items|, Walk([], a.table), PageUid);
    Target(a.uid, ItemFile(site.blogDir, w.uids, a.uid, "page", cfg.targetFormat), w.table)
  }

  /** Page `C` (slug `c`) under `B` under `A`, written first from an empty
      cache, goes to `<blog>/a/b/c/index.<fmt>`. */
  lemma PageTreeFile(cfg: Config, site: Site, a: Item, b: Item, c: Item)
    requires site.items == [a, b, c]
    requires a.wpId == "1" && a.parent == "0" && a.slug == "a"
    requires b.wpId == "2" && b.parent == "1" && b.slug == "b"
    requires c.wpId == "3" && c.parent == "2" && c.slug == "c"
    ensures PageTarget(cfg, site, map[], c).file == site.blogDir + ["a", "b", "c", "index." + cfg.targetFormat]
  {
    PageC(c);
    ThreeLevels(a, b, c);
  }

  /** The target of an item, or `None` for a filtered or unknown kind. */
  function Route(cfg: Config, co: Collaborators, site: Site, t: Table, item: Item): (r: Option<Target>)
    ensures r.Some? <==> Routed(cfg, item)
  {
    if item.kind in cfg.itemTypeFilter then None
    else if item.kind == "post" then Some(DatedTarget(cfg, co, site, ["_posts"], t, item))
    else if item.kind == "attachment" then Some(DatedTarget(cfg, co, site, ["_drafts", "attachments"], t, item))
    else if item.kind == "page" then Some(PageTarget(cfg, site, t, item))
    else None
  }

  /** The cache gives identifier `uid` to item `id` in the namespace shared
      by posts, attachments and pages. */
  predicate Cached(t: Table, id: string, uid: string) {
    "" in t && id in t[""] && t[""][id] == uid
  }

  /** A post or attachment gets its dated identifier, the name of its file in
      `dir`. The identifier is recorded for the item, the cache only grows
      and stays injective. */
  lemma DatedTargetFacts(cfg: Config, co: Collaborators, site: Site, dir: Path, t: Table, item: Item)
    requires item.kind != "page"
    ensures var g := DatedTarget(cfg, co, site, dir, t, item);
            var base := ItemBase(co.dayOf(item.date), item.wpId, item.slug, item.title, true, cfg.uidWithId);
            && (item.wpId in Inner(t, "") ==> g.uid == t[""][item.wpId])
            && (item.wpId !in Inner(t, "") ==> g.uid == Disambiguate(Inner(t, "").Values, base))
            && g.file == site.blogDir + dir + [g.uid + "." + cfg.targetFormat]
            && Cached(g.uids, item.wpId, g.uid)
            && Extends(t, g.uids)
            && (AllInjective(t) ==> AllInjective(g.uids))
  {
    var base := ItemBase(co.dayOf(item.date), item.wpId, item.slug, item.title, true, cfg.uidWithId);
    ResolveKeeps(t, "", item.wpId, base);
    if item.wpId !in Inner(t, "") {
      ResolveFresh(t, "", item.wpId, base);
    }
  }

  /** The walk up a page's parents gives one folder per ancestor,
      outermost first, each named by the identifier recorded for that
      ancestor; the cache only grows and stays injective. */
  lemma PageWalkFacts(items: seq<Item>, item: Item, t: Table)
    ensures var w := Climb(items, item, |items|, Walk([], t), PageUid);
            var anc := Ancestors(items, item, |items|);
            && |w.uids| == |anc|
            && (forall k :: 0 <= k < |anc| ==> Cached(w.table, anc[k].wpId, w.uids[|anc| - 1 - k]))
            && Extends(t, w.table)
            && (AllInjective(t) ==> AllInjective(w.table))
  {
    var anc := Ancestors(items, item, |items|);
    var keys := PageKeys(anc);
    ClimbFromTop(items, item, t, PageUid);
    PageDirsRecorded(t, keys);
    var w := PageDirs(t, keys, PageUid);
    forall k | 0 <= k < |anc| ensures Cached(w.table, anc[k].wpId, w.uids[|anc| - 1 - k]) {
      assert Recorded(w, keys[k].wpId, |keys| - 1 - k);
    }
  }

  /** A page's file is `<uid>/index.<format>` below one folder per ancestor,
      outermost first, each named by the identifier recorded for that
      ancestor. */
  lemma PageTargetFile(cfg: Config, site: Site, t: Table, item: Item)
    ensures var g := PageTarget(cfg, site, t, item);
            var anc := Ancestors(site.items, item, |site.items|);
            exists dirs: seq<string> ::
              && g.file == site.blogDir + dirs + [g.uid, "index." + cfg.targetFormat]
              && |dirs| == |anc|
              && forall k :: 0 <= k < |anc| ==> Cached(g.uids, anc[k].wpId, dirs[|anc| - 1 - k])
  {
    var a := PageUid(t, PageKey(item));
    var w := Climb(site.items, item, |site.items|, Walk([], a.table), PageUid);
    PageWalkFacts(site.items, item, a.table);
    var f := ItemFile(site.blogDir, w.uids, a.uid, "page", cfg.targetFormat);
    assert f == site.blogDir + w.uids + [a.uid, "index." + cfg.targetFormat];
  }

  /** A page's identifier is recorded for it, and resolving the page and its
      parents only grows the cache and keeps it injective. */
  lemma PageTargetKeeps(cfg: Config, site: Site, t: Table, item: Item)
    ensures var g := PageTarget(cfg, site, t, item);
            && Cached(g.uids, item.wpId, g.uid)
            && Extends(t, g.uids)
            && (AllInjective(t) ==> AllInjective(g.uids))
  {
    var a := PageUid(t, PageKey(item));
    ResolveKeeps(t, "", item.wpId, BaseUid("", item.slug, item.title));
    var w := Climb(site.items, item, |site.items|, Walk([], a.table), PageUid);
    PageWalkFacts(site.items, item, a.table);
    ExtendsTransitive(t, a.table, w.table);
  }

  // ----------------------------------------------------------------- images

  /** Each image of a written item registered in the image folder named by
      the item's identifier, in order. The download is not modelled; the
      registration happens whether or not it would succeed. */
  function PlaceImages(reg: Registry, dir: string, co: Collaborators, imgs: seq<string>): Registry
    decreases |imgs|
  {
    if |imgs| == 0 then reg
    else
      var (root, ext) := co.splitName(imgs[0]);
      PlaceImages(PlaceAttachment(reg, dir, imgs[0], root, ext).registry, dir, co, imgs[1..])
  }

  /** Every image ends up with a file name in the item's folder. Earlier
      registrations are kept, and file names stay distinct within every
      folder. */
  lemma {:induction false} PlaceImagesRecords(reg: Registry, dir: string, co: Collaborators, imgs: seq<string>)
    ensures var r := PlaceImages(reg, dir, co, imgs);
            && (forall k :: 0 <= k < |imgs| ==> imgs[k] in Inner(r, dir))
            && Extends(reg, r)
            && (AllInjective(reg) ==> AllInjective(r))
    decreases |imgs|
  {
    if |imgs| > 0 {
      var (root, ext) := co.splitName(imgs[0]);
      var p := PlaceAttachment(reg, dir, imgs[0], root, ext);
      PlaceImagesRecords(p.registry, dir, co, imgs[1..]);
      var r := PlaceImages(p.registry, dir, co, imgs[1..]);
      ExtendsTransitive(reg, p.registry, r);
      forall k | 0 <= k < |imgs| ensures imgs[k] in Inner(r, dir) {
        if k > 0 {
          assert imgs[k] == imgs[1..][k - 1];
        }
      }
    }
  }

  /** The download loop as written. The image source is passed on as bytes.
      With a non-empty blog link, Python 3's `urljoin` refuses to join text
      and non-empty bytes with a TypeError; with an empty link it returns the
      bytes, which `urlretrieve` refuses with a TypeError. Either way the
      handler builds its message from the same join, and it raises again,
      uncaught. Only an empty source joined to a non-empty link gives text
      (the link itself), and then the loop goes on. `dir` is `None` for an
      item without an identifier: looking that identifier up raises a
      KeyError, which the loop catches before its handler runs. */
  function PlaceImagesAsWritten(reg: Registry, link: string, dir: Option<string>, co: Collaborators, imgs: seq<string>): (r: Result<Registry>)
    ensures r.Success? <==> |imgs| == 0 || (link != "" && forall k :: 0 <= k < |imgs| ==> imgs[k] == "")
    ensures r.Failure? ==> r.fault.MixedUrlTypes?
    decreases |imgs|
  {
    if |imgs| == 0 then Success(reg)
    else if link == "" || imgs[0] != "" then Failure(MixedUrlTypes(imgs[0]))
    else
      var (root, ext) := co.splitName(imgs[0]);
      var next := if dir.Some? then PlaceAttachment(reg, dir.value, imgs[0], root, ext).registry else reg;
      assert forall k :: 1 <= k < |imgs| ==> imgs[k] == imgs[1..][k - 1];
      PlaceImagesAsWritten(next, link, dir, co, imgs[1..])
  }

  /** As written, the first image of a blog with a link stops the whole run.
      The intended loop registers it instead. */
  lemma AsWrittenImagesCrash(reg: Registry, co: Collaborators)
    ensures PlaceImagesAsWritten(reg, "http://x", Some("post"), co, ["a.png"]) == Failure(MixedUrlTypes("a.png"))
    ensures "a.png" in Inner(PlaceImages(reg, "post", co, ["a.png"]), "post")
  {
    PlaceImagesRecords(reg, "post", co, ["a.png"]);
  }

  /** As written, a blog without a link stops at its first image too, with
      or without an identifier for the item. */
  lemma AsWrittenEmptyLinkCrash(reg: Registry, dir: Option<string>, co: Collaborators, imgs: seq<string>)
    requires |imgs| > 0
    ensures PlaceImagesAsWritten(reg, "", dir, co, imgs) == Failure(MixedUrlTypes(imgs[0]))
  {
  }

  /** The one case the loop as written survives, empty sources with a blog
      link, registers exactly what the intended loop registers. */
  lemma {:induction false} AsWrittenEmptySources(reg: Registry, link: string, dir: string, co: Collaborators, imgs: seq<string>)
    requires link != ""
    requires forall k :: 0 <= k < |imgs| ==> imgs[k] == ""
    ensures PlaceImagesAsWritten(reg, link, Some(dir), co, imgs) == Success(PlaceImages(reg, dir, co, imgs))
    decreases |imgs|
  {
    if |imgs| > 0 {
      var (root, ext) := co.splitName(imgs[0]);
      assert forall k :: 0 <= k < |imgs| - 1 ==> imgs[1..][k] == imgs[k + 1];
      AsWrittenEmptySources(PlaceAttachment(reg, dir, imgs[0], root, ext).registry, link, dir, co, imgs[1..]);
    }
  }

  // ------------------------------------------------------------------- body

  /** The body in the target format: HTML as it is, any other format through
      the converter, whose failure is reported and leaves the body out. */
  function Render(cfg: Config, co: Collaborators, body: string): Option<string> {
    if cfg.targetFormat == "html" then Some(body) else co.toFormat(body)
  }

  // ------------------------------------------------------------------- item

  /** The identifier cache and the image registry, carried from item to item. */
  datatype State = State(uids: Table, registry: Registry)

  /** What is written for one item. */
  datatype Output = Output(
    wpId: string,
    uid: string,
    file: Path,
    header: FrontMatter,
    taxonomy: seq<TaxGroup>,
    body: Option<string>)

  /** The state after an item, and what is written for it, if anything. */
  datatype Written = Written(st: State, out: Option<Output>)

  /** One pass of the item loop. */
  function WriteItem(cfg: Config, co: Collaborators, site: Site, st: State, item: Item): Result<Written> {
    var skip :- FieldFilter(item, cfg.fieldFilter);
    if skip then Success(Written(st, None))
    else
      var id :- WordpressId(item);
      if !Routed(cfg, item) then Success(Written(st, None))
      else
        var h :- Complete(co, CommonHeader(co, item, id), item);
        Success(Produce(cfg, co, site, st, item, h))
  }

  /** What a routed item with front matter `h` yields: its identifier and
      file, its images registered, its taxonomy block and its body. */
  function Produce(cfg: Config, co: Collaborators, site: Site, st: State, item: Item, h: FrontMatter): Written
    requires Routed(cfg, item)
  {
    var g := Route(cfg, co, site, st.uids, item).value;
    var reg := if cfg.downloadImages then PlaceImages(st.registry, g.uid, co, item.images) else st.registry;
    Written(State(g.uids, reg),
      Some(Output(item.wpId, g.uid, g.file, h, Remap(item.taxonomies, cfg.nameMapping), Render(cfg, co, item.body))))
  }

  /** An item is written exactly when the field filter keeps it, its id is
      a number, and it is a post, attachment or page whose kind is not
      filtered, an attachment having its URL. The run fails exactly when
      the field filter meets a missing field, or when a kept item has a
      non-numeric id or is a routed attachment without a URL. An item
      that is not written changes nothing. */
  lemma WriteItemOutcome(cfg: Config, co: Collaborators, site: Site, st: State, item: Item)
    ensures var r := WriteItem(cfg, co, site, st, item);
            var kept := FieldFilter(item, cfg.fieldFilter) == Success(false);
            && (r.Success? && r.value.out.Some? <==>
                  kept && ParseInt(item.wpId).Some? && Routed(cfg, item) && !(item.kind == "attachment" && item.attachmentUrl.None?))
            && (r.Failure? <==>
                  FieldFilter(item, cfg.fieldFilter).Failure?
                  || (kept && (ParseInt(item.wpId).None? || (Routed(cfg, item) && item.kind == "attachment" && item.attachmentUrl.None?))))
            && (r.Success? && r.value.out.None? ==> r.value.st == st)
  {
  }

  /** The front matter of an item with a numeric id: `excerpt` exactly
      when the excerpt is not empty; `published: false` exactly when the
      status is not `publish`, except for attachments whose status is
      `inherit`; layout `page` for pages and `post` otherwise; the URL path
      only for attachments; the id as a number; and the permalink from the
      rewritten link. Only an attachment without a URL has none. */
  lemma HeaderKeys(co: Collaborators, item: Item)
    requires ParseInt(item.wpId).Some?
    ensures Header(co, item).Failure? <==> item.kind == "attachment" && item.attachmentUrl.None?
    ensures Header(co, item).Success? ==>
            var h := Header(co, item).value;
            && h.title == item.title && h.author == item.author && h.slug == item.slug && h.comments == item.comments
            && (h.excerpt.Some? <==> item.excerpt != "")
            && (h.excerpt.Some? ==> h.excerpt.value == item.excerpt)
            && (h.published.Some? <==> item.status != "publish" && !(item.kind == "attachment" && item.status == "inherit"))
            && (h.published.Some? ==> !h.published.value)
            && h.layout == Some(if item.kind == "page" then "page" else "post")
            && (h.attachmentUrl.Some? <==> item.kind == "attachment")
            && (h.attachmentUrl.Some? ==> h.attachmentUrl.value == co.urlPath(item.attachmentUrl.value))
            && ParseInt(item.wpId) == Some(h.wordpressId)
            && h.permalink == co.urlPath(RewriteQuery(item.link))
  {
  }

  /** A written item's identifier is recorded for it in the cache. The cache
      and the registry only grow, and they keep their identifiers and file
      names distinct. With downloads on, every image of the item is
      registered in the folder named by its identifier. */
  lemma WriteItemRecords(cfg: Config, co: Collaborators, site: Site, st: State, item: Item)
    requires WriteItem(cfg, co, site, st, item).Success?
    ensures var w := WriteItem(cfg, co, site, st, item).value;
            && (w.out.Some? ==> w.out.value.wpId == item.wpId && Cached(w.st.uids, item.wpId, w.out.value.uid))
            && (w.out.Some? && cfg.downloadImages ==>
                  forall k :: 0 <= k < |item.images| ==> item.images[k] in Inner(w.st.registry, w.out.value.uid))
            && Extends(st.uids, w.st.uids) && Extends(st.registry, w.st.registry)
            && (AllInjective(st.uids) ==> AllInjective(w.st.uids))
            && (AllInjective(st.registry) ==> AllInjective(w.st.registry))
  {
    var w := WriteItem(cfg, co, site, st, item).value;
    if w.out.None? {
      WriteItemOutcome(cfg, co, site, st, item);
      assert Extends(st.uids, st.uids) && Extends(st.registry, st.registry);
    } else {
      TargetFacts(cfg, co, site, st.uids, item);
      if cfg.downloadImages {
        PlaceImagesRecords(st.registry, w.out.value.uid, co, item.images);
      } else {
        assert Extends(st.registry, st.registry);
      }
    }
  }

  /** The front matter of an item that passes the filters, once its id is
      known to be a number. */
  function Header(co: Collaborators, item: Item): Result<FrontMatter>
    requires ParseInt(item.wpId).Some?
  {
    Complete(co, CommonHeader(co, item, ParseInt(item.wpId).value), item)
  }

  /** An item the filters keep, with a numeric id and a complete front
      matter, is what `Produce` makes of it. */
  lemma WriteItemProduces(cfg: Config, co: Collaborators, site: Site, st: State, item: Item)
    requires FieldFilter(item, cfg.fieldFilter) == Success(false)
    requires ParseInt(item.wpId).Some? && Routed(cfg, item)
    requires Header(co, item).Success?
    ensures WriteItem(cfg, co, site, st, item) == Success(Produce(cfg, co, site, st, item, Header(co, item).value))
  {
  }

  /** Where a post or attachment goes: `_posts/<uid>.<format>` and
      `_drafts/attachments/<uid>.<format>` below the blog folder. */
  lemma ProduceFile(cfg: Config, co: Collaborators, site: Site, st: State, item: Item, h: FrontMatter)
    requires Routed(cfg, item) && item.kind != "page"
    ensures var o := Produce(cfg, co, site, st, item, h).out.value;
            && (item.kind == "post" ==> o.file == site.blogDir + ["_posts", o.uid + "." + cfg.targetFormat])
            && (item.kind == "attachment" ==> o.file == site.blogDir + ["_drafts", "attachments", o.uid + "." + cfg.targetFormat])
  {
    var g := Route(cfg, co, site, st.uids, item).value;
    var o := Produce(cfg, co, site, st, item, h).out.value;
    assert o.uid == g.uid && o.file == g.file;
    if item.kind == "post" {
      DatedTargetFacts(cfg, co, site, ["_posts"], st.uids, item);
    } else {
      DatedTargetFacts(cfg, co, site, ["_drafts", "attachments"], st.uids, item);
    }
  }

  /** A post of an export ends up at
      `<build>/jekyll/<blog name of the channel link>/_posts/<uid>.<format>`. */
  lemma PostUnderBuildDir(cfg: Config, co: Collaborators, buildDir: Path, header: Fields.ExportHeader, items: seq<Item>,
                          st: State, item: Item, h: FrontMatter)
    requires Routed(cfg, item) && item.kind == "post"
    ensures var o := Produce(cfg, co, SiteOf(buildDir, header, items), st, item, h).out.value;
            o.file == buildDir + ["jekyll", BlogName(header.link), "_posts", o.uid + "." + cfg.targetFormat]
  {
    var site := SiteOf(buildDir, header, items);
    var o := Produce(cfg, co, site, st, item, h).out.value;
    ProduceFile(cfg, co, site, st, item, h);
    assert o.file == site.blogDir + ["_posts", o.uid + "." + cfg.targetFormat];
  }

  /** Where a page goes: `<uid>/index.<format>` below one folder per
      ancestor, outermost first, each named by the identifier the cache
      holds for that ancestor afterwards. */
  lemma ProducePageFile(cfg: Config, co: Collaborators, site: Site, st: State, item: Item, h: FrontMatter)
    requires Routed(cfg, item) && item.kind == "page"
    ensures var w := Produce(cfg, co, site, st, item, h);
            var o := w.out.value;
            var anc := Ancestors(site.items, item, |site.items|);
            exists dirs: seq<string> ::
              && o.file == site.blogDir + dirs + [o.uid, "index." + cfg.targetFormat]
              && |dirs| == |anc|
              && forall k :: 0 <= k < |anc| ==> Cached(w.st.uids, anc[k].wpId, dirs[|anc| - 1 - k])
  {
    PageTargetFile(cfg, site, st.uids, item);
  }

  /** What every target guarantees, whatever its kind. */
  lemma TargetFacts(cfg: Config, co: Collaborators, site: Site, t: Table, item: Item)
    requires Routed(cfg, item)
    ensures var g := Route(cfg, co, site, t, item).value;
            && Cached(g.uids, item.wpId, g.uid)
            && Extends(t, g.uids)
            && (AllInjective(t) ==> AllInjective(g.uids))
  {
    if item.kind == "page" {
      PageTargetKeeps(cfg, site, t, item);
    } else if item.kind == "post" {
      DatedTargetFacts(cfg, co, site, ["_posts"], t, item);
    } else {
      DatedTargetFacts(cfg, co, site, ["_drafts", "attachments"], t, item);
    }
  }

  // -------------------------------------------------------------------- run

  /** The outputs of a run and the state it ends in. */
  datatype Run = Run(st: State, outs: seq<Output>)

  /** The item loop from item `i` on, with the corrected identifier cache
      and download loop. An uncaught error ends the run. */
  function ConvertFrom(cfg: Config, co: Collaborators, site: Site, st: State, i: nat): Result<Run>
    requires i <= |site.items|
    decreases |site.items| - i
  {
    if i == |site.items| then Success(Run(st, []))
    else
      var w :- WriteItem(cfg, co, site, st, site.items[i]);
      var rest :- ConvertFrom(cfg, co, site, w.st, i + 1);
      Success(Run(rest.st, (if w.out.Some? then [w.out.value] else []) + rest.outs))
  }

  /** The whole export as intended, from an empty cache and registry. */
  function Convert(cfg: Config, co: Collaborators, site: Site): Result<Run> {
    ConvertFrom(cfg, co, site, State(map[], map[]), 0)
  }

  /** What a run from item `i` on guarantees: at most one output per item.
      Every output's identifier stays recorded for its item in the final
      cache. The cache and the registry only grow and stay injective. */
  predicate RunOk(st: State, rest: nat, r: Run) {
    && |r.outs| <= rest
    && (forall k :: 0 <= k < |r.outs| ==> Cached(r.st.uids, r.outs[k].wpId, r.outs[k].uid))
    && Extends(st.uids, r.st.uids) && Extends(st.registry, r.st.registry)
    && (AllInjective(st.uids) ==> AllInjective(r.st.uids))
    && (AllInjective(st.registry) ==> AllInjective(r.st.registry))
  }

  lemma {:induction false} ConvertFromOk(cfg: Config, co: Collaborators, site: Site, st: State, i: nat)
    requires i <= |site.items|
    requires ConvertFrom(cfg, co, site, st, i).Success?
    ensures RunOk(st, |site.items| - i, ConvertFrom(cfg, co, site, st, i).value)
    decreases |site.items| - i
  {
    if i == |site.items| {
      assert Extends(st.uids, st.uids) && Extends(st.registry, st.registry);
    } else {
      var w := WriteItem(cfg, co, site, st, site.items[i]).value;
      WriteItemRecords(cfg, co, site, st, site.items[i]);
      ConvertFromOk(cfg, co, site, w.st, i + 1);
      RunStep(st, w, ConvertFrom(cfg, co, site, w.st, i + 1).value, |site.items| - i - 1);
    }
  }

  /** One more item in front of a run keeps `RunOk`. */
  lemma RunStep(st: State, w: Written, rest: Run, n: nat)
    requires RunOk(w.st, n, rest)
    requires w.out.Some? ==> Cached(w.st.uids, w.out.value.wpId, w.out.value.uid)
    requires Extends(st.uids, w.st.uids) && Extends(st.registry, w.st.registry)
    requires AllInjective(st.uids) ==> AllInjective(w.st.uids)
    requires AllInjective(st.registry) ==> AllInjective(w.st.registry)
    ensures RunOk(st, n + 1, Run(rest.st, (if w.out.Some? then [w.out.value] else []) + rest.outs))
  {
    ExtendsTransitive(st.uids, w.st.uids, rest.st.uids);
    ExtendsTransitive(st.registry, w.st.registry, rest.st.registry);
    var outs := (if w.out.Some? then [w.out.value] else []) + rest.outs;
    forall k | 0 <= k < |outs| ensures Cached(rest.st.uids, outs[k].wpId, outs[k].uid) {
      if w.out.Some? && k == 0 {
        assert outs[0] == w.out.value;
      } else if w.out.Some? {
        assert outs[k] == rest.outs[k - 1];
      } else {
        assert outs[k] == rest.outs[k];
      }
    }
  }

  /** No two written items with different ids share an identifier. */
  lemma ConvertSeparates(cfg: Config, co: Collaborators, site: Site, k1: nat, k2: nat)
    requires Convert(cfg, co, site).Success?
    requires k1 < |Convert(cfg, co, site).value.outs| && k2 < |Convert(cfg, co, site).value.outs|
    ensures var outs := Convert(cfg, co, site).value.outs;
            outs[k1].wpId != outs[k2].wpId ==> outs[k1].uid != outs[k2].uid
  {
    var st := State(map[], map[]);
    ConvertFromOk(cfg, co, site, st, 0);
    var r := Convert(cfg, co, site).value;
    assert AllInjective(st.uids);
    assert Cached(r.st.uids, r.outs[k1].wpId, r.outs[k1].uid);
    assert Cached(r.st.uids, r.outs[k2].wpId, r.outs[k2].uid);
  }
}
