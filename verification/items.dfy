/** Export items, the converter's configuration, and reading one item from
    the export (the body of the item loop of `parse_items` in exitwp.py).

    The libraries the converter calls for regular expressions, HTML, dates,
    URLs and text conversion are passed in as the functions of a
    `Collaborators` value. */
module Items {
  import opened Base
  import opened Fields
  import opened Taxonomy
  import opened Seqs
  import opened Strings

  /** A parsed `<item>`: its children by qualified tag, and its `<category>`
      children in document order. */
  datatype XmlItem = XmlItem(fields: Element, categories: seq<Category>)

  /** One export item, as the reader hands it to the writer. */
  datatype Item = Item(
    title: string,
    link: string,
    author: string,
    date: string,
    slug: string,
    status: string,
    kind: string,                  // post, page, attachment, ...
    wpId: string,
    parent: string,                // wp_id of the parent, "0" for none
    comments: bool,
    taxonomies: seq<TaxGroup>,
    body: string,
    excerpt: string,
    images: seq<string>,           // src of every image of the body, in order
    attachmentUrl: Option<string>) // only attachments have one

  /** A configured value an item field is compared with. */
  datatype FieldValue = Text(text: string) | Flag(flag: bool)

  datatype Config = Config(
    targetFormat: string,
    downloadImages: bool,
    taxonomyFilter: set<string>,
    entryFilter: map<string, string>,
    nameMapping: map<string, string>,
    itemTypeFilter: set<string>,
    fieldFilter: seq<(string, FieldValue)>,   // in configuration order
    attachmentTemplate: string,
    uidWithId: bool)

  datatype Collaborators = Collaborators(
    rewriteBody: string -> string,               // the configured regex substitutions, in order
    imagesOf: string -> seq<string>,             // `src` of each `<img>` of an HTML text
    normalizeDate: (string, string) -> Option<string>,  // (post_date_gmt, post_date) -> UTC date text; None when neither parses
    dayOf: string -> string,                     // date text -> `YYYY-MM-DD`
    urlPath: string -> string,                   // the path component of a URL
    splitName: string -> (string, string),       // root and extension of a URL's base name
    renderLink: (string, string, string) -> string,  // (template, title, attachment url) -> text
    toFormat: string -> Option<string>)          // HTML -> target format; None when it fails

  /** The namespace prefixes an item is read with. */
  predicate ItemPrefixesDeclared(ns: Namespaces) {
    "content" in ns && "excerpt" in ns && "wp" in ns && "dc" in ns
  }

  /** The prefixes read before the date is normalised. */
  predicate DatePrefixesDeclared(ns: Namespaces) {
    "content" in ns && "excerpt" in ns && "wp" in ns
  }

  /** The first prefix an item read trips over when it is not declared, in
      the order the fields are read. */
  function MissingPrefix(ns: Namespaces): (p: string)
    requires !ItemPrefixesDeclared(ns)
    ensures p in {"content", "excerpt", "wp", "dc"} && p !in ns
    ensures p == "excerpt" ==> "content" in ns
    ensures p == "wp" ==> "content" in ns && "excerpt" in ns
    ensures p == "dc" <==> DatePrefixesDeclared(ns)
  {
    if "content" !in ns then "content"
    else if "excerpt" !in ns then "excerpt"
    else if "wp" !in ns then "wp"
    else "dc"
  }

  /** The qualified name `gi` is called with for child `tag` of the
      namespace bound to `prefix`. */
  function Qualified(prefix: string, tag: string): string {
    if prefix == "" then tag else prefix + ":" + tag
  }

  /** The text `gi` returns for child `tag` of namespace `prefix` of `x`; the
      empty string stands in for the error an undeclared prefix raises,
      which `ParseItem` reports. */
  function Field(ns: Namespaces, x: XmlItem, prefix: string, tag: string, empty: bool): (r: string)
    ensures prefix in WithDefault(ns) ==> Lookup(WithDefault(ns), x.fields, prefix, tag, empty) == Success(r)
  {
    var t := Lookup(WithDefault(ns), x.fields, prefix, tag, empty);
    if t.Success? then t.value else ""
  }

  /** `Field` is what `gi` returns for the qualified name: the read fails
      exactly when the prefix is undeclared, and otherwise gives the field. */
  lemma {:induction false} FieldIsGi(ns: Namespaces, x: XmlItem, prefix: string, tag: string, empty: bool)
    requires ':' !in prefix && (prefix == "" ==> ':' !in tag)
    ensures FieldText(WithDefault(ns), x.fields, Qualified(prefix, tag), empty).Failure? <==> prefix !in WithDefault(ns)
    ensures prefix in WithDefault(ns) ==>
              FieldText(WithDefault(ns), x.fields, Qualified(prefix, tag), empty) == Success(Field(ns, x, prefix, tag, empty))
  {
    if prefix == "" {
      PlainSplit(tag);
    } else {
      QualifiedSplit(prefix, tag);
    }
  }

  /** The normalised date of an item: `post_date_gmt` when it parses, else
      `post_date` converted to UTC, else nothing. */
  function ItemDate(co: Collaborators, ns: Namespaces, x: XmlItem): Option<string> {
    co.normalizeDate(Field(ns, x, "wp", "post_date_gmt", false), Field(ns, x, "wp", "post_date", false))
  }

  /** The item read from `x` before an attachment's extras are added. */
  function BaseItem(cfg: Config, co: Collaborators, ns: Namespaces, x: XmlItem): (r: Item)
    requires ItemDate(co, ns, x).Some?
    ensures r.title == Field(ns, x, "", "title", false)
    ensures r.link == Field(ns, x, "", "link", false)
    ensures r.author == Field(ns, x, "dc", "creator", false)
    ensures r.date == ItemDate(co, ns, x).value
    ensures r.slug == Field(ns, x, "wp", "post_name", false)
    ensures r.status == Field(ns, x, "wp", "status", false)
    ensures r.kind == Field(ns, x, "wp", "post_type", false)
    ensures r.wpId == Field(ns, x, "wp", "post_id", false)
    ensures r.parent == Field(ns, x, "wp", "post_parent", false)
    ensures r.comments <==> Field(ns, x, "wp", "comment_status", false) == "open"
    ensures r.taxonomies == FilterCategories(x.categories, cfg.taxonomyFilter, cfg.entryFilter)
    ensures r.body == co.rewriteBody(Field(ns, x, "content", "encoded", true))
    ensures r.excerpt == Field(ns, x, "excerpt", "encoded", true)
    ensures r.images == co.imagesOf(r.body)
    ensures r.attachmentUrl.None?
  {
    var body := co.rewriteBody(Field(ns, x, "content", "encoded", true));
    Item(
      Field(ns, x, "", "title", false), Field(ns, x, "", "link", false), Field(ns, x, "dc", "creator", false),
      ItemDate(co, ns, x).value,
      Field(ns, x, "wp", "post_name", false), Field(ns, x, "wp", "status", false), Field(ns, x, "wp", "post_type", false),
      Field(ns, x, "wp", "post_id", false), Field(ns, x, "wp", "post_parent", false),
      Field(ns, x, "wp", "comment_status", false) == "open",
      FilterCategories(x.categories, cfg.taxonomyFilter, cfg.entryFilter),
      body, Field(ns, x, "excerpt", "encoded", true), co.imagesOf(body), None)
  }

  /** An attachment item with its URL path recorded and, when a link
      template is configured, the rewritten link put before its body. The
      images were collected before, from the body alone. */
  function WithAttachment(cfg: Config, co: Collaborators, item: Item, url: string): (r: Item)
    ensures r == item.(body := r.body, attachmentUrl := Some(url))
    ensures EndsWith(r.body, item.body)
    ensures cfg.attachmentTemplate == "" ==> r.body == item.body
    ensures cfg.attachmentTemplate != "" ==>
              r.body == co.rewriteBody(co.renderLink(cfg.attachmentTemplate, item.title, url)) + item.body
  {
    if cfg.attachmentTemplate == "" then
      EndsWithAppend("", item.body);
      item.(attachmentUrl := Some(url))
    else
      var link := co.rewriteBody(co.renderLink(cfg.attachmentTemplate, item.title, url));
      EndsWithAppend(link, item.body);
      item.(body := link + item.body, attachmentUrl := Some(url))
  }

  /** The body of an attachment splits back into the text put in front of it
      (the rewritten link, or nothing without a template) and the body it
      had before. */
  lemma AttachmentBodySplits(cfg: Config, co: Collaborators, item: Item, url: string)
    ensures var r := WithAttachment(cfg, co, item, url);
            && |item.body| <= |r.body|
            && r.body[|r.body| - |item.body|..] == item.body
            && r.body[..|r.body| - |item.body|]
               == if cfg.attachmentTemplate == "" then "" else co.rewriteBody(co.renderLink(cfg.attachmentTemplate, item.title, url))
  {
  }

  /** The item read from `x`. */
  function BuildItem(cfg: Config, co: Collaborators, ns: Namespaces, x: XmlItem): (r: Item)
    requires ItemDate(co, ns, x).Some?
    ensures r.taxonomies == FilterCategories(x.categories, cfg.taxonomyFilter, cfg.entryFilter)
    ensures r.attachmentUrl.Some? <==> r.kind == "attachment"
    ensures r.attachmentUrl.Some? ==> r.attachmentUrl.value == co.urlPath(Field(ns, x, "wp", "attachment_url", false))
    ensures r.images == co.imagesOf(co.rewriteBody(Field(ns, x, "content", "encoded", true)))
    ensures EndsWith(r.body, co.rewriteBody(Field(ns, x, "content", "encoded", true)))
    ensures r.kind != "attachment" || cfg.attachmentTemplate == "" ==> r.body == co.rewriteBody(Field(ns, x, "content", "encoded", true))
    ensures r.kind == "attachment" && cfg.attachmentTemplate != "" ==>
              r.body == co.rewriteBody(co.renderLink(cfg.attachmentTemplate, Field(ns, x, "", "title", false),
                                                     co.urlPath(Field(ns, x, "wp", "attachment_url", false))))
                        + co.rewriteBody(Field(ns, x, "content", "encoded", true))
  {
    var item := BaseItem(cfg, co, ns, x);
    if item.kind != "attachment" then item
    else WithAttachment(cfg, co, item, co.urlPath(Field(ns, x, "wp", "attachment_url", false)))
  }

  /** Read one item. Reading fails on an undeclared namespace prefix, and on
      a date that parses neither as `post_date_gmt` nor as `post_date`; the
      converter catches neither. The fields are read in the order content,
      excerpt, dates, creator, so a bad date is met before a missing `dc`. */
  function ParseItem(cfg: Config, co: Collaborators, ns: Namespaces, x: XmlItem): (r: Result<Item>)
    ensures r.Success? <==> ItemPrefixesDeclared(ns) && ItemDate(co, ns, x).Some?
    ensures r.Failure? ==> r.fault.UnknownPrefix? || r.fault.BadDate?
    ensures r.Failure? && r.fault.UnknownPrefix? ==> r.fault.prefix !in ns
    ensures r.Failure? && r.fault.BadDate? ==> DatePrefixesDeclared(ns) && ItemDate(co, ns, x).None?
    ensures r.Success? ==> r.value == BuildItem(cfg, co, ns, x)
    ensures !DatePrefixesDeclared(ns) ==> r == Failure(UnknownPrefix(MissingPrefix(ns)))
    ensures DatePrefixesDeclared(ns) && ItemDate(co, ns, x).None? ==> r.Failure? && r.fault.BadDate?
  {
    if !DatePrefixesDeclared(ns) then Failure(UnknownPrefix(MissingPrefix(ns)))
    else if ItemDate(co, ns, x).None? then Failure(BadDate(Field(ns, x, "wp", "post_date", false)))
    else if "dc" !in ns then Failure(UnknownPrefix("dc"))
    else Success(BuildItem(cfg, co, ns, x))
  }

  /** Apply `read` to every element in order; the first failure ends the
      run with its fault. */
  function ReadAll<A, B>(xs: seq<A>, read: A -> Result<B>): (r: Result<seq<B>>)
    ensures r.Success? <==> forall k :: 0 <= k < |xs| ==> read(xs[k]).Success?
    ensures r.Success? ==> |r.value| == |xs| && forall k :: 0 <= k < |xs| ==> read(xs[k]) == Success(r.value[k])
    ensures r.Failure? ==> exists k :: 0 <= k < |xs| && read(xs[k]) == Failure(r.fault)
                                      && forall j :: 0 <= j < k ==> read(xs[j]).Success?
    decreases |xs|
  {
    if |xs| == 0 then Success([])
    else
      var head := read(xs[0]);
      if head.Failure? then Failure(head.fault)
      else
        var tail := ReadAll(xs[1..], read);
        assert forall k :: 0 <= k < |xs| - 1 ==> xs[1..][k] == xs[k + 1];
        if tail.Failure? then
          var k :| 0 <= k < |xs| - 1 && read(xs[1..][k]) == Failure(tail.fault)
                   && forall j :: 0 <= j < k ==> read(xs[1..][j]).Success?;
          assert read(xs[k + 1]) == Failure(tail.fault);
          Failure(tail.fault)
        else Success([head.value] + tail.value)
  }

  /** Read every item of an export, in document order. The first item that
      cannot be read ends the whole read with its fault. */
  function ParseItems(cfg: Config, co: Collaborators, ns: Namespaces, xs: seq<XmlItem>): (r: Result<seq<Item>>)
    ensures r.Success? <==> forall k :: 0 <= k < |xs| ==> ParseItem(cfg, co, ns, xs[k]).Success?
    ensures r.Success? ==> |r.value| == |xs|
    ensures r.Success? ==> forall k :: 0 <= k < |xs| ==> ParseItem(cfg, co, ns, xs[k]) == Success(r.value[k])
    ensures r.Failure? ==> exists k :: 0 <= k < |xs| && ParseItem(cfg, co, ns, xs[k]) == Failure(r.fault)
                                      && forall j :: 0 <= j < k ==> ParseItem(cfg, co, ns, xs[j]).Success?
  {
    ReadAll(xs, x => ParseItem(cfg, co, ns, x))
  }
}
