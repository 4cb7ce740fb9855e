/** Item identifiers (`get_item_uid` in exitwp.py): a file-system safe name
    per item, cached per namespace by the item's WordPress id and made unique
    inside its namespace with an `_n` suffix.

    `Resolve` is the identifier cache as its authors intended it. The source
    differs on purpose-defeating points, modelled separately by
    `ResolveAsWritten`: its collision loop tests the candidate against the
    table's keys (item ids) rather than the identifiers already handed out,
    it records nothing when the first candidate is accepted, and when it does
    record it uses the wp_id of the item of the outer conversion loop, which
    is not the item being resolved while a page's parents are walked. The
    rest of the model uses `Resolve`. */
module Identifiers {
  import opened Strings
  import opened Decimal
  import opened Candidates
  import opened Tables

  /** The text an identifier is made from: the slug, else the title, else
      `untitled`. */
  function NameSource(slug: string, title: string): (r: string)
    ensures r != ""
    ensures slug != "" ==> r == slug
    ensures slug == "" && title != "" ==> r == title
    ensures slug == "" && title == "" ==> r == "untitled"
  {
    if slug != "" then slug else if title != "" then title else "untitled"
  }

  /** The date part of a dated identifier: `YYYY-MM-DD-`, followed by
      `<wp_id>-` when ids are prefixed too. */
  function DatePrefix(day: string, wpId: string, withId: bool): (r: string)
    ensures StartsWith(r, day + "-")
    ensures withId ==> r == day + "-" + wpId + "-"
    ensures !withId ==> r == day + "-"
  {
    day + "-" + (if withId then wpId + "-" else "")
  }

  /** The identifier before collision handling: `prefix` followed by the
      sanitised slug, title or `untitled`. */
  function BaseUid(prefix: string, slug: string, title: string): string {
    prefix + SanitizeTitle(NameSource(slug, title))
  }

  /** An identifier starts with its prefix and holds only slug characters
      after it, taken from the slug, else the title, else `untitled`. */
  lemma BaseUidShape(prefix: string, slug: string, title: string)
    ensures var r := BaseUid(prefix, slug, title);
            && StartsWith(r, prefix)
            && (forall k :: |prefix| <= k < |r| ==> IsSlugChar(r[k]))
            && (slug != "" ==> r == prefix + SanitizeTitle(slug))
            && (slug == "" && title != "" ==> r == prefix + SanitizeTitle(title))
            && (slug == "" && title == "" ==> r == prefix + "untitled")
  {
    SanitizeKeepsSlugs("untitled");
    SanitizeGivesSlug(NameSource(slug, title));
  }

  /** The identifier base of an item: dated for posts and attachments,
      undated for pages and for the parents of a page. */
  function ItemBase(day: string, wpId: string, slug: string, title: string, dated: bool, withId: bool): string {
    BaseUid(if dated then DatePrefix(day, wpId, withId) else "", slug, title)
  }

  /** The identifier given to an item and the cache after the call. */
  datatype Assignment = Assignment(uid: string, table: Table)

  /** `base`, or `base_n` for the smallest n >= 2, whichever is not yet an
      identifier in `used`. */
  function Disambiguate(used: set<string>, base: string): (r: string)
    ensures r !in used
    ensures base !in used ==> r == base
  {
    if base !in used then base
    else Candidate(base + "_", FirstFree(used, base + "_", "", 2), "")
  }

  /** A taken base gets the first `_n`, counting from 2, that is free. */
  lemma DisambiguateFirst(used: set<string>, base: string)
    requires base in used
    ensures exists n: nat :: n >= 2 && Disambiguate(used, base) == Candidate(base + "_", n, "")
              && forall m :: 2 <= m < n ==> Candidate(base + "_", m, "") in used
  {
    var n := FirstFree(used, base + "_", "", 2);
    assert Disambiguate(used, base) == Candidate(base + "_", n, "");
  }

  /** The identifier of the item with id `wpId` in namespace `ns`, with
      `base` as its uncached form (the intended behaviour of the cache). */
  function Resolve(t: Table, ns: string, wpId: string, base: string): (r: Assignment)
    ensures ns in r.table && wpId in r.table[ns] && r.table[ns][wpId] == r.uid
    ensures wpId in Inner(t, ns) ==> r.uid == t[ns][wpId] && r.table == t
  {
    var known := Inner(t, ns);
    if wpId in known then Assignment(known[wpId], t)
    else
      var uid := Disambiguate(known.Values, base);
      Assignment(uid, t[ns := known[wpId := uid]])
  }

  /** An item not yet cached gets the first free form of its base, one no
      other item of the namespace has, and only its own entry is added. */
  lemma ResolveFresh(t: Table, ns: string, wpId: string, base: string)
    requires wpId !in Inner(t, ns)
    ensures var r := Resolve(t, ns, wpId, base);
            && r.uid == Disambiguate(Inner(t, ns).Values, base)
            && r.uid !in Inner(t, ns).Values
            && r.table == t[ns := Inner(t, ns)[wpId := r.uid]]
  {
  }

  /** The cache only grows, and keeps identifiers distinct inside every
      namespace. */
  lemma ResolveKeeps(t: Table, ns: string, wpId: string, base: string)
    ensures var r := Resolve(t, ns, wpId, base);
            && (AllInjective(t) ==> AllInjective(r.table))
            && Extends(t, r.table)
  {
    var known := Inner(t, ns);
    if wpId !in known {
      AddFresh(t, ns, wpId, Disambiguate(known.Values, base));
    }
  }

  /** Resolving an item a second time gives the same identifier and changes
      nothing, whatever base is offered the second time. */
  lemma ResolveIdempotent(t: Table, ns: string, wpId: string, base: string, base2: string)
    ensures Resolve(Resolve(t, ns, wpId, base).table, ns, wpId, base2) == Resolve(t, ns, wpId, base)
  {
  }

  /** Two items with different ids resolved one after the other in the same
      namespace get different identifiers. */
  lemma ResolveSeparates(t: Table, ns: string, id1: string, id2: string, base1: string, base2: string)
    requires AllInjective(t) && id1 != id2
    ensures var a := Resolve(t, ns, id1, base1);
            Resolve(a.table, ns, id2, base2).uid != a.uid
  {
    var a := Resolve(t, ns, id1, base1);
    var b := Resolve(a.table, ns, id2, base2);
    ResolveKeeps(t, ns, id1, base1);
    ResolveKeeps(a.table, ns, id2, base2);
    assert a.table[ns][id1] == a.uid;
    assert b.table[ns][id2] == b.uid && b.table[ns][id1] == a.uid;
  }

  // ------------------------------------------------------------ as written

  /** The cache as exitwp.py:225-260 is written. `loopWpId` is the wp_id of
      the item of the outer conversion loop. */
  function ResolveAsWritten(t: Table, ns: string, wpId: string, base: string, loopWpId: string): (r: Assignment)
    ensures wpId in Inner(t, ns) ==> r.uid == t[ns][wpId] && r.table == t
    ensures wpId !in Inner(t, ns) && base !in Inner(t, ns) ==> r.uid == base && r.table == t[ns := Inner(t, ns)]
    ensures wpId !in Inner(t, ns) && base in Inner(t, ns) ==>
              && r.uid !in Inner(t, ns) && r.uid != loopWpId
              && r.table == t[ns := Inner(t, ns)[loopWpId := r.uid]]
    ensures wpId !in Inner(t, ns) && base in Inner(t, ns) ==>
              r.uid == Candidate(base + "_", FirstFree(Inner(t, ns).Keys + {loopWpId}, base + "_", "", 2), "")
  {
    var known := Inner(t, ns);
    if wpId in known then Assignment(known[wpId], t)
    else if base !in known then Assignment(base, t[ns := known])
    else
      // each failed try stores the next candidate under `loopWpId`, so later
      // tries also test against that key
      var used := known.Keys + {loopWpId};
      var uid := Candidate(base + "_", FirstFree(used, base + "_", "", 2), "");
      Assignment(uid, t[ns := known[loopWpId := uid]])
  }

  /** As written, when the base happens to be an item id of the table, the
      suffixed identifier is stored under the outer loop's item (`7`), and
      the item being resolved (`2`) stays uncached. */
  lemma AsWrittenStoresUnderLoopItem()
    ensures var r := ResolveAsWritten(map["" := map["about" := "x"]], "", "2", "about", "7");
            && r.uid == "about_2"
            && r.table[""]["7"] == "about_2"
            && "2" !in r.table[""]
  {
    assert Candidate("about_", 2, "") == "about_2";
    assert FirstFree({"about", "7"}, "about_", "", 2) == 2;
  }

  /** As written, two pages with ids 1 and 2 and the same slug `about` both
      get the identifier `about`, and so the same output file; the intended
      cache gives the second one `about_2`. */
  lemma AsWrittenCollides()
    ensures var a := ResolveAsWritten(map[], "", "1", "about", "1");
            var b := ResolveAsWritten(a.table, "", "2", "about", "2");
            a.uid == "about" && b.uid == "about"
    ensures var a := Resolve(map[], "", "1", "about");
            var b := Resolve(a.table, "", "2", "about");
            a.uid == "about" && b.uid == "about_2"
  {
    var a := Resolve(map[], "", "1", "about");
    assert a.table[""].Values == {"about"};
    var used := {"about"};
    assert Candidate("about_", 2, "") == "about_2";
    assert FirstFree(used, "about_", "", 2) == 2;
  }
}
