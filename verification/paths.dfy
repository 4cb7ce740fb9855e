/** Where output files go (`get_blog_path`, `get_item_path` and the walk up a
    page's parents in exitwp.py).

    A path is a list of segments; the OS-level joining and the
    normalisation `os.path.normpath` applies are not modelled. */
module Paths {
  import opened Base
  import opened Strings
  import opened Seqs
  import opened Tables
  import opened Identifiers
  import opened Items

  type Path = seq<string>

  // ------------------------------------------------------------ blog folder

  /** A leading `https`, else a leading `http`, removed (the pattern
      `^https?` matches the longer form when it can). */
  function DropScheme(link: string): (r: string)
    ensures StartsWith(link, "https") ==> r == link[5..]
    ensures !StartsWith(link, "https") && StartsWith(link, "http") ==> r == link[4..]
    ensures !StartsWith(link, "http") ==> r == link
    ensures EndsWith(link, r)
  {
    if StartsWith(link, "https") then link[5..]
    else if StartsWith(link, "http") then link[4..]
    else link
  }

  /** The folder name of a blog: its link without the scheme word, keeping
      only the characters of `[A-Za-z0-9_.-]`. */
  function BlogName(link: string): (r: string)
    ensures forall k :: 0 <= k < |r| ==> IsNameChar(r[k])
    ensures forall c :: multiset(r)[c] == if IsNameChar(c) then multiset(DropScheme(link))[c] else 0
  {
    FilterCounts(DropScheme(link), IsNameChar);
    Filter(DropScheme(link), IsNameChar)
  }

  /** The blog folder: `<build_dir>/jekyll/<name>`. */
  function BlogDir(buildDir: Path, link: string): (r: Path)
    ensures |r| == |buildDir| + 2 && r[..|buildDir|] == buildDir
    ensures r[|buildDir|] == "jekyll" && r[|buildDir| + 1] == BlogName(link)
  {
    buildDir + ["jekyll", BlogName(link)]
  }

  /** The scheme goes, and so do the colon and slashes; a host name made of
      folder-name characters stays as it is. */
  lemma BlogNameOfHost(host: string)
    requires forall k :: 0 <= k < |host| ==> IsNameChar(host[k])
    ensures BlogName("https://" + host) == host
  {
    var link := "https://" + host;
    var rest := "://" + host;
    assert link[..5] == "https";
    assert link[5..] == rest;
    assert rest[1..] == "//" + host && rest[2..] == "/" + host && rest[3..] == host;
    assert !IsNameChar(':') && !IsNameChar('/');
    FilterKeepsAllowed(host, IsNameChar);
    assert Filter("/" + host, IsNameChar) == host;
    assert Filter("//" + host, IsNameChar) == host;
    assert Filter(rest, IsNameChar) == host;
  }

  // -------------------------------------------------------------- item file

  /** The file an item is written to, below folder `dir` of the blog: pages
      get a folder of their own holding `index.<format>`. */
  function ItemFile(blogDir: Path, dir: Path, uid: string, kind: string, format: string): (r: Path)
    ensures |r| == |blogDir| + |dir| + (if kind == "page" then 2 else 1)
    ensures r[..|blogDir| + |dir|] == blogDir + dir
    ensures kind == "page" ==> r[|r| - 2] == uid && r[|r| - 1] == "index." + format
    ensures kind != "page" ==> r[|r| - 1] == uid + "." + format
  {
    if kind == "page" then blogDir + dir + [uid, "index." + format]
    else blogDir + dir + [uid + "." + format]
  }

  /** Different identifiers in the same folder give different files. */
  lemma ItemFileSeparates(blogDir: Path, dir: Path, u1: string, u2: string, kind: string, format: string)
    requires u1 != u2
    ensures ItemFile(blogDir, dir, u1, kind, format) != ItemFile(blogDir, dir, u2, kind, format)
  {
    var f1, f2 := ItemFile(blogDir, dir, u1, kind, format), ItemFile(blogDir, dir, u2, kind, format);
    if kind == "page" {
      assert f1[|f1| - 2] != f2[|f2| - 2];
    } else {
      var n := |f1| - 1;
      assert f1[n] == u1 + "." + format && f2[n] == u2 + "." + format;
      if |u1| == |u2| {
        var k :| 0 <= k < |u1| && u1[k] != u2[k];
        assert f1[n][k] != f2[n][k];
      } else {
        assert |f1[n]| != |f2[n]|;
      }
    }
  }

  // ------------------------------------------------------------ parent walk

  /** The position of the first item with id `id`. */
  function FindIndex(items: seq<Item>, id: string): (r: Option<nat>)
    ensures r.None? ==> forall k :: 0 <= k < |items| ==> items[k].wpId != id
    ensures r.Some? ==> r.value < |items| && items[r.value].wpId == id
    ensures r.Some? ==> forall j :: 0 <= j < r.value ==> items[j].wpId != id
    decreases |items|
  {
    if |items| == 0 then None
    else if items[0].wpId == id then Some(0)
    else
      match FindIndex(items[1..], id)
      case None => None
      case Some(k) => Some(k + 1)
  }

  /** The first item with id `id` (`next(...)` over the items). */
  function FindById(items: seq<Item>, id: string): (r: Option<Item>)
    ensures r.None? <==> forall k :: 0 <= k < |items| ==> items[k].wpId != id
    ensures r.Some? ==> r.value in items && r.value.wpId == id
    ensures r.Some? ==> exists k :: 0 <= k < |items| && items[k] == r.value && forall j :: 0 <= j < k ==> items[j].wpId != id
  {
    match FindIndex(items, id)
    case None => None
    case Some(k) => Some(items[k])
  }

  /** The walk stops at an item whose parent is `0` or not in the export. */
  predicate IsTop(items: seq<Item>, item: Item) {
    item.parent == "0" || FindById(items, item.parent).None?
  }

  /** `chain` lists parents starting from `item`: each entry is the item
      the one before it names as its parent. */
  predicate ParentChain(item: Item, chain: seq<Item>)
    decreases |chain|
  {
    |chain| == 0 || (item.parent != "0" && chain[0].wpId == item.parent && ParentChain(chain[0], chain[1..]))
  }

  /** The parents of `item`, nearest first, following `parent` ids at most
      `fuel` times. */
  function Ancestors(items: seq<Item>, item: Item, fuel: nat): (r: seq<Item>)
    ensures |r| <= fuel
    decreases fuel
  {
    if fuel == 0 || item.parent == "0" then []
    else
      match FindById(items, item.parent)
      case None => []
      case Some(p) => [p] + Ancestors(items, p, fuel - 1)
  }

  /** The walk lists items of the export, each the parent of the one before,
      and stops early only at a top item. */
  lemma {:induction false} AncestorsChain(items: seq<Item>, item: Item, fuel: nat)
    ensures var r := Ancestors(items, item, fuel);
            (forall k :: 0 <= k < |r| ==> r[k] in items)
            && ParentChain(item, r)
            && (|r| < fuel ==> IsTop(items, if |r| == 0 then item else r[|r| - 1]))
    decreases fuel
  {
    if fuel > 0 && item.parent != "0" && FindById(items, item.parent).Some? {
      var p := FindById(items, item.parent).value;
      AncestorsChain(items, p, fuel - 1);
      var rest := Ancestors(items, p, fuel - 1);
      var r := Ancestors(items, item, fuel);
      assert r == [p] + rest;
      assert r[1..] == rest;
      assert forall k :: 1 <= k < |r| ==> r[k] == rest[k - 1];
    }
  }

  /** A walk that ended at a top item ends there with any larger bound: the
      bound only matters for parent cycles, which the converter never
      leaves. */
  lemma {:induction false} AncestorsStable(items: seq<Item>, item: Item, fuel: nat, more: nat)
    requires fuel <= more && |Ancestors(items, item, fuel)| < fuel
    ensures Ancestors(items, item, more) == Ancestors(items, item, fuel)
    decreases fuel
  {
    if item.parent != "0" && FindById(items, item.parent).Some? {
      var p := FindById(items, item.parent).value;
      AncestorsStable(items, p, fuel - 1, more - 1);
    }
  }

  /** What the identifier cache is asked for a page-tree item: its id and
      its undated identifier base. */
  datatype Key = Key(wpId: string, slug: string, title: string)

  function PageKey(x: Item): (k: Key)
    ensures k.wpId == x.wpId
  {
    Key(x.wpId, x.slug, x.title)
  }

  function PageKeys(chain: seq<Item>): (r: seq<Key>)
    ensures |r| == |chain|
    ensures forall k :: 0 <= k < |chain| ==> r[k].wpId == chain[k].wpId
  {
    seq(|chain|, k requires 0 <= k < |chain| => PageKey(chain[k]))
  }

  /** The result of resolving the identifiers of a chain of items. */
  datatype Walk = Walk(uids: seq<string>, table: Table)

  /** Item `id` has identifier `uids[k]` of walk `w` recorded in the page
      namespace. */
  predicate Recorded(w: Walk, id: string, k: nat) {
    k < |w.uids| && "" in w.table && id in w.table[""] && w.table[""][id] == w.uids[k]
  }

  /** The identifier the cache gives a page-tree item: undated, in the page
      namespace. */
  function PageUid(t: Table, x: Key): Assignment {
    Resolve(t, "", x.wpId, BaseUid("", x.slug, x.title))
  }

  /** How the walk asks the cache for an identifier. The converter's walk
      uses `PageUid`; the shape of the walk does not depend on it. */
  type Resolver = (Table, Key) -> Assignment

  /** One more page-tree item resolved, its identifier appended. */
  function Step(w: Walk, x: Key, uidOf: Resolver): Walk {
    var a := uidOf(w.table, x);
    Walk(w.uids + [a.uid], a.table)
  }

  /** A step appends one identifier, records it for the item, and keeps the
      cache growing and injective. */
  lemma StepFacts(w: Walk, x: Key)
    ensures var r := Step(w, x, PageUid);
            && |r.uids| == |w.uids| + 1 && r.uids[..|w.uids|] == w.uids
            && Recorded(r, x.wpId, |w.uids|)
            && Extends(w.table, r.table)
            && (AllInjective(w.table) ==> AllInjective(r.table))
  {
    ResolveKeeps(w.table, "", x.wpId, BaseUid("", x.slug, x.title));
    var r := Step(w, x, PageUid);
    assert r.uids[..|w.uids|] == w.uids;
  }

  /** The identifier of each key of `chain`, resolved in order. */
  function ResolveChain(t: Table, chain: seq<Key>, uidOf: Resolver): Walk
    decreases |chain|
  {
    if |chain| == 0 then Walk([], t)
    else Step(ResolveChain(t, chain[..|chain| - 1], uidOf), chain[|chain| - 1], uidOf)
  }

  /** What resolving `chain` from cache `t` into walk `w` guarantees: one
      identifier per key, each key recorded with the identifier at its
      position, a cache that only grew and stayed injective. */
  predicate ChainOk(t: Table, chain: seq<Key>, w: Walk) {
    && |w.uids| == |chain|
    && (forall k :: 0 <= k < |chain| ==> Recorded(w, chain[k].wpId, k))
    && Extends(t, w.table)
    && (AllInjective(t) ==> AllInjective(w.table))
  }

  /** Resolving a chain through the cache does what `ChainOk` says. */
  lemma {:induction false} ChainFacts(t: Table, chain: seq<Key>)
    ensures ChainOk(t, chain, ResolveChain(t, chain, PageUid))
    decreases |chain|
  {
    if |chain| == 0 {
      assert Extends(t, t);
    } else {
      var p := chain[..|chain| - 1];
      ChainFacts(t, p);
      ChainStepOk(t, p, chain[|chain| - 1]);
      assert p + [chain[|chain| - 1]] == chain;
    }
  }

  lemma ChainStepOk(t: Table, p: seq<Key>, x: Key)
    requires ChainOk(t, p, ResolveChain(t, p, PageUid))
    ensures ChainOk(t, p + [x], ResolveChain(t, p + [x], PageUid))
  {
    var chain := p + [x];
    var w := ResolveChain(t, p, PageUid);
    ChainSnoc(t, p, x, PageUid);
    var r := Step(w, x, PageUid);
    StepFacts(w, x);
    ExtendsTransitive(t, w.table, r.table);
    StepKeeps(w, r, p);
    forall k | 0 <= k < |chain| ensures Recorded(r, chain[k].wpId, k) {
      if k < |p| {
        assert chain[k] == p[k];
      }
    }
  }

  /** A later step keeps what earlier ones recorded. */
  lemma StepKeeps(w: Walk, r: Walk, p: seq<Key>)
    requires forall k :: 0 <= k < |p| ==> Recorded(w, p[k].wpId, k)
    requires Extends(w.table, r.table)
    requires |w.uids| <= |r.uids| && r.uids[..|w.uids|] == w.uids
    ensures forall k :: 0 <= k < |p| ==> Recorded(r, p[k].wpId, k)
  {
    forall k | 0 <= k < |p| ensures Recorded(r, p[k].wpId, k) {
      assert Recorded(w, p[k].wpId, k);
      assert r.uids[k] == r.uids[..|w.uids|][k];
    }
  }

  /** The folders of a page below the blog folder, given the keys of its
      ancestors nearest first: their identifiers, outermost first. */
  function PageDirs(t: Table, keys: seq<Key>, uidOf: Resolver): Walk {
    var w := ResolveChain(t, keys, uidOf);
    Walk(Reverse(w.uids), w.table)
  }

  /** There is one folder per ancestor, and each ancestor's identifier is
      recorded in the page namespace of the cache, which only grows. */
  lemma PageDirsRecorded(t: Table, keys: seq<Key>)
    ensures var w := PageDirs(t, keys, PageUid);
            && |w.uids| == |keys|
            && (forall k :: 0 <= k < |keys| ==> Recorded(w, keys[k].wpId, |keys| - 1 - k))
            && Extends(t, w.table)
            && (AllInjective(t) ==> AllInjective(w.table))
  {
    var w := ResolveChain(t, keys, PageUid);
    ChainFacts(t, keys);
    var r := PageDirs(t, keys, PageUid);
    forall k | 0 <= k < |keys| ensures Recorded(r, keys[k].wpId, |keys| - 1 - k) {
      assert Recorded(w, keys[k].wpId, k);
      assert r.uids[|keys| - 1 - k] == w.uids[k];
    }
  }

  lemma ReverseSnoc<T>(s: seq<T>, x: T)
    ensures Reverse(s + [x]) == [x] + Reverse(s)
  {
    assert forall k :: 0 < k < |s| + 1 ==> ([x] + Reverse(s))[k] == s[|s| - k];
  }

  /** The walk up a page's parents as the converter runs it: while the
      current item has a parent in the export, that parent's identifier is
      resolved and put in front of the folders found so far. The number of
      steps is bounded by `fuel`. */
  function Climb(items: seq<Item>, item: Item, fuel: nat, w: Walk, uidOf: Resolver): Walk
    decreases fuel
  {
    if fuel == 0 || IsTop(items, item) then w
    else Climb(items, Parent(items, item), fuel - 1, Push(w, PageKey(Parent(items, item)), uidOf), uidOf)
  }

  /** The parent of an item that is not at the top. */
  function Parent(items: seq<Item>, item: Item): Item
    requires !IsTop(items, item)
  {
    FindById(items, item.parent).value
  }

  /** The identifier of one more parent, put in front of the folders. */
  function Push(w: Walk, key: Key, uidOf: Resolver): Walk {
    var a := uidOf(w.table, key);
    Walk([a.uid] + w.uids, a.table)
  }

  /** The identifiers of `keys`, resolved in order, each put in front. */
  function PushAll(w: Walk, keys: seq<Key>, uidOf: Resolver): Walk
    decreases |keys|
  {
    if |keys| == 0 then w else PushAll(Push(w, keys[0], uidOf), keys[1..], uidOf)
  }

  /** Climbing resolves the keys of the item's ancestors, nearest first. */
  lemma {:induction false} ClimbPushesAncestors(items: seq<Item>, item: Item, fuel: nat, w: Walk, uidOf: Resolver)
    ensures Climb(items, item, fuel, w, uidOf) == PushAll(w, PageKeys(Ancestors(items, item, fuel)), uidOf)
    decreases fuel
  {
    if fuel == 0 || IsTop(items, item) {
      NoKeys(items, item, fuel, []);
    } else {
      var p := Parent(items, item);
      ClimbPushesAncestors(items, p, fuel - 1, Push(w, PageKey(p), uidOf), uidOf);
      PushAllStep(items, item, fuel, w, uidOf);
    }
  }

  lemma PushAllStep(items: seq<Item>, item: Item, fuel: nat, w: Walk, uidOf: Resolver)
    requires fuel > 0 && !IsTop(items, item)
    ensures var p := Parent(items, item);
            PushAll(w, PageKeys(Ancestors(items, item, fuel)), uidOf)
            == PushAll(Push(w, PageKey(p), uidOf), PageKeys(Ancestors(items, p, fuel - 1)), uidOf)
  {
    var p := Parent(items, item);
    AncestorsStep(items, item, fuel);
    KeysCons(p, Ancestors(items, p, fuel - 1));
    var ks := [PageKey(p)] + PageKeys(Ancestors(items, p, fuel - 1));
    assert ks[0] == PageKey(p) && ks[1..] == PageKeys(Ancestors(items, p, fuel - 1));
  }

  /** Pushing more keys onto the folders of `keys` gives the folders of
      all of them. */
  lemma {:induction false} PushAllIsPageDirs(t: Table, keys: seq<Key>, more: seq<Key>, uidOf: Resolver)
    ensures PushAll(PageDirs(t, keys, uidOf), more, uidOf) == PageDirs(t, keys + more, uidOf)
    decreases |more|
  {
    if |more| == 0 {
      assert keys + more == keys;
    } else {
      DirsSnoc(t, keys, more[0], uidOf);
      PushAllIsPageDirs(t, keys + [more[0]], more[1..], uidOf);
      assert keys + [more[0]] + more[1..] == keys + more;
    }
  }

  /** A walk that stops at once adds no keys. */
  lemma NoKeys(items: seq<Item>, item: Item, fuel: nat, keys: seq<Key>)
    requires fuel == 0 || IsTop(items, item)
    ensures keys + PageKeys(Ancestors(items, item, fuel)) == keys
  {
    assert Ancestors(items, item, fuel) == [];
  }

  /** One more key adds its identifier in front of the folders. */
  lemma DirsSnoc(t: Table, keys: seq<Key>, key: Key, uidOf: Resolver)
    ensures PageDirs(t, keys + [key], uidOf) == Push(PageDirs(t, keys, uidOf), key, uidOf)
  {
    var w := ResolveChain(t, keys, uidOf);
    ChainSnoc(t, keys, key, uidOf);
    ReverseSnoc(w.uids, uidOf(w.table, key).uid);
  }

  /** The climb from a page with no folders yet gives its `PageDirs`. */
  lemma ClimbFromTop(items: seq<Item>, page: Item, t: Table, uidOf: Resolver)
    ensures Climb(items, page, |items|, Walk([], t), uidOf) == PageDirs(t, PageKeys(Ancestors(items, page, |items|)), uidOf)
  {
    var ks := PageKeys(Ancestors(items, page, |items|));
    ClimbPushesAncestors(items, page, |items|, Walk([], t), uidOf);
    assert PageDirs(t, [], uidOf) == Walk([], t);
    PushAllIsPageDirs(t, [], ks, uidOf);
    assert [] + ks == ks;
  }

  /** One step up the parents. */
  lemma AncestorsStep(items: seq<Item>, item: Item, fuel: nat)
    requires item.parent != "0" && fuel > 0 && FindById(items, item.parent).Some?
    ensures var p := FindById(items, item.parent).value;
            Ancestors(items, item, fuel) == [p] + Ancestors(items, p, fuel - 1)
  {
  }

  /** Resolving one more key at the end of a chain is one more step. */
  lemma ChainSnoc(t: Table, keys: seq<Key>, key: Key, uidOf: Resolver)
    ensures ResolveChain(t, keys + [key], uidOf) == Step(ResolveChain(t, keys, uidOf), key, uidOf)
  {
    assert (keys + [key])[..|keys|] == keys;
  }

  lemma KeysCons(p: Item, rest: seq<Item>)
    ensures PageKeys([p] + rest) == [PageKey(p)] + PageKeys(rest)
  {
    var l := PageKeys([p] + rest);
    var r := [PageKey(p)] + PageKeys(rest);
    forall k | 0 <= k < |l| ensures l[k] == r[k] {
      if k > 0 {
        assert ([p] + rest)[k] == rest[k - 1];
      }
    }
  }

  /** The cache once page `C` (id 3, slug `c`) has its own identifier, which
      the converter resolves before walking up its parents. */
  const AfterPageC: Table := map["" := map["3" := "c"]]

  /** From an empty cache, page `C` gets its slug `c` as identifier. */
  lemma PageC(c: Item)
    requires c.wpId == "3" && c.slug == "c"
    ensures PageUid(map[], PageKey(c)) == Assignment("c", AfterPageC)
  {
    BaseUidShape("", "c", c.title);
    SanitizeKeepsSlugs("c");
  }

  /** Pages `C` under `B` under `A`: walking up from `C` once `C` has its
      identifier gives the folders `a/b`, the parents' sanitised slugs. */
  lemma ThreeLevels(a: Item, b: Item, c: Item)
    requires a.wpId == "1" && a.parent == "0" && a.slug == "a"
    requires b.wpId == "2" && b.parent == "1" && b.slug == "b"
    requires c.wpId == "3" && c.parent == "2"
    ensures Climb([a, b, c], c, 3, Walk([], AfterPageC), PageUid).uids == ["a", "b"]
  {
    var items := [a, b, c];
    assert items[1..] == [b, c];
    assert FindIndex(items[1..], "2") == Some(0);
    assert FindById(items, "2") == Some(b);
    assert FindById(items, "1") == Some(a);
    var w1 := Push(Walk([], AfterPageC), PageKey(b), PageUid);
    var w2 := Push(w1, PageKey(a), PageUid);
    TwoParents(a, b);
    assert Climb(items, a, 1, w2, PageUid) == w2;
    assert Climb(items, b, 2, w1, PageUid) == w2;
  }

  /** Resolving parent `B` and then its parent `A`, after `C`, gives the
      folders `a/b`. */
  lemma TwoParents(a: Item, b: Item)
    requires a.wpId == "1" && a.slug == "a"
    requires b.wpId == "2" && b.slug == "b"
    ensures Push(Push(Walk([], AfterPageC), PageKey(b), PageUid), PageKey(a), PageUid).uids == ["a", "b"]
  {
    BaseUidShape("", "b", b.title);
    BaseUidShape("", "a", a.title);
    SanitizeKeepsSlugs("a");
    SanitizeKeepsSlugs("b");
    var m0 := Inner(AfterPageC, "");
    assert m0 == map["3" := "c"];
    assert "b" !in m0.Values by {
      assert forall k | k in m0 :: m0[k] == "c";
    }
    var w1 := Push(Walk([], AfterPageC), PageKey(b), PageUid);
    assert w1 == Walk(["b"], map["" := map["3" := "c", "2" := "b"]]);
    var m1 := Inner(w1.table, "");
    assert "a" !in m1.Values by {
      assert forall k | k in m1 :: m1[k] == "c" || m1[k] == "b";
    }
  }
}
