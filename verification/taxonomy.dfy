/** Taxonomies of an item: categories and tags are grouped by domain when an
    export is read (exitwp.py:104-117), and renamed and de-duplicated when the
    front matter is written (exitwp.py:387-395).

    A Python dict from name to list, which keeps insertion order, is modelled
    as a sequence of groups; `Group` builds one from (name, value) pairs the
    way the source's loops do, appending to the group of that name or opening
    a new one at the end. */
module Taxonomy {
  import opened Base
  import opened Seqs

  datatype TaxGroup = TaxGroup(name: string, values: seq<string>)

  /** One (name, value) pair, in the order the source visits them. */
  type Pair = (string, string)

  function Names(gs: seq<TaxGroup>): (r: seq<string>)
    ensures |r| == |gs|
    ensures forall k :: 0 <= k < |gs| ==> r[k] == gs[k].name
    decreases |gs|
  {
    if |gs| == 0 then [] else [gs[0].name] + Names(gs[1..])
  }

  /** The list stored under `name` (the first group of that name), empty when
      there is none. */
  function Entries(gs: seq<TaxGroup>, name: string): seq<string>
    decreases |gs|
  {
    if |gs| == 0 then [] else if gs[0].name == name then gs[0].values else Entries(gs[1..], name)
  }

  /** Add `v` under `n`; with `unique`, a value already listed there is
      skipped. */
  function Insert(gs: seq<TaxGroup>, n: string, v: string, unique: bool): (r: seq<TaxGroup>)
    ensures Names(r) == if n in Names(gs) then Names(gs) else Names(gs) + [n]
    ensures Entries(r, n) == if unique && v in Entries(gs, n) then Entries(gs, n) else Entries(gs, n) + [v]
    ensures forall m :: m != n ==> Entries(r, m) == Entries(gs, m)
    decreases |gs|
  {
    if |gs| == 0 then [TaxGroup(n, [v])]
    else if gs[0].name == n then
      if unique && v in gs[0].values then gs
      else
        var r := [TaxGroup(n, gs[0].values + [v])] + gs[1..];
        assert r[1..] == gs[1..];
        assert Names(r) == [n] + Names(gs[1..]);
        r
    else
      var rest := Insert(gs[1..], n, v, unique);
      var r := [gs[0]] + rest;
      assert r[1..] == rest;
      assert Names(r) == [gs[0].name] + Names(rest);
      r
  }

  /** The groups the source's loop builds from `p`. */
  function Group(p: seq<Pair>, unique: bool): seq<TaxGroup>
    decreases |p|
  {
    if |p| == 0 then [] else Insert(Group(p[..|p| - 1], unique), p[|p| - 1].0, p[|p| - 1].1, unique)
  }

  /** The names of `p`, in order, repeats included. */
  function PairNames(p: seq<Pair>): (r: seq<string>)
    ensures |r| == |p|
    ensures forall k :: 0 <= k < |p| ==> r[k] == p[k].0
    decreases |p|
  {
    if |p| == 0 then [] else PairNames(p[..|p| - 1]) + [p[|p| - 1].0]
  }

  /** The values paired with `n` in `p`, in order, repeats included. */
  function ValuesOf(p: seq<Pair>, n: string): seq<string>
    decreases |p|
  {
    if |p| == 0 then []
    else ValuesOf(p[..|p| - 1], n) + (if p[|p| - 1].0 == n then [p[|p| - 1].1] else [])
  }

  lemma {:induction false} ValuesOfAppend(a: seq<Pair>, b: seq<Pair>, n: string)
    ensures ValuesOf(a + b, n) == ValuesOf(a, n) + ValuesOf(b, n)
    decreases |b|
  {
    if |b| == 0 {
      assert a + b == a;
    } else {
      assert (a + b)[..|a + b| - 1] == a + b[..|b| - 1];
      assert (a + b)[|a + b| - 1] == b[|b| - 1];
      ValuesOfAppend(a, b[..|b| - 1], n);
    }
  }

  lemma {:induction false} ValuesOfMembership(p: seq<Pair>, n: string, v: string)
    ensures v in ValuesOf(p, n) <==> exists k :: 0 <= k < |p| && p[k] == (n, v)
    decreases |p|
  {
    if |p| > 0 {
      var q := p[..|p| - 1];
      ValuesOfMembership(q, n, v);
      if v in ValuesOf(q, n) {
        var k :| 0 <= k < |q| && q[k] == (n, v);
        assert p[k] == (n, v);
      }
      if exists k :: 0 <= k < |p| && p[k] == (n, v) {
        var k :| 0 <= k < |p| && p[k] == (n, v);
        if k < |q| {
          assert q[k] == (n, v);
        }
      }
    }
  }

  /** Grouping lists each name once, in first-seen order, and keeps under each
      name its values in order: all of them, or with `unique` each once in
      first-seen order. */
  lemma {:induction false} GroupSpec(p: seq<Pair>, unique: bool)
    ensures Names(Group(p, unique)) == Dedup(PairNames(p))
    ensures forall n :: Entries(Group(p, unique), n) == if unique then Dedup(ValuesOf(p, n)) else ValuesOf(p, n)
    decreases |p|
  {
    if |p| > 0 {
      var q := p[..|p| - 1];
      var (n, v) := p[|p| - 1];
      GroupSpec(q, unique);
      assert PairNames(p) == PairNames(q) + [n];
      DedupSnoc(PairNames(q), n);
      forall m ensures Entries(Group(p, unique), m) == if unique then Dedup(ValuesOf(p, m)) else ValuesOf(p, m) {
        if m == n {
          assert ValuesOf(p, m) == ValuesOf(q, m) + [v];
          DedupSnoc(ValuesOf(q, m), v);
        } else {
          assert ValuesOf(p, m) == ValuesOf(q, m);
        }
      }
    }
  }

  // ------------------------------------------------------------ categories

  /** A `<category>` element: its `domain` attribute, if any, and its text. */
  datatype Category = Category(domain: Option<string>, text: Option<string>)

  /** `str(tax.text)`: an element without text reads as `None`. */
  function EntryText(c: Category): string {
    c.text.GetOr("None")
  }

  /** A category survives unless its domain is filtered out, or the
      per-domain entry filter names exactly this entry. */
  predicate Admitted(filter: set<string>, entryFilter: map<string, string>, domain: string, entry: string) {
    domain !in filter && !(domain in entryFilter && entryFilter[domain] == entry)
  }

  /** The surviving (domain, entry) pairs, in document order. */
  function KeptPairs(cats: seq<Category>, filter: set<string>, entryFilter: map<string, string>): seq<Pair>
    decreases |cats|
  {
    if |cats| == 0 then []
    else
      var c := cats[|cats| - 1];
      KeptPairs(cats[..|cats| - 1], filter, entryFilter)
        + (if c.domain.Some? && Admitted(filter, entryFilter, c.domain.value, EntryText(c))
           then [(c.domain.value, EntryText(c))] else [])
  }

  /** The categories of an item as the export reader keeps them. */
  function FilterCategories(cats: seq<Category>, filter: set<string>, entryFilter: map<string, string>): seq<TaxGroup> {
    Group(KeptPairs(cats, filter, entryFilter), false)
  }

  lemma {:induction false} KeptPairsMembership(cats: seq<Category>, filter: set<string>, entryFilter: map<string, string>, d: string, v: string)
    ensures (d, v) in KeptPairs(cats, filter, entryFilter) <==>
            exists k :: 0 <= k < |cats| && cats[k].domain == Some(d) && EntryText(cats[k]) == v && Admitted(filter, entryFilter, d, v)
    decreases |cats|
  {
    if |cats| > 0 {
      var pre := cats[..|cats| - 1];
      KeptPairsMembership(pre, filter, entryFilter, d, v);
      if exists k :: 0 <= k < |pre| && pre[k].domain == Some(d) && EntryText(pre[k]) == v && Admitted(filter, entryFilter, d, v) {
        var k :| 0 <= k < |pre| && pre[k].domain == Some(d) && EntryText(pre[k]) == v && Admitted(filter, entryFilter, d, v);
        assert cats[k] == pre[k];
      }
      if exists k :: 0 <= k < |cats| && cats[k].domain == Some(d) && EntryText(cats[k]) == v && Admitted(filter, entryFilter, d, v) {
        var k :| 0 <= k < |cats| && cats[k].domain == Some(d) && EntryText(cats[k]) == v && Admitted(filter, entryFilter, d, v);
        if k < |pre| {
          assert pre[k] == cats[k];
        }
      }
    }
  }

  /** Category filtering: each domain is listed once, in first-seen order,
      and its entries are the surviving entries with that domain, in document
      order with repeats; a filtered domain lists nothing. */
  lemma FilterCategoriesSpec(cats: seq<Category>, filter: set<string>, entryFilter: map<string, string>)
    ensures NoDups(Names(FilterCategories(cats, filter, entryFilter)))
    ensures forall d :: Entries(FilterCategories(cats, filter, entryFilter), d) == ValuesOf(KeptPairs(cats, filter, entryFilter), d)
    ensures forall d :: d in filter ==> Entries(FilterCategories(cats, filter, entryFilter), d) == []
  {
    var p := KeptPairs(cats, filter, entryFilter);
    GroupSpec(p, false);
    forall d | d in filter ensures ValuesOf(p, d) == [] {
      if ValuesOf(p, d) != [] {
        var v := ValuesOf(p, d)[0];
        FilterCategoriesMembership(cats, filter, entryFilter, d, v);
      }
    }
  }

  /** An entry is listed under a domain exactly when some category with that
      domain attribute carries it and survives the filters. */
  lemma FilterCategoriesMembership(cats: seq<Category>, filter: set<string>, entryFilter: map<string, string>, d: string, v: string)
    ensures v in Entries(FilterCategories(cats, filter, entryFilter), d) <==>
              exists k :: 0 <= k < |cats| && cats[k].domain == Some(d) && EntryText(cats[k]) == v && Admitted(filter, entryFilter, d, v)
  {
    var p := KeptPairs(cats, filter, entryFilter);
    GroupSpec(p, false);
    assert Entries(FilterCategories(cats, filter, entryFilter), d) == ValuesOf(p, d);
    ValuesOfMembership(p, d, v);
    InAt(p, (d, v));
    KeptPairsMembership(cats, filter, entryFilter, d, v);
  }

  lemma InAt<T>(s: seq<T>, x: T)
    ensures x in s <==> exists k :: 0 <= k < |s| && s[k] == x
  {
  }

  // ------------------------------------------------------------ renaming

  /** `taxonomy_name_mapping.get(domain, domain)`. */
  function MappedName(mapping: map<string, string>, domain: string): string {
    if domain in mapping then mapping[domain] else domain
  }

  /** The values of one group, each paired with the group's mapped name. */
  function Tagged(g: TaxGroup, mapping: map<string, string>): (r: seq<Pair>)
    ensures |r| == |g.values|
    ensures forall k :: 0 <= k < |r| ==> r[k] == (MappedName(mapping, g.name), g.values[k])
  {
    seq(|g.values|, k requires 0 <= k < |g.values| => (MappedName(mapping, g.name), g.values[k]))
  }

  /** Every value of every group, in order, paired with its mapped name. */
  function Flatten(gs: seq<TaxGroup>, mapping: map<string, string>): seq<Pair>
    decreases |gs|
  {
    if |gs| == 0 then [] else Flatten(gs[..|gs| - 1], mapping) + Tagged(gs[|gs| - 1], mapping)
  }

  /** The taxonomy block of the front matter. */
  function Remap(gs: seq<TaxGroup>, mapping: map<string, string>): seq<TaxGroup> {
    Group(Flatten(gs, mapping), true)
  }

  /** The values of every group whose domain maps to `n`, concatenated in
      group order. */
  function MappedValues(gs: seq<TaxGroup>, mapping: map<string, string>, n: string): seq<string>
    decreases |gs|
  {
    if |gs| == 0 then []
    else
      var g := gs[|gs| - 1];
      MappedValues(gs[..|gs| - 1], mapping, n) + (if MappedName(mapping, g.name) == n then g.values else [])
  }

  lemma {:induction false} TaggedValues(g: TaxGroup, mapping: map<string, string>, n: string, j: nat)
    requires j <= |g.values|
    ensures ValuesOf(Tagged(g, mapping)[..j], n) == if MappedName(mapping, g.name) == n then g.values[..j] else []
    decreases j
  {
    if j > 0 {
      TaggedValues(g, mapping, n, j - 1);
      TaggedSnoc(g, mapping, n, j);
      assert g.values[..j] == g.values[..j - 1] + [g.values[j - 1]];
    }
  }

  lemma TaggedSnoc(g: TaxGroup, mapping: map<string, string>, n: string, j: nat)
    requires 0 < j <= |g.values|
    ensures ValuesOf(Tagged(g, mapping)[..j], n)
            == ValuesOf(Tagged(g, mapping)[..j - 1], n) + (if MappedName(mapping, g.name) == n then [g.values[j - 1]] else [])
  {
    var t := Tagged(g, mapping);
    var q := t[..j];
    assert q[..j - 1] == t[..j - 1];
    assert q[j - 1] == (MappedName(mapping, g.name), g.values[j - 1]);
  }

  lemma {:induction false} FlattenValues(gs: seq<TaxGroup>, mapping: map<string, string>, n: string)
    ensures ValuesOf(Flatten(gs, mapping), n) == MappedValues(gs, mapping, n)
    decreases |gs|
  {
    if |gs| > 0 {
      var g := gs[|gs| - 1];
      FlattenValues(gs[..|gs| - 1], mapping, n);
      ValuesOfAppend(Flatten(gs[..|gs| - 1], mapping), Tagged(g, mapping), n);
      TaggedValues(g, mapping, n, |g.values|);
      assert Tagged(g, mapping)[..|g.values|] == Tagged(g, mapping);
      assert g.values[..|g.values|] == g.values;
    }
  }

  lemma {:induction false} MappedValuesMembership(gs: seq<TaxGroup>, mapping: map<string, string>, n: string, v: string)
    ensures v in MappedValues(gs, mapping, n) <==>
            exists k :: 0 <= k < |gs| && MappedName(mapping, gs[k].name) == n && v in gs[k].values
    decreases |gs|
  {
    if |gs| > 0 {
      var pre := gs[..|gs| - 1];
      MappedValuesMembership(pre, mapping, n, v);
      if exists k :: 0 <= k < |pre| && MappedName(mapping, pre[k].name) == n && v in pre[k].values {
        var k :| 0 <= k < |pre| && MappedName(mapping, pre[k].name) == n && v in pre[k].values;
        assert gs[k] == pre[k];
      }
      if exists k :: 0 <= k < |gs| && MappedName(mapping, gs[k].name) == n && v in gs[k].values {
        var k :| 0 <= k < |gs| && MappedName(mapping, gs[k].name) == n && v in gs[k].values;
        if k < |pre| {
          assert pre[k] == gs[k];
        }
      }
    }
  }

  /** Renaming: each output name is listed once; its list has no repeats,
      keeps first-seen order, and holds exactly the values of the groups
      whose domain maps to that name. */
  lemma RemapSpec(gs: seq<TaxGroup>, mapping: map<string, string>)
    ensures NoDups(Names(Remap(gs, mapping)))
    ensures forall n :: Entries(Remap(gs, mapping), n) == Dedup(MappedValues(gs, mapping, n))
    ensures forall n :: NoDups(Entries(Remap(gs, mapping), n))
    ensures forall n, v :: v in Entries(Remap(gs, mapping), n) <==>
              exists k :: 0 <= k < |gs| && MappedName(mapping, gs[k].name) == n && v in gs[k].values
  {
    GroupSpec(Flatten(gs, mapping), true);
    forall n ensures Entries(Remap(gs, mapping), n) == Dedup(MappedValues(gs, mapping, n)) {
      FlattenValues(gs, mapping, n);
    }
    forall n, v ensures v in Entries(Remap(gs, mapping), n) <==>
              exists k :: 0 <= k < |gs| && MappedName(mapping, gs[k].name) == n && v in gs[k].values {
      MappedValuesMembership(gs, mapping, n, v);
    }
  }
}
