/** Two-level string tables: the identifier cache (namespace -> item id ->
    identifier) and the attachment registry (directory -> source URL -> file
    name) both have this shape. */
module Tables {

  type Table = map<string, map<string, string>>

  /** The inner map stored under `key`, empty when there is none yet. */
  function Inner(t: Table, key: string): map<string, string> {
    if key in t then t[key] else map[]
  }

  /** No two keys share a value. */
  predicate Injective(m: map<string, string>) {
    forall a, b :: a in m && b in m && a != b ==> m[a] != m[b]
  }

  /** Every inner map is injective. */
  predicate AllInjective(t: Table) {
    forall key :: key in t ==> Injective(t[key])
  }

  /** `t2` keeps every entry of `t`. */
  predicate Extends(t: Table, t2: Table) {
    forall key :: key in t ==> key in t2 && forall k :: k in t[key] ==> k in t2[key] && t2[key][k] == t[key][k]
  }

  lemma ExtendsTransitive(t1: Table, t2: Table, t3: Table)
    requires Extends(t1, t2) && Extends(t2, t3)
    ensures Extends(t1, t3)
  {
  }

  /** Adding a fresh value under a new key keeps the inner maps injective and
      keeps every older entry. */
  lemma AddFresh(t: Table, key: string, k: string, v: string)
    requires k !in Inner(t, key) && v !in Inner(t, key).Values
    ensures AllInjective(t) ==> AllInjective(t[key := Inner(t, key)[k := v]])
    ensures Extends(t, t[key := Inner(t, key)[k := v]])
  {
    var m := Inner(t, key)[k := v];
    forall a, b | AllInjective(t) && a in m && b in m && a != b ensures m[a] != m[b] {
      if a == k {
        assert m[b] == Inner(t, key)[b] && m[b] in Inner(t, key).Values;
      } else if b == k {
        assert m[a] == Inner(t, key)[a] && m[a] in Inner(t, key).Values;
      }
    }
  }
}
