/** Field-level diffs between two dictionaries, and what they can undo. */
module Diff {
  import opened Flagger

  datatype Change = Change(before: Json, after: Json)

  /** `d.get(k)`: a missing key reads as null. */
  function Get<K>(d: map<K, Json>, k: K): Json {
    if k in d then d[k] else Null
  }

  /** The changed fields among some keys. */
  function DiffOn<K>(existing: map<K, Json>, scraped: map<K, Json>, keys: set<K>): map<K, Change> {
    map k | k in keys && Get(existing, k) != Get(scraped, k) :: Change(Get(existing, k), Get(scraped, k))
  }

  function DiffOf<K>(existing: map<K, Json>, scraped: map<K, Json>): map<K, Change> {
    DiffOn(existing, scraped, existing.Keys + scraped.Keys)
  }

  lemma DiffOneMore<K>(existing: map<K, Json>, scraped: map<K, Json>, done: set<K>, key: K)
    ensures DiffOn(existing, scraped, done + {key})
         == if Get(existing, key) != Get(scraped, key)
            then DiffOn(existing, scraped, done)[key := Change(Get(existing, key), Get(scraped, key))]
            else DiffOn(existing, scraped, done)
  {
  }

  /** Exactly the keys that read differently, each with both readings. */
  ghost predicate ListsChanges<K(!new)>(out: map<K, Change>, existing: map<K, Json>, scraped: map<K, Json>) {
    && (forall k :: k in out <==> k in existing.Keys + scraped.Keys && Get(existing, k) != Get(scraped, k))
    && forall k :: k in out ==>
         out[k].before == Get(existing, k) && out[k].after == Get(scraped, k) && out[k].before != out[k].after
  }

  lemma DiffListsChanges<K(!new)>(existing: map<K, Json>, scraped: map<K, Json>)
    ensures ListsChanges(DiffOf(existing, scraped), existing, scraped)
  {
  }

  method ComputeDiff<K(==,!new)>(existing: map<K, Json>, scraped: map<K, Json>) returns (out: map<K, Change>)
    ensures out == DiffOf(existing, scraped)
    ensures ListsChanges(out, existing, scraped)
  {
    DiffListsChanges(existing, scraped);
    out := map[];
    var todo := existing.Keys + scraped.Keys;
    ghost var done: set<K> := {};
    while todo != {}
      invariant done + todo == existing.Keys + scraped.Keys
      invariant out == DiffOn(existing, scraped, done)
      decreases |todo|
    {
      var key :| key in todo;
      DiffOneMore(existing, scraped, done, key);
      assert todo - {key} < todo;
      var before, after := Get(existing, key), Get(scraped, key);
      if before != after {
        out := out[key := Change(before, after)];
      }
      todo, done := todo - {key}, done + {key};
    }
    assert done == existing.Keys + scraped.Keys;
  }

  /** Replaces every changed field by its new value. */
  function Patch<K>(d: map<K, Json>, diff: map<K, Change>): map<K, Json> {
    map k | k in d.Keys + diff.Keys :: if k in diff then diff[k].after else d[k]
  }

  function Swap<K>(diff: map<K, Change>): map<K, Change> {
    map k | k in diff :: Change(diff[k].after, diff[k].before)
  }

  /** A diff is empty exactly when no field reads differently. */
  lemma DiffEmptyIff<K(!new)>(a: map<K, Json>, b: map<K, Json>)
    ensures DiffOf(a, b) == map[] <==> forall k :: k in a.Keys + b.Keys ==> Get(a, k) == Get(b, k)
  {
    forall k | k in a.Keys + b.Keys && Get(a, k) != Get(b, k) ensures DiffOf(a, b) != map[] {
      assert k in DiffOf(a, b);
    }
  }

  /** Over the same fields, an empty diff means equal records. */
  lemma DiffDetectsEveryChange<K(!new)>(a: map<K, Json>, b: map<K, Json>)
    requires a.Keys == b.Keys
    ensures DiffOf(a, b) == map[] <==> a == b
  {
    DiffEmptyIff(a, b);
    if DiffOf(a, b) == map[] {
      forall k | k in a ensures a[k] == b[k] { assert Get(a, k) == Get(b, k); }
    }
  }

  /** A missing key and a null one cannot be told apart. */
  lemma DiffMissesMissingKeys<K(!new)>(k: K)
    ensures map[k := Null] != map[] && DiffOf(map[k := Null], map[]) == map[]
  {
    assert k in map[k := Null];
  }

  /** Patching goes forward, patching with the swapped diff goes back. */
  lemma PatchInverts<K(!new)>(a: map<K, Json>, b: map<K, Json>)
    requires a.Keys == b.Keys
    ensures Patch(a, DiffOf(a, b)) == b
    ensures Patch(b, Swap(DiffOf(a, b))) == a
  {
  }
}
