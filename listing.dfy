/**
  The per-category document lists of internal/crawler/crawler.go: a Go map
  from category to a slice of documents. It covers how the lists are read
  back in one sequence (GetAllDocuments) and how a dedup table is regrouped
  into lists (updateDocumentsFromDuplicateMap). Go visits the keys of a map
  in an unspecified order; here that order is an explicit sequence of keys.
*/
module Listing {
  import opened Seqs
  import opened Models

  /** Go's `m[c]` on a map of slices: the empty slice for a missing key. */
  function ListOf(m: map<string, seq<Document>>, c: string): seq<Document>
  {
    if c in m then m[c] else []
  }

  /** The lists of `m` appended in the order `order` visits their keys. */
  function ConcatOrder(m: map<string, seq<Document>>, order: seq<string>): seq<Document>
  {
    FlatMap(order, c => ListOf(m, c))
  }

  /** Visiting two categories appends their two lists. */
  lemma ConcatTwo(m: map<string, seq<Document>>, a: string, b: string)
    ensures ConcatOrder(m, [a, b]) == ListOf(m, a) + ListOf(m, b)
  {
    FlatMapSnoc([a], b, c => ListOf(m, c));
    FlatMapSnoc([], a, c => ListOf(m, c));
    assert [a] + [b] == [a, b] && [] + [a] == [a];
  }

  /** `order` is a possible iteration order of the key set `keys`: each key
      exactly once. */
  ghost predicate IterationOrder(order: seq<string>, keys: set<string>)
  {
    Distinct(order) && forall c :: c in order <==> c in keys
  }

  /** A sequence without repetitions holds each of its elements once. */
  lemma {:induction false} DistinctOnce<T>(s: seq<T>, x: T)
    requires Distinct(s)
    decreases |s|
    ensures multiset(s)[x] == if x in s then 1 else 0
  {
    if s != [] {
      var init := s[..|s| - 1];
      assert s == init + [s[|s| - 1]];
      assert Distinct(init);
      assert s[|s| - 1] !in init;
      DistinctOnce(init, x);
    }
  }

  /** Two iteration orders of the same keys are permutations of each other. */
  lemma IterationOrdersPermute(o1: seq<string>, o2: seq<string>, keys: set<string>)
    requires IterationOrder(o1, keys) && IterationOrder(o2, keys)
    ensures multiset(o1) == multiset(o2)
  {
    forall c ensures multiset(o1)[c] == multiset(o2)[c] {
      DistinctOnce(o1, c);
      DistinctOnce(o2, c);
    }
  }

  /** An iteration order is as long as the key set. */
  lemma {:induction false} IterationOrderLength(order: seq<string>, keys: set<string>)
    requires IterationOrder(order, keys)
    decreases |order|
    ensures |order| == |keys|
  {
    if order != [] {
      var init, c := order[..|order| - 1], order[|order| - 1];
      assert order == init + [c];
      assert c !in init;
      IterationOrderLength(init, keys - {c});
    } else {
      assert keys == {};
    }
  }

  /** Whatever order Go visits the categories in, the flattened list holds
      the same documents, as a multiset, and has the same length. */
  lemma ConcatOrderPermutation(m: map<string, seq<Document>>, o1: seq<string>, o2: seq<string>)
    requires IterationOrder(o1, m.Keys) && IterationOrder(o2, m.Keys)
    ensures multiset(ConcatOrder(m, o1)) == multiset(ConcatOrder(m, o2))
    ensures |ConcatOrder(m, o1)| == |ConcatOrder(m, o2)|
  {
    IterationOrdersPermute(o1, o2, m.Keys);
    FlatMapPermutation(o1, o2, c => ListOf(m, c));
    assert |multiset(ConcatOrder(m, o1))| == |multiset(ConcatOrder(m, o2))|;
  }

  // ---------------------------------------------------------------------------
  // Regrouping by category

  /** The documents `t` holds under `keys`, in the order of `keys`. */
  function Values(t: map<string, Document>, keys: seq<string>): seq<Document>
    requires forall i :: 0 <= i < |keys| ==> keys[i] in t
  {
    if keys == [] then [] else Values(t, keys[..|keys| - 1]) + [t[keys[|keys| - 1]]]
  }

  /** The documents of `ds` whose category is `c`, in order. */
  function OfCategory(ds: seq<Document>, c: string): (r: seq<Document>)
    ensures |r| <= |ds|
    ensures forall i :: 0 <= i < |r| ==> r[i].category == c && r[i] in ds
  {
    if ds == [] then []
    else
      var init, d := ds[..|ds| - 1], ds[|ds| - 1];
      var r := OfCategory(init, c);
      assert forall x :: x in init ==> x in ds;
      if d.category == c then r + [d] else r
  }

  /** The loop of updateDocumentsFromDuplicateMap after visiting `keys`:
      each document appended to the list of its own category. */
  function Group(t: map<string, Document>, keys: seq<string>): map<string, seq<Document>>
    requires forall i :: 0 <= i < |keys| ==> keys[i] in t
  {
    if keys == [] then map[]
    else
      var g := Group(t, keys[..|keys| - 1]);
      var d := t[keys[|keys| - 1]];
      g[d.category := ListOf(g, d.category) + [d]]
  }

  /** The list of category c is the documents of that category in visiting
      order, and a category has a list exactly when some document has it. */
  lemma {:induction false} GroupByCategory(t: map<string, Document>, keys: seq<string>)
    requires forall i :: 0 <= i < |keys| ==> keys[i] in t
    decreases |keys|
    ensures forall c :: ListOf(Group(t, keys), c) == OfCategory(Values(t, keys), c)
    ensures forall c :: c in Group(t, keys) <==> OfCategory(Values(t, keys), c) != []
  {
    if keys != [] {
      var init := keys[..|keys| - 1];
      GroupByCategory(t, init);
      var vs := Values(t, keys);
      assert vs[..|vs| - 1] == Values(t, init);
    }
  }

  /** Every document listed under category c has category c. */
  lemma GroupListed(t: map<string, Document>, keys: seq<string>)
    requires forall i :: 0 <= i < |keys| ==> keys[i] in t
    ensures forall c, i :: c in Group(t, keys) && 0 <= i < |Group(t, keys)[c]| ==>
              Group(t, keys)[c][i].category == c
  {
    GroupByCategory(t, keys);
    forall c | c in Group(t, keys) ensures Group(t, keys)[c] == OfCategory(Values(t, keys), c) {
      assert ListOf(Group(t, keys), c) == Group(t, keys)[c];
    }
  }

  /** How often x occurs among the documents of category c. */
  lemma {:induction false} OfCategoryCount(ds: seq<Document>, c: string, x: Document)
    decreases |ds|
    ensures multiset(OfCategory(ds, c))[x] == if x.category == c then multiset(ds)[x] else 0
  {
    if ds != [] {
      var init := ds[..|ds| - 1];
      assert ds == init + [ds[|ds| - 1]];
      OfCategoryCount(init, c, x);
    }
  }

  /** Appending the category lists of `ds` over distinct categories `o`
      gives each document of a category in `o` as often as `ds` does. */
  lemma {:induction false} CategoryListsCount(ds: seq<Document>, o: seq<string>, x: Document)
    requires Distinct(o)
    decreases |o|
    ensures multiset(FlatMap(o, c => OfCategory(ds, c)))[x] == if x.category in o then multiset(ds)[x] else 0
  {
    if o != [] {
      var init, c := o[..|o| - 1], o[|o| - 1];
      assert o == init + [c];
      assert Distinct(init) && c !in init;
      CategoryListsCount(ds, init, x);
      OfCategoryCount(ds, c, x);
    }
  }

  /** Lists that are the category lists of `vs`, one per category that
      occurs, read back in any order hold exactly the documents of `vs`. */
  lemma CategoryListsHoldAll(g: map<string, seq<Document>>, vs: seq<Document>, o: seq<string>)
    requires forall c :: ListOf(g, c) == OfCategory(vs, c)
    requires forall c :: c in g <==> OfCategory(vs, c) != []
    requires IterationOrder(o, g.Keys)
    ensures multiset(ConcatOrder(g, o)) == multiset(vs)
  {
    FlatMapAgree(o, c => ListOf(g, c), c => OfCategory(vs, c));
    forall x ensures multiset(ConcatOrder(g, o))[x] == multiset(vs)[x] {
      CategoryListsCount(vs, o, x);
      if x in vs {
        OfCategoryCount(vs, x.category, x);
        assert x in multiset(OfCategory(vs, x.category));
      }
    }
  }

  /** Regrouping loses and invents nothing: the lists of the new map, read
      back in any order of its categories, hold exactly the documents under
      the visited keys, as a multiset, one per key visited. */
  lemma GroupKeepsDocuments(t: map<string, Document>, keys: seq<string>, o: seq<string>)
    requires forall i :: 0 <= i < |keys| ==> keys[i] in t
    requires IterationOrder(o, Group(t, keys).Keys)
    ensures multiset(ConcatOrder(Group(t, keys), o)) == multiset(Values(t, keys))
    ensures |ConcatOrder(Group(t, keys), o)| == |keys|
  {
    GroupByCategory(t, keys);
    CategoryListsHoldAll(Group(t, keys), Values(t, keys), o);
    assert |multiset(ConcatOrder(Group(t, keys), o))| == |multiset(Values(t, keys))|;
    ValuesLength(t, keys);
  }

  lemma {:induction false} ValuesLength(t: map<string, Document>, keys: seq<string>)
    requires forall i :: 0 <= i < |keys| ==> keys[i] in t
    decreases |keys|
    ensures |Values(t, keys)| == |keys|
    ensures forall i :: 0 <= i < |keys| ==> Values(t, keys)[i] == t[keys[i]]
  {
    if keys != [] {
      ValuesLength(t, keys[..|keys| - 1]);
    }
  }
}
