/**
  Duplicate detection of internal/crawler/crawler.go: the key of a document
  (generateDocumentHash), the number of its empty detail fields
  (countEmptyFields), one isDuplicate step on the table of survivors and the
  duplicate counter, and the sequential pass DownloadDocuments makes over
  all documents.
*/
module Dedup {
  import opened Seqs
  import opened GoText
  import opened Models
  import opened Extract
  import opened Listing

  // ---------------------------------------------------------------------------
  // The key

  /** generateDocumentHash: name, download URL, category and file path
      joined with '_'. */
  function Key(d: Document): string
  {
    d.name + "_" + d.downloadURL + "_" + d.category + "_" + d.filePath
  }

  /** A document as the crawler builds it for one of its categories, with a
      name other than "." and "..". */
  predicate Crawled(d: Document)
  {
    WellFormed(d) && d.category in CategoryFolderMapping && d.name != "." && d.name != ".."
  }

  /** The stored path of such a document is its folder, a slash and its file name. */
  lemma CrawledPath(d: Document)
    requires Crawled(d)
    ensures PlainFolder(Folder(d.category)) && PlainElement(FileName(d))
    ensures d.filePath == Folder(d.category) + "/" + FileName(d)
  {
    FolderNamesPlain(d.category);
    FileNamePlain(d);
    JoinPlain(Folder(d.category), FileName(d));
  }

  /** Cutting a common tail of known length off two equal strings. */
  lemma SameHead(a1: string, b1: string, a2: string, b2: string)
    requires a1 + b1 == a2 + b2 && |b1| == |b2|
    ensures a1 == a2 && b1 == b2
  {
    assert a1 == (a1 + b1)[..|a1|];
    assert a2 == (a2 + b2)[..|a2|];
    assert b1 == (a1 + b1)[|a1|..];
    assert b2 == (a2 + b2)[|a2|..];
  }

  /** The tail of a key: a file name without slashes after the last slash,
      a folder without '_' after the '_' before it. */
  lemma KeyTail(head1: string, f1: string, n1: string, head2: string, f2: string, n2: string)
    requires head1 + "_" + f1 + "/" + n1 == head2 + "_" + f2 + "/" + n2
    requires '/' !in n1 && '/' !in n2 && '_' !in f1 && '_' !in f2
    ensures n1 == n2 && f1 == f2 && head1 == head2
  {
    var a1, a2 := head1 + "_" + f1, head2 + "_" + f2;
    AfterLastSuffix(a1, '/', n1);
    AfterLastSuffix(a2, '/', n2);
    AppendAssoc(a1, "/", n1);
    AppendAssoc(a2, "/", n2);
    SameHead(a1, "/" + n1, a2, "/" + n2);
    AfterLastSuffix(head1, '_', f1);
    AfterLastSuffix(head2, '_', f2);
    AppendAssoc(head1, "_", f1);
    AppendAssoc(head2, "_", f2);
    SameHead(head1, "_" + f1, head2, "_" + f2);
  }

  /** The head of a key: with the category and the name's length fixed, the
      name and the URL are fixed too. */
  lemma KeyHead(name1: string, url1: string, name2: string, url2: string, cat: string)
    requires name1 + "_" + url1 + "_" + cat == name2 + "_" + url2 + "_" + cat
    requires |name1| == |name2|
    ensures name1 == name2 && url1 == url2
  {
    AppendAssoc(name1 + "_" + url1, "_", cat);
    AppendAssoc(name2 + "_" + url2, "_", cat);
    SameHead(name1 + "_" + url1, "_" + cat, name2 + "_" + url2, "_" + cat);
    AppendAssoc(name1, "_", url1);
    AppendAssoc(name2, "_", url2);
    SameHead(name1, "_" + url1, name2, "_" + url2);
    assert url1 == ("_" + url1)[1..] && url2 == ("_" + url2)[1..];
  }

  /** The key of a crawled document, written around its path. */
  lemma KeyShape(d: Document)
    requires Crawled(d)
    ensures Key(d) == d.name + "_" + d.downloadURL + "_" + d.category + "_" + Folder(d.category) + "/" + FileName(d)
  {
    CrawledPath(d);
    var h := d.name + "_" + d.downloadURL + "_" + d.category + "_";
    AppendAssoc(h, Folder(d.category) + "/", FileName(d));
    AppendAssoc(h, Folder(d.category), "/");
  }

  /** For documents the crawler builds with names other than "." and "..",
      equal keys mean equal name, URL, category and path: the path ends in
      the file name, which holds no slash and is as long as the name, and
      the folder before it holds no '_' and determines the category. */
  lemma KeyInjective(d1: Document, d2: Document)
    requires Crawled(d1) && Crawled(d2) && Key(d1) == Key(d2)
    ensures d1.name == d2.name && d1.downloadURL == d2.downloadURL
    ensures d1.category == d2.category && d1.filePath == d2.filePath
  {
    CrawledPath(d1);
    CrawledPath(d2);
    KeyShape(d1);
    KeyShape(d2);
    KeyTail(d1.name + "_" + d1.downloadURL + "_" + d1.category, Folder(d1.category), FileName(d1),
            d2.name + "_" + d2.downloadURL + "_" + d2.category, Folder(d2.category), FileName(d2));
    FolderInjective(d1.category, d2.category);
    KeyHead(d1.name, d1.downloadURL, d2.name, d2.downloadURL, d1.category);
  }

  /** The key is a string, not a tuple: without the crawler's path rule two
      different documents can share it ("a_b" with URL "c" and "a" with URL
      "b_c"). */
  lemma KeyCollision(d: Document)
    ensures var d1 := d.(name := "a_b", downloadURL := "c");
            var d2 := d.(name := "a", downloadURL := "b_c");
            Key(d1) == Key(d2) && d1.name != d2.name
  {
    var d1 := d.(name := "a_b", downloadURL := "c");
    var d2 := d.(name := "a", downloadURL := "b_c");
    assert d1.name + "_" + d1.downloadURL == d2.name + "_" + d2.downloadURL;
  }

  // ---------------------------------------------------------------------------
  // Empty fields

  /** countEmptyFields: one for each of size, downloads, modified and
      uploadedBy that is empty. */
  function EmptyFields(d: Document): nat
  {
    (if d.size == "" then 1 else 0) + (if d.downloads == "" then 1 else 0)
    + (if d.modified == "" then 1 else 0) + (if d.uploadedBy == "" then 1 else 0)
  }

  /** The four detail fields, in the order countEmptyFields tests them. */
  function Fields(d: Document): seq<string>
  {
    [d.size, d.downloads, d.modified, d.uploadedBy]
  }

  /** The number of empty strings among `fs`. */
  function CountEmpty(fs: seq<string>): (n: nat)
    ensures n <= |fs|
    ensures n == 0 <==> forall i :: 0 <= i < |fs| ==> fs[i] != ""
    ensures n == |fs| <==> forall i :: 0 <= i < |fs| ==> fs[i] == ""
  {
    if fs == [] then 0
    else
      var init := fs[..|fs| - 1];
      assert forall i :: 0 <= i < |init| ==> init[i] == fs[i];
      CountEmpty(init) + if fs[|fs| - 1] == "" then 1 else 0
  }

  /** countEmptyFields counts the empty detail fields: a number from 0 to 4,
      0 exactly when all four are filled and 4 exactly when all are empty. */
  lemma EmptyFieldsCount(d: Document)
    ensures EmptyFields(d) == CountEmpty(Fields(d))
    ensures EmptyFields(d) <= 4
    ensures EmptyFields(d) == 0 <==> d.size != "" && d.downloads != "" && d.modified != "" && d.uploadedBy != ""
    ensures EmptyFields(d) == 4 <==> d.size == "" && d.downloads == "" && d.modified == "" && d.uploadedBy == ""
  {
    var fs := Fields(d);
    assert [d.size][..0] == [];
    assert [d.size, d.downloads][..1] == [d.size];
    assert [d.size, d.downloads, d.modified][..2] == [d.size, d.downloads];
    assert fs[..3] == [d.size, d.downloads, d.modified];
    assert CountEmpty([d.size, d.downloads]) == CountEmpty([d.size]) + if d.downloads == "" then 1 else 0;
  }

  // ---------------------------------------------------------------------------
  // One isDuplicate step

  /** The duplicate table: the survivor kept for each key, and the number of
      documents declared duplicates. */
  datatype Table = Table(survivors: map<string, Document>, duplicates: nat)

  /** The table after the reset at the start of DownloadDocuments. */
  const Fresh: Table := Table(map[], 0)

  /** Every survivor is stored under its own key. */
  ghost predicate Keyed(t: Table)
  {
    forall k :: k in t.survivors ==> Key(t.survivors[k]) == k
  }

  /** `d` replaces `e`: it has strictly fewer empty fields. */
  predicate Supersedes(d: Document, e: Document)
  {
    EmptyFields(d) < EmptyFields(e)
  }

  /** What isDuplicate returns: the key is taken and `d` does not supersede
      its survivor. */
  predicate IsDuplicateIn(t: Table, d: Document)
  {
    Key(d) in t.survivors && !Supersedes(d, t.survivors[Key(d)])
  }

  /** The table after isDuplicate(d). */
  function Observe(t: Table, d: Document): Table
  {
    if IsDuplicateIn(t, d) then t.(duplicates := t.duplicates + 1)
    else t.(survivors := t.survivors[Key(d) := d])
  }

  /** One isDuplicate step: the key of `d` is taken afterwards and no other
      key changes; an unseen key stores `d`; a taken key whose survivor `d`
      supersedes stores `d`; otherwise the survivors stay and the counter
      goes up by one. The survivor never gets worse, and survivors stay
      under their own keys. */
  lemma ObserveStep(t: Table, d: Document)
    ensures var u := Observe(t, d);
            && u.survivors.Keys == t.survivors.Keys + {Key(d)}
            && (forall k :: k in t.survivors && k != Key(d) ==> u.survivors[k] == t.survivors[k])
            && (Key(d) !in t.survivors ==> u.survivors[Key(d)] == d && u.duplicates == t.duplicates)
            && (Key(d) in t.survivors && Supersedes(d, t.survivors[Key(d)]) ==>
                  u.survivors[Key(d)] == d && u.duplicates == t.duplicates)
            && (IsDuplicateIn(t, d) ==> u.survivors == t.survivors && u.duplicates == t.duplicates + 1)
            && (Key(d) in t.survivors ==>
                  EmptyFields(u.survivors[Key(d)]) <= EmptyFields(t.survivors[Key(d)]))
            && EmptyFields(u.survivors[Key(d)]) <= EmptyFields(d)
            && (Keyed(t) ==> Keyed(u))
  {
  }

  // ---------------------------------------------------------------------------
  // The pass over a sequence of documents

  /** The table after isDuplicate on each of `docs` in turn, from a fresh one. */
  function Run(docs: seq<Document>): Table
  {
    if docs == [] then Fresh else Observe(Run(docs[..|docs| - 1]), docs[|docs| - 1])
  }

  /** The keys of the documents of `docs`. */
  ghost function KeysOf(docs: seq<Document>): set<string>
  {
    set d | d in docs :: Key(d)
  }

  /** One more document: the pass is one more isDuplicate step. */
  lemma RunSnoc(docs: seq<Document>, d: Document)
    ensures Run(docs + [d]) == Observe(Run(docs), d)
  {
    assert (docs + [d])[..|docs|] == docs;
  }

  /** After the pass the survivors are stored under exactly the keys of the
      documents, each under its own key. */
  lemma {:induction false} RunKeys(docs: seq<Document>)
    decreases |docs|
    ensures Run(docs).survivors.Keys == KeysOf(docs)
    ensures Keyed(Run(docs))
  {
    if docs != [] {
      var init, d := docs[..|docs| - 1], docs[|docs| - 1];
      assert docs == init + [d];
      RunKeys(init);
      ObserveStep(Run(init), d);
      assert KeysOf(docs) == KeysOf(init) + {Key(d)};
    }
  }

  /** Record j is the first record with key k among those with the fewest
      empty fields: no record with key k has fewer, and every earlier one with
      key k has more. */
  ghost predicate FirstBest(docs: seq<Document>, k: string, j: nat)
  {
    && j < |docs| && Key(docs[j]) == k
    && (forall i :: 0 <= i < |docs| && Key(docs[i]) == k ==> EmptyFields(docs[j]) <= EmptyFields(docs[i]))
    && (forall i :: 0 <= i < j && Key(docs[i]) == k ==> EmptyFields(docs[j]) < EmptyFields(docs[i]))
  }

  /** One more record moves the first best to it exactly when it has key k
      and strictly fewer empty fields. */
  lemma FirstBestSnoc(docs: seq<Document>, d: Document, k: string, j: nat)
    requires FirstBest(docs, k, j)
    ensures FirstBest(docs + [d], k, if Key(d) == k && Supersedes(d, docs[j]) then |docs| else j)
  {
    assert forall i :: 0 <= i < |docs| ==> (docs + [d])[i] == docs[i];
  }

  /** The first record with a new key is the first best for it. */
  lemma FirstBestNew(docs: seq<Document>, d: Document)
    requires Key(d) !in KeysOf(docs)
    ensures FirstBest(docs + [d], Key(d), |docs|)
  {
    forall i | 0 <= i < |docs| ensures Key((docs + [d])[i]) != Key(d) {
      assert (docs + [d])[i] == docs[i] && docs[i] in docs;
    }
  }

  /** The survivor of key k is the first record with that key among those
      with the fewest empty fields. */
  lemma {:induction false} RunSurvivor(docs: seq<Document>, k: string) returns (j: nat)
    requires k in Run(docs).survivors
    decreases |docs|
    ensures FirstBest(docs, k, j) && docs[j] == Run(docs).survivors[k]
  {
    var init, d := docs[..|docs| - 1], docs[|docs| - 1];
    assert docs == init + [d];
    var t := Run(init);
    RunKeys(init);
    ObserveStep(t, d);
    if k in t.survivors {
      var j0 := RunSurvivor(init, k);
      FirstBestSnoc(init, d, k, j0);
      j := if Key(d) == k && Supersedes(d, init[j0]) then |init| else j0;
    } else {
      FirstBestNew(init, d);
      j := |init|;
    }
  }

  /** Two records with the same key and as many empty fields: the first one
      seen is kept and the second counted as a duplicate. */
  lemma TieKeepsFirst(a: Document, b: Document)
    requires Key(a) == Key(b) && EmptyFields(a) == EmptyFields(b)
    ensures Run([a, b]).survivors == map[Key(a) := a]
    ensures Run([a, b]).duplicates == 1
  {
    RunSnoc([], a);
    RunSnoc([a], b);
    assert [] + [a] == [a] && [a] + [b] == [a, b];
  }

  /** The number of isDuplicate steps that replaced a survivor. */
  function Replacements(docs: seq<Document>): nat
  {
    if docs == [] then 0
    else
      var init, d := docs[..|docs| - 1], docs[|docs| - 1];
      var t := Run(init);
      Replacements(init) + if Key(d) in t.survivors && Supersedes(d, t.survivors[Key(d)]) then 1 else 0
  }

  /** Step i of the pass replaced a survivor. */
  predicate ReplacesAt(docs: seq<Document>, i: nat)
    requires i < |docs|
  {
    var t := Run(docs[..i]);
    Key(docs[i]) in t.survivors && Supersedes(docs[i], t.survivors[Key(docs[i])])
  }

  /** One step adds one document to survivors plus duplicates, unless it
      replaces a survivor. */
  lemma ObserveCount(t: Table, d: Document)
    ensures var u := Observe(t, d);
            |u.survivors| + u.duplicates + (if Key(d) in t.survivors && Supersedes(d, t.survivors[Key(d)]) then 1 else 0)
            == |t.survivors| + t.duplicates + 1
  {
  }

  /** Each document ends up a survivor, a duplicate or a replaced survivor. */
  lemma {:induction false} RunCount(docs: seq<Document>)
    decreases |docs|
    ensures |Run(docs).survivors| + Run(docs).duplicates + Replacements(docs) == |docs|
  {
    if docs != [] {
      RunCount(docs[..|docs| - 1]);
      ObserveCount(Run(docs[..|docs| - 1]), docs[|docs| - 1]);
    }
  }

  /** No replacement was counted exactly when no step replaced a survivor. */
  lemma {:induction false} ReplacementsNone(docs: seq<Document>)
    decreases |docs|
    ensures Replacements(docs) == 0 <==> forall i :: 0 <= i < |docs| ==> !ReplacesAt(docs, i)
  {
    if docs != [] {
      var init := docs[..|docs| - 1];
      ReplacementsNone(init);
      forall i | 0 <= i < |init| ensures ReplacesAt(docs, i) == ReplacesAt(init, i) {
        assert docs[..i] == init[..i];
      }
      assert docs[..|init|] == init;
      assert ReplacesAt(docs, |init|) <==> Replacements(docs) == Replacements(init) + 1;
    }
  }

  /** The counting claim of the pass: survivors plus duplicates never exceed
      the number of documents, with equality exactly when no step replaced a
      survivor. */
  lemma DedupCount(docs: seq<Document>)
    ensures |Run(docs).survivors| + Run(docs).duplicates <= |docs|
    ensures |Run(docs).survivors| + Run(docs).duplicates == |docs| <==>
              forall i :: 0 <= i < |docs| ==> !ReplacesAt(docs, i)
  {
    RunCount(docs);
    ReplacementsNone(docs);
  }

  // ---------------------------------------------------------------------------
  // Passes over several categories

  /** Two tables over disjoint keys, side by side. */
  function Merge(a: Table, b: Table): Table
  {
    Table(a.survivors + b.survivors, a.duplicates + b.duplicates)
  }

  /** A step on a key of the right-hand table happens in that table alone. */
  lemma ObserveMerge(a: Table, b: Table, d: Document)
    requires Key(d) !in a.survivors
    ensures Observe(Merge(a, b), d) == Merge(a, Observe(b, d))
  {
    var k := Key(d);
    assert k in (a.survivors + b.survivors) <==> k in b.survivors;
    if k in b.survivors {
      assert (a.survivors + b.survivors)[k] == b.survivors[k];
    }
    assert (a.survivors + b.survivors)[k := d] == a.survivors + b.survivors[k := d];
  }

  /** Passes over documents with disjoint keys are independent: the pass over
      both runs is the two passes side by side. */
  lemma {:induction false} RunAppend(xs: seq<Document>, ys: seq<Document>)
    requires KeysOf(xs) !! KeysOf(ys)
    decreases |ys|
    ensures Run(xs + ys) == Merge(Run(xs), Run(ys))
  {
    if ys == [] {
      assert xs + ys == xs;
      assert Run(xs).survivors + map[] == Run(xs).survivors;
    } else {
      var q, y := ys[..|ys| - 1], ys[|ys| - 1];
      assert ys == q + [y];
      assert xs + ys == (xs + q) + [y];
      assert KeysOf(q) <= KeysOf(ys);
      assert Key(y) in KeysOf(ys);
      RunAppend(xs, q);
      RunKeys(xs);
      RunSnoc(xs + q, y);
      RunSnoc(q, y);
      ObserveMerge(Run(xs), Run(q), y);
    }
  }

  /** No key occurs in the lists of two different categories. */
  ghost predicate CategoriesSeparate(m: map<string, seq<Document>>)
  {
    forall c1, c2 :: c1 in m && c2 in m && c1 != c2 ==> KeysOf(m[c1]) !! KeysOf(m[c2])
  }

  /** The crawler's lists, with no document named "." or "..", are
      separate: each document is listed under its own category, and keys
      determine categories. */
  lemma CrawledSeparate(m: map<string, seq<Document>>)
    requires forall c, i :: c in m && 0 <= i < |m[c]| ==> m[c][i].category == c && Crawled(m[c][i])
    ensures CategoriesSeparate(m)
  {
    forall c1, c2, k | c1 in m && c2 in m && k in KeysOf(m[c1]) && k in KeysOf(m[c2])
      ensures c1 == c2
    {
      var i1 :| 0 <= i1 < |m[c1]| && Key(m[c1][i1]) == k;
      var i2 :| 0 <= i2 < |m[c2]| && Key(m[c2][i2]) == k;
      KeyInjective(m[c1][i1], m[c2][i2]);
    }
  }

  /** The keys of categories visited before c are not c's. */
  lemma ConcatKeysApart(m: map<string, seq<Document>>, o: seq<string>, c: string)
    requires CategoriesSeparate(m) && c !in o
    ensures KeysOf(ConcatOrder(m, o)) !! KeysOf(ListOf(m, c))
  {
    forall d | d in ConcatOrder(m, o) ensures Key(d) !in KeysOf(ListOf(m, c)) {
      var i := FlatMapFrom(o, c' => ListOf(m, c'), d);
      assert o[i] != c;
      assert Key(d) in KeysOf(ListOf(m, o[i]));
    }
  }

  /** The tables `f` gives the categories of `o`, side by side. */
  function MergeAll(f: string -> Table, o: seq<string>): Table
  {
    if o == [] then Fresh else Merge(MergeAll(f, o[..|o| - 1]), f(o[|o| - 1]))
  }

  /** The tables of different categories of `cats` have disjoint keys. */
  ghost predicate Apart(f: string -> Table, cats: set<string>)
  {
    forall c1, c2, k :: c1 in cats && c2 in cats && k in f(c1).survivors && k in f(c2).survivors ==> c1 == c2
  }

  /** Tables side by side hold the keys of all of them. */
  lemma {:induction false} MergeAllKeys(f: string -> Table, o: seq<string>)
    decreases |o|
    ensures forall k :: k in MergeAll(f, o).survivors <==> exists i :: 0 <= i < |o| && k in f(o[i]).survivors
  {
    if o != [] {
      var q := o[..|o| - 1];
      assert forall i :: 0 <= i < |q| ==> q[i] == o[i];
      MergeAllKeys(f, q);
    }
  }

  /** Side by side, each key keeps the survivor of the table that has it. */
  lemma {:induction false} MergeAllValues(f: string -> Table, o: seq<string>, cats: set<string>)
    requires Apart(f, cats) && forall i :: 0 <= i < |o| ==> o[i] in cats
    decreases |o|
    ensures forall i, k :: 0 <= i < |o| && k in f(o[i]).survivors ==>
              k in MergeAll(f, o).survivors && MergeAll(f, o).survivors[k] == f(o[i]).survivors[k]
  {
    if o != [] {
      var q, c := o[..|o| - 1], o[|o| - 1];
      assert forall i :: 0 <= i < |q| ==> q[i] in cats;
      MergeAllValues(f, q, cats);
      forall i, k | 0 <= i < |o| && k in f(o[i]).survivors
        ensures k in MergeAll(f, o).survivors && MergeAll(f, o).survivors[k] == f(o[i]).survivors[k]
      {
        if i < |q| {
          assert q[i] == o[i];
          if o[i] != c {
            assert k !in f(c).survivors;
          }
        }
      }
    }
  }

  /** Side by side, the duplicate counters add up. */
  lemma {:induction false} MergeAllDuplicates(f: string -> Table, o: seq<string>)
    decreases |o|
    ensures MergeAll(f, o).duplicates == SumOf(o, c => f(c).duplicates)
  {
    if o != [] {
      MergeAllDuplicates(f, o[..|o| - 1]);
    }
  }

  /** Maps with the same keys and the same value at each key are equal. */
  lemma SameMap<K, V>(a: map<K, V>, b: map<K, V>)
    requires forall k :: k in a ==> k in b && a[k] == b[k]
    requires forall k :: k in b ==> k in a
    ensures a == b
  {
  }

  /** Side by side, a key of the table of a listed category is there with
      that table's survivor. */
  lemma MergeAllLookup(f: string -> Table, o: seq<string>, cats: set<string>, c: string, k: string)
    requires Apart(f, cats) && forall i :: 0 <= i < |o| ==> o[i] in cats
    requires c in o && k in f(c).survivors
    ensures k in MergeAll(f, o).survivors && MergeAll(f, o).survivors[k] == f(c).survivors[k]
  {
    MergeAllValues(f, o, cats);
    var i :| 0 <= i < |o| && o[i] == c;
  }

  /** Side by side, the survivors do not depend on the order of the
      categories. */
  lemma MergeAllSurvivors(f: string -> Table, o1: seq<string>, o2: seq<string>, cats: set<string>)
    requires Apart(f, cats) && IterationOrder(o1, cats) && IterationOrder(o2, cats)
    ensures MergeAll(f, o1).survivors == MergeAll(f, o2).survivors
  {
    assert forall i :: 0 <= i < |o1| ==> o1[i] in cats;
    assert forall i :: 0 <= i < |o2| ==> o2[i] in cats;
    MergeAllKeys(f, o1);
    MergeAllKeys(f, o2);
    var s1, s2 := MergeAll(f, o1).survivors, MergeAll(f, o2).survivors;
    forall k | k in s1 ensures k in s2 && s1[k] == s2[k] {
      var i :| 0 <= i < |o1| && k in f(o1[i]).survivors;
      MergeAllLookup(f, o1, cats, o1[i], k);
      MergeAllLookup(f, o2, cats, o1[i], k);
    }
    forall k | k in s2 ensures k in s1 {
      var j :| 0 <= j < |o2| && k in f(o2[j]).survivors;
      MergeAllLookup(f, o1, cats, o2[j], k);
    }
    SameMap(s1, s2);
  }

  /** Side by side does not depend on the order of the categories. */
  lemma MergeAllPermutation(f: string -> Table, o1: seq<string>, o2: seq<string>, cats: set<string>)
    requires Apart(f, cats) && IterationOrder(o1, cats) && IterationOrder(o2, cats)
    ensures MergeAll(f, o1) == MergeAll(f, o2)
  {
    MergeAllSurvivors(f, o1, o2, cats);
    MergeAllDuplicates(f, o1);
    MergeAllDuplicates(f, o2);
    IterationOrdersPermute(o1, o2, cats);
    SumOfPermutation(o1, o2, c => f(c).duplicates);
  }

  /** The pass over the categories in order `o` is the per-category passes
      side by side. */
  lemma {:induction false} RunConcat(m: map<string, seq<Document>>, o: seq<string>, f: string -> Table)
    requires CategoriesSeparate(m) && Distinct(o)
    requires forall c :: f(c) == Run(ListOf(m, c))
    decreases |o|
    ensures Run(ConcatOrder(m, o)) == MergeAll(f, o)
  {
    if o != [] {
      var q, c := o[..|o| - 1], o[|o| - 1];
      assert o == q + [c];
      assert Distinct(q) && c !in q;
      RunConcat(m, q, f);
      FlatMapSnoc(q, c, c' => ListOf(m, c'));
      ConcatKeysApart(m, q, c);
      RunAppend(ConcatOrder(m, q), ListOf(m, c));
    } else {
      assert ConcatOrder(m, o) == [];
    }
  }

  /** The per-category passes have disjoint keys. */
  lemma PassesApart(m: map<string, seq<Document>>, f: string -> Table)
    requires CategoriesSeparate(m)
    requires forall c :: f(c) == Run(ListOf(m, c))
    ensures Apart(f, m.Keys)
  {
    forall c | c in m ensures f(c).survivors.Keys == KeysOf(m[c]) {
      RunKeys(m[c]);
    }
    forall c1, c2, k | c1 in m && c2 in m && k in f(c1).survivors && k in f(c2).survivors
      ensures c1 == c2
    {
      assert k in KeysOf(m[c1]) && k in KeysOf(m[c2]);
    }
  }

  /** Cross-category order does not matter: whatever order Go's map
      iteration visits the categories in, the pass leaves the same table,
      and that table is the per-category passes side by side. */
  lemma RunOrderIndependent(m: map<string, seq<Document>>, o1: seq<string>, o2: seq<string>)
    requires CategoriesSeparate(m)
    requires IterationOrder(o1, m.Keys) && IterationOrder(o2, m.Keys)
    ensures Run(ConcatOrder(m, o1)) == Run(ConcatOrder(m, o2))
    ensures Run(ConcatOrder(m, o1)) == MergeAll(c => Run(ListOf(m, c)), o1)
  {
    var f := c => Run(ListOf(m, c));
    RunConcat(m, o1, f);
    RunConcat(m, o2, f);
    PassesApart(m, f);
    MergeAllPermutation(f, o1, o2, m.Keys);
  }
}
