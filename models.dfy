/**
  The document record of internal/models/document.go, its file-name
  sanitiser, the category parser for listing URLs and the fixed table from
  category key to folder name.
*/
module Models {
  import opened Wrappers
  import opened GoText
  import opened Seqs

  /** One document listed on the site. `filePath` is where it is stored,
      relative to the documents directory. */
  datatype Document = Document(
    name: string,
    size: string,
    downloads: string,
    modified: string,
    uploadedBy: string,
    downloadURL: string,
    category: string,
    filePath: string)

  // ---------------------------------------------------------------------------
  // FileName

  /** The nine characters FileName replaces. */
  predicate Forbidden(c: char)
  {
    c == '/' || c == '\\' || c == ':' || c == '*' || c == '?' || c == '\"'
    || c == '<' || c == '>' || c == '|'
  }

  /** The replacements in the order the source applies them. */
  const Replaced: seq<char> := ['/', '\\', ':', '*', '?', '\"', '<', '>', '|']

  /** Apply strings.ReplaceAll(s, string(p), "_") for each p of `pats` in turn. */
  function ReplaceEach(s: string, pats: seq<char>): (r: string)
    requires '_' !in pats
    ensures |r| == |s|
    ensures forall i :: 0 <= i < |s| ==> r[i] == (if s[i] in pats then '_' else s[i])
    decreases |pats|
  {
    if pats == [] then s else ReplaceEach(ReplaceAll(s, pats[0], '_'), pats[1..])
  }

  /** The sanitised name: each character in Forbidden becomes '_', every
      other one stays where it is. */
  function FileName(d: Document): (r: string)
    ensures |r| == |d.name|
    ensures forall i :: 0 <= i < |r| ==>
              r[i] == (if Forbidden(d.name[i]) then '_' else d.name[i])
  {
    var r := ReplaceEach(d.name, Replaced);
    forall i | 0 <= i < |r| ensures r[i] == (if Forbidden(d.name[i]) then '_' else d.name[i]) {
      assert d.name[i] in Replaced <==> Forbidden(d.name[i]);
    }
    r
  }

  /** No forbidden character survives sanitising. */
  lemma FileNameSafe(d: Document)
    ensures forall i :: 0 <= i < |FileName(d)| ==> !Forbidden(FileName(d)[i])
  {
  }

  /** Sanitising a sanitised name changes nothing. */
  lemma FileNameIdempotent(d: Document)
    ensures FileName(d.(name := FileName(d))) == FileName(d)
  {
    FileNameSafe(d);
    FileNameKeepsCleanName(d.(name := FileName(d)));
  }

  /** A name without forbidden characters is its own file name. */
  lemma FileNameKeepsCleanName(d: Document)
    requires forall i :: 0 <= i < |d.name| ==> !Forbidden(d.name[i])
    ensures FileName(d) == d.name
  {
  }

  /** A sanitised string is "." or ".." exactly when the original is. */
  lemma SanitisedDots(n: string, r: string)
    requires |r| == |n|
    requires forall i :: 0 <= i < |r| ==> r[i] == (if Forbidden(n[i]) then '_' else n[i])
    ensures r == "." <==> n == "."
    ensures r == ".." <==> n == ".."
  {
    if |r| == 1 {
      assert n == [n[0]] && r == [r[0]];
    } else if |r| == 2 {
      assert n == [n[0], n[1]] && r == [r[0], r[1]];
    }
  }

  /** Only "." and ".." have "." and ".." as file names. */
  lemma FileNameDots(d: Document)
    ensures FileName(d) == "." <==> d.name == "."
    ensures FileName(d) == ".." <==> d.name == ".."
  {
    SanitisedDots(d.name, FileName(d));
  }

  /** The file name of a name other than "", "." and ".." is a plain path
      element, which filepath.Join leaves alone. */
  lemma FileNamePlain(d: Document)
    requires d.name != "" && d.name != "." && d.name != ".."
    ensures PlainElement(FileName(d))
  {
    FileNameDots(d);
    var r := FileName(d);
    forall i | 0 <= i < |r| ensures r[i] != '/' {
    }
  }

  /** Names that differ only in which forbidden character stands at a
      position share a file name ("a/b" and "a:b" both become "a_b"), so
      FileName is not injective and such documents get the same path. */
  lemma FileNameCollides(d1: Document, d2: Document)
    requires |d1.name| == |d2.name|
    requires forall i :: 0 <= i < |d1.name| ==>
               d1.name[i] == d2.name[i] || (Forbidden(d1.name[i]) && Forbidden(d2.name[i]))
    ensures FileName(d1) == FileName(d2)
  {
  }

  // ---------------------------------------------------------------------------
  // CategoryFromURL

  /** Segment `i` is one the parser accepts: non-empty, not the last one, and
      holding a '?'. */
  predicate Qualifies(parts: seq<string>, i: int)
  {
    0 <= i < |parts| - 1 && parts[i] != "" && '?' in parts[i]
  }

  /** The loop over the segments from index `i` on, with its early return. */
  function FirstCategory(parts: seq<string>, i: nat): Option<string>
    decreases |parts| - i
  {
    if i >= |parts| then None
    else if parts[i] == "" || i == |parts| - 1 then FirstCategory(parts, i + 1)
    else if Contains(parts[i], "?") then Some(Split(parts[i], "?")[0])
    else FirstCategory(parts, i + 1)
  }

  /** CategoryFromURL: the text before the first '?' of the first qualifying
      '/'-segment, or filepath.Base of the whole URL when none qualifies. */
  function CategoryFromURL(url: string): string
  {
    match FirstCategory(Split(url, "/"), 0)
    case Some(c) => c
    case None => Base(url)
  }

  lemma {:induction false} FirstCategoryFinds(parts: seq<string>, from: nat, i: nat)
    requires from <= i && Qualifies(parts, i)
    requires forall j :: from <= j < i ==> !Qualifies(parts, j)
    decreases i - from
    ensures FirstCategory(parts, from) == Some(Split(parts[i], "?")[0])
  {
    ContainsChar(parts[from], '?');
    if from < i {
      assert !Qualifies(parts, from);
      FirstCategoryFinds(parts, from + 1, i);
    }
  }

  lemma {:induction false} FirstCategoryNone(parts: seq<string>, from: nat)
    requires forall j :: from <= j ==> !Qualifies(parts, j)
    decreases |parts| - from
    ensures FirstCategory(parts, from) == None
  {
    if from < |parts| {
      ContainsChar(parts[from], '?');
      assert !Qualifies(parts, from);
      FirstCategoryNone(parts, from + 1);
    }
  }

  /** When some segment before the last is non-empty and holds a '?', the
      first such segment decides: the result is its text up to, and not
      including, its first '?'. */
  lemma CategoryFromURLFirstMatch(url: string, i: nat)
    requires Qualifies(Split(url, "/"), i)
    requires forall j :: 0 <= j < i ==> !Qualifies(Split(url, "/"), j)
    ensures var seg := Split(url, "/")[i]; var r := CategoryFromURL(url);
            r <= seg && '?' !in r && |r| < |seg| && seg[|r|] == '?'
  {
    var parts := Split(url, "/");
    var seg := parts[i];
    FirstCategoryFinds(parts, 0, i);
    var r := Split(seg, "?")[0];
    SplitFirst(seg, "?");
    ContainsChar(r, '?');
    ContainsChar(seg, '?');
    assert OccursAt(seg, "?", |r|);
    assert seg[|r|..|r| + 1] == "?";
  }

  /** Otherwise the last segment is never inspected and the result is
      filepath.Base of the URL. */
  lemma CategoryFromURLFallback(url: string)
    requires forall j :: 0 <= j ==> !Qualifies(Split(url, "/"), j)
    ensures CategoryFromURL(url) == Base(url)
  {
    FirstCategoryNone(Split(url, "/"), 0);
  }

  /** The loop skips the last segment, so its contents never matter. */
  lemma {:induction false} FirstCategoryIgnoresLast(parts: seq<string>, x: string, y: string, i: nat)
    decreases |parts| + 1 - i
    ensures FirstCategory(parts + [x], i) == FirstCategory(parts + [y], i)
  {
    if i < |parts| {
      assert (parts + [x])[i] == parts[i] == (parts + [y])[i];
      FirstCategoryIgnoresLast(parts, x, y, i + 1);
    }
  }

  /** The last '/'-segment of a URL is never inspected: whatever it holds,
      the first match over the segments before it is the same, and with no
      match a non-empty last segment is the result, query included
      ("host/cat?pagenumber=3" gives "cat?pagenumber=3"). */
  lemma CategoryFromURLKeepsLastSegment(p: string, last: string, other: string)
    requires '/' !in last && '/' !in other
    ensures FirstCategory(Split(p + "/" + last, "/"), 0) == FirstCategory(Split(p + "/" + other, "/"), 0)
    ensures FirstCategory(Split(p + "/" + last, "/"), 0).Some? ==>
              CategoryFromURL(p + "/" + last) == CategoryFromURL(p + "/" + other)
    ensures FirstCategory(Split(p + "/" + last, "/"), 0).None? && last != "" ==>
              CategoryFromURL(p + "/" + last) == last
  {
    SplitSnoc(p, '/', last);
    SplitSnoc(p, '/', other);
    FirstCategoryIgnoresLast(Split(p, "/"), last, other, 0);
    var url := p + "/" + last;
    if FirstCategory(Split(url, "/"), 0).None? && last != "" {
      var b := Base(url);
      assert url[|url| - 1] == last[|last| - 1];
      assert '/' !in b && |b| <= |url| && b == url[|url| - |b|..];
      AfterLastSuffix(p, '/', last);
    }
  }

  // ---------------------------------------------------------------------------
  // CategoryFolderMapping

  /** The category keys, in the order of `baseCategories` in
      internal/crawler/crawler.go. */
  const BaseCategories: seq<string> := [
    "bao-cao-thuong-nien",
    "bao-cao-tai-chinh",
    "dieu-le-cong-ty",
    "quy-che-quan-tri-cong-ty",
    "cong-bao-thong-tin",
    "ban-cao-bach"
  ]

  /** Category key to the (Vietnamese) folder name documents are stored under. */
  const CategoryFolderMapping: map<string, string> := map[
    "bao-cao-thuong-nien" := "Báo cáo thường niên",
    "bao-cao-tai-chinh" := "Báo cáo tài chính",
    "dieu-le-cong-ty" := "Điều lệ công ty",
    "quy-che-quan-tri-cong-ty" := "Quy chế quản trị công ty",
    "cong-bao-thong-tin" := "Công bố thông tin",
    "ban-cao-bach" := "Bản cáo bạch"
  ]

  /** The Go map lookup CategoryFolderMapping[category]: "" for a key that is
      not in the table. */
  function Folder(category: string): string
  {
    if category in CategoryFolderMapping then CategoryFolderMapping[category] else ""
  }

  /** The six base categories are distinct. */
  lemma BaseCategoriesDistinct()
    ensures |BaseCategories| == 6
    ensures forall i, j :: 0 <= i < j < |BaseCategories| ==> BaseCategories[i] != BaseCategories[j]
  {
  }

  /** The table has exactly the six base categories as keys. */
  lemma FolderTableKeys()
    ensures forall c :: c in CategoryFolderMapping <==> c in BaseCategories
  {
  }

  /** The table has six entries. */
  lemma FolderTableSize()
    ensures |CategoryFolderMapping| == 6
  {
    FolderTableKeys();
    BaseCategoriesDistinct();
    assert CategoryFolderMapping.Keys == set i | 0 <= i < |BaseCategories| :: BaseCategories[i];
    DistinctCard(BaseCategories);
  }

  /** A folder name is a plain path element and holds no '_'. */
  predicate PlainFolder(f: string)
  {
    PlainElement(f) && '_' !in f
  }

  /** A name longer than two characters with neither '/' nor '_' is plain. */
  lemma PlainByChars(f: string)
    requires |f| > 2 && forall i :: 0 <= i < |f| ==> f[i] != '/' && f[i] != '_'
    ensures PlainFolder(f)
  {
    assert f != "." && f != "..";
  }

  /** Every folder name of the table is plain. */
  lemma FolderNamesPlain(c: string)
    requires c in CategoryFolderMapping
    ensures PlainFolder(Folder(c))
  {
    if c == "bao-cao-thuong-nien" {
      PlainByChars("Báo cáo thường niên");
    } else if c == "bao-cao-tai-chinh" {
      PlainByChars("Báo cáo tài chính");
    } else if c == "dieu-le-cong-ty" {
      PlainByChars("Điều lệ công ty");
    } else if c == "quy-che-quan-tri-cong-ty" {
      PlainByChars("Quy chế quản trị công ty");
    } else if c == "cong-bao-thong-tin" {
      PlainByChars("Công bố thông tin");
    } else {
      PlainByChars("Bản cáo bạch");
    }
  }

  /** Distinct categories have distinct folders. */
  lemma FolderInjective(c1: string, c2: string)
    requires c1 in CategoryFolderMapping && c2 in CategoryFolderMapping
    requires Folder(c1) == Folder(c2)
    ensures c1 == c2
  {
  }
}
