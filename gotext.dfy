/**
  Models of the Go standard-library text helpers the crawler calls:
  strings.Index, strings.Contains, strings.Split, strings.ReplaceAll,
  strings.TrimSpace, filepath.Base, filepath.Join, and the `%d` verb of
  fmt.Sscanf and fmt.Sprintf. Strings are sequences of Unicode scalar values.
*/
module GoText {
  import opened Wrappers

  // ---------------------------------------------------------------------------
  // Searching

  /** `sub` occurs in `s` starting at index `i`. */
  predicate OccursAt(s: string, sub: string, i: int)
  {
    0 <= i && i + |sub| <= |s| && s[i..i + |sub|] == sub
  }

  /** strings.Contains */
  predicate Contains(s: string, sub: string)
  {
    exists i | 0 <= i <= |s| :: OccursAt(s, sub, i)
  }

  /** strings.Index, searching from position `from` onwards. */
  function IndexFrom(s: string, sub: string, from: nat): (r: Option<nat>)
    decreases |s| - from
    ensures r.Some? ==> from <= r.value && OccursAt(s, sub, r.value)
    ensures r.Some? ==> forall j :: from <= j < r.value ==> !OccursAt(s, sub, j)
    ensures r.None? ==> forall j :: from <= j ==> !OccursAt(s, sub, j)
  {
    if from + |sub| > |s| then None
    else if s[from..from + |sub|] == sub then Some(from)
    else IndexFrom(s, sub, from + 1)
  }

  /** A one-character needle occurs exactly when the character does. */
  lemma ContainsChar(s: string, c: char)
    ensures Contains(s, [c]) <==> c in s
  {
    if c in s {
      var i :| 0 <= i < |s| && s[i] == c;
      assert s[i..i + 1] == [c];
      assert OccursAt(s, [c], i);
    }
    if Contains(s, [c]) {
      var i :| 0 <= i <= |s| && OccursAt(s, [c], i);
      assert s[i] == s[i..i + 1][0];
    }
  }

  // ---------------------------------------------------------------------------
  // strings.Split

  /** strings.Split for a non-empty separator: the pieces between successive
      non-overlapping occurrences of `sep`, scanning left to right. */
  function Split(s: string, sep: string): (parts: seq<string>)
    requires |sep| > 0
    decreases |s|
    ensures |parts| >= 1
  {
    match IndexFrom(s, sep, 0)
    case None => [s]
    case Some(i) => [s[..i]] + Split(s[i + |sep|..], sep)
  }

  /** The first piece is the text before the first occurrence of `sep`, or
      the whole input when there is none. */
  lemma SplitFirst(s: string, sep: string)
    requires |sep| > 0
    ensures var parts := Split(s, sep);
            && (|parts| == 1 <==> !Contains(s, sep))
            && (|parts| == 1 ==> parts[0] == s)
            && parts[0] <= s && !Contains(parts[0], sep)
            && (|parts| > 1 ==> OccursAt(s, sep, |parts[0]|))
  {
    match IndexFrom(s, sep, 0)
    case None =>
    case Some(i) =>
      NoOccurrenceInPrefix(s, sep, i);
  }

  /** strings.Join */
  function JoinWith(parts: seq<string>, sep: string): string
  {
    if |parts| == 0 then ""
    else if |parts| == 1 then parts[0]
    else parts[0] + sep + JoinWith(parts[1..], sep)
  }

  /** If `i` is the first occurrence of `sub` in `s`, then `s[..i]` has none. */
  lemma NoOccurrenceInPrefix(s: string, sub: string, i: nat)
    requires |sub| > 0 && i <= |s|
    requires forall j :: 0 <= j < i ==> !OccursAt(s, sub, j)
    ensures !Contains(s[..i], sub)
  {
    if Contains(s[..i], sub) {
      var j :| 0 <= j <= i && OccursAt(s[..i], sub, j);
      assert j + |sub| <= i;
      assert s[..i][j..j + |sub|] == s[j..j + |sub|];
      assert OccursAt(s, sub, j);
    }
  }

  /** Joining a first piece before at least one more. */
  lemma JoinCons(p: string, tail: seq<string>, sep: string)
    requires |tail| >= 1
    ensures JoinWith([p] + tail, sep) == p + sep + JoinWith(tail, sep)
  {
    assert ([p] + tail)[1..] == tail;
  }

  /** A string is the text before an occurrence, the occurrence and the text
      after it. */
  lemma AroundOccurrence(s: string, sub: string, i: nat)
    requires OccursAt(s, sub, i)
    ensures s[..i] + sub + s[i + |sub|..] == s
  {
    assert s == s[..i] + s[i..i + |sub|] + s[i + |sub|..];
  }

  /** Splitting and joining again gives back the input. */
  lemma {:induction false} SplitJoin(s: string, sep: string)
    requires |sep| > 0
    decreases |s|
    ensures JoinWith(Split(s, sep), sep) == s
  {
    match IndexFrom(s, sep, 0)
    case None =>
    case Some(i) =>
      var rest := s[i + |sep|..];
      SplitJoin(rest, sep);
      JoinCons(s[..i], Split(rest, sep), sep);
      AroundOccurrence(s, sep, i);
  }

  /** No piece of a split holds the separator. */
  lemma {:induction false} SplitPiecesClean(s: string, sep: string)
    requires |sep| > 0
    decreases |s|
    ensures forall k :: 0 <= k < |Split(s, sep)| ==> !Contains(Split(s, sep)[k], sep)
  {
    match IndexFrom(s, sep, 0)
    case None =>
    case Some(i) =>
      var rest := s[i + |sep|..];
      SplitPiecesClean(rest, sep);
      SplitFirst(s, sep);
      var parts := Split(s, sep);
      assert parts == [s[..i]] + Split(rest, sep);
      forall k | 0 <= k < |parts| ensures !Contains(parts[k], sep) {
        if k > 0 {
          assert parts[k] == Split(rest, sep)[k - 1];
        }
      }
  }

  // ---------------------------------------------------------------------------
  // strings.ReplaceAll with one-character needle and replacement

  /** strings.ReplaceAll(s, string(pat), string(rep)). */
  function ReplaceAll(s: string, pat: char, rep: char): (r: string)
    ensures |r| == |s|
    ensures forall i :: 0 <= i < |s| ==> r[i] == (if s[i] == pat then rep else s[i])
  {
    if s == [] then []
    else [if s[0] == pat then rep else s[0]] + ReplaceAll(s[1..], pat, rep)
  }

  // ---------------------------------------------------------------------------
  // strings.TrimSpace

  /** unicode.IsSpace: the Latin-1 white space characters and the Unicode
      White_Space property above Latin-1. */
  predicate IsSpace(c: char)
  {
    ('\t' <= c <= '\r') || c == ' ' || c == '\U{0085}' || c == '\U{00A0}'
    || c == '\U{1680}' || ('\U{2000}' <= c <= '\U{200A}') || c == '\U{2028}'
    || c == '\U{2029}' || c == '\U{202F}' || c == '\U{205F}' || c == '\U{3000}'
  }

  /** `s` without its longest prefix of characters satisfying `p`. */
  function DropWhile(s: string, p: char -> bool): (r: string)
    ensures |r| <= |s| && r == s[|s| - |r|..]
    ensures forall k :: 0 <= k < |s| - |r| ==> p(s[k])
    ensures r == [] || !p(r[0])
  {
    if s != [] && p(s[0]) then
      var r := DropWhile(s[1..], p);
      assert forall k :: 1 <= k < |s| ==> s[1..][k - 1] == s[k];
      r
    else s
  }

  function TrimLeft(s: string): (r: string)
    ensures |r| <= |s| && r == s[|s| - |r|..]
    ensures forall k :: 0 <= k < |s| - |r| ==> IsSpace(s[k])
    ensures r == [] || !IsSpace(r[0])
  {
    DropWhile(s, IsSpace)
  }

  function TrimRight(s: string): (r: string)
    ensures |r| <= |s| && r == s[..|r|]
    ensures forall k :: |r| <= k < |s| ==> IsSpace(s[k])
    ensures r == [] || !IsSpace(r[|r| - 1])
  {
    if s != [] && IsSpace(s[|s| - 1]) then TrimRight(s[..|s| - 1]) else s
  }

  /** strings.TrimSpace: drop leading and trailing white space. The result
      is the stretch of `s` that starts after the leading white space. */
  function TrimSpace(s: string): (r: string)
    ensures r == [] || (!IsSpace(r[0]) && !IsSpace(r[|r| - 1]))
    ensures OccursAt(s, r, |s| - |TrimLeft(s)|)
  {
    var l := TrimLeft(s);
    var r := TrimRight(l);
    PrefixOfSuffix(s, l, r);
    r
  }

  /** A prefix of a suffix of `s` is a stretch of `s`. */
  lemma PrefixOfSuffix(s: string, l: string, r: string)
    requires |l| <= |s| && l == s[|s| - |l|..]
    requires |r| <= |l| && r == l[..|r|]
    ensures OccursAt(s, r, |s| - |l|)
    ensures r != [] ==> r[0] == l[0]
  {
    assert s[|s| - |l|..|s| - |l| + |r|] == l[..|r|];
  }

  /** Trimming leaves nothing exactly when the input is all white space. */
  lemma TrimSpaceEmpty(s: string)
    ensures TrimSpace(s) == [] <==> forall k :: 0 <= k < |s| ==> IsSpace(s[k])
  {
    var l := TrimLeft(s);
    if TrimRight(l) == [] {
      assert l == [];
    }
  }

  /** A string that neither starts nor ends with white space is trimmed to itself. */
  lemma TrimSpaceKeeps(s: string)
    requires s == [] || (!IsSpace(s[0]) && !IsSpace(s[|s| - 1]))
    ensures TrimSpace(s) == s
  {
    assert TrimLeft(s) == s;
    assert TrimRight(s) == s;
  }

  /** Trimming twice trims nothing more. */
  lemma TrimSpaceIdempotent(s: string)
    ensures TrimSpace(TrimSpace(s)) == TrimSpace(s)
  {
    var t := TrimSpace(s);
    if t != [] {
      assert TrimLeft(t) == t;
      assert TrimRight(t) == t;
    }
  }

  // ---------------------------------------------------------------------------
  // path/filepath (forward slash separator)

  /** The part of `p` after its last `c`, or all of `p` if it has none. */
  function AfterLast(p: string, c: char): (r: string)
    ensures |r| <= |p| && r == p[|p| - |r|..]
    ensures c !in r
    ensures |r| < |p| ==> p[|p| - |r| - 1] == c
  {
    if p == [] then []
    else if p[|p| - 1] == c then []
    else
      var r := AfterLast(p[..|p| - 1], c);
      assert p[..|p| - 1][|p| - 1 - |r|..] + [p[|p| - 1]] == p[|p| - 1 - |r|..];
      r + [p[|p| - 1]]
  }

  /** The part after the last `c` of `p + [c] + s` is `s` when `s` has no `c`. */
  lemma {:induction false} AfterLastSuffix(p: string, c: char, s: string)
    requires c !in s
    decreases |s|
    ensures AfterLast(p + [c] + s, c) == s
  {
    var x := p + [c] + s;
    if s != [] {
      assert x[..|x| - 1] == p + [c] + s[..|s| - 1];
      assert s[|s| - 1] in s;
      AfterLastSuffix(p, c, s[..|s| - 1]);
      assert s[..|s| - 1] + [s[|s| - 1]] == s;
    }
  }

  function TrimTrailingSlashes(p: string): (r: string)
    ensures r <= p
    ensures r == [] || r[|r| - 1] != '/'
    ensures forall k :: |r| <= k < |p| ==> p[k] == '/'
  {
    if p != [] && p[|p| - 1] == '/' then TrimTrailingSlashes(p[..|p| - 1]) else p
  }

  /** filepath.Base: the last element of a slash-separated path, after
      trailing slashes are removed; "." for the empty path and "/" for a path
      of slashes only. */
  function Base(path: string): (r: string)
    ensures r != []
    ensures path != [] && path[|path| - 1] != '/' ==>
              '/' !in r && |r| <= |path| && r == path[|path| - |r|..]
              && (|r| < |path| ==> path[|path| - |r| - 1] == '/')
  {
    if path == [] then "."
    else
      var p := TrimTrailingSlashes(path);
      if p == [] then "/" else AfterLast(p, '/')
  }

  /** The lexical resolution filepath.Clean applies to the elements of a
      path, left to right: empty and "." elements vanish; ".." removes the
      element before it, is dropped at the root of a rooted path, and is
      kept when there is nothing before it to remove. */
  function Resolve(stack: seq<string>, elems: seq<string>, rooted: bool): seq<string>
    decreases |elems|
  {
    if elems == [] then stack
    else
      var e := elems[0];
      var next :=
        if e == "" || e == "." then stack
        else if e == ".." then
          if |stack| > 0 && stack[|stack| - 1] != ".." then stack[..|stack| - 1]
          else if rooted then stack
          else stack + [".."]
        else stack + [e];
      Resolve(next, elems[1..], rooted)
  }

  /** filepath.Clean: the shortest path naming the same file by purely
      lexical processing; "." for a path that resolves to nothing. */
  function Clean(path: string): string
  {
    if path == [] then "."
    else
      var rooted := path[0] == '/';
      var body := JoinWith(Resolve([], Split(path, "/"), rooted), "/");
      if rooted then "/" + body
      else if body == [] then "."
      else body
  }

  /** filepath.Join of two elements: the elements from the first non-empty
      one on, joined with a slash and cleaned; "" when both are empty. */
  function Join(dir: string, name: string): string
  {
    if dir != [] then Clean(dir + "/" + name)
    else if name != [] then Clean(name)
    else ""
  }

  /** An element Clean leaves alone: non-empty, no slash, not "." or "..". */
  predicate PlainElement(e: string)
  {
    e != [] && '/' !in e && e != "." && e != ".."
  }

  /** A needle whose first character is missing does not occur. */
  lemma NotContainsHead(s: string, sub: string)
    requires |sub| > 0 && sub[0] !in s
    ensures !Contains(s, sub)
  {
    forall i | 0 <= i <= |s| ensures !OccursAt(s, sub, i) {
      if i < |s| {
        assert s[i] in s;
      }
      if i + |sub| <= |s| {
        assert s[i..i + |sub|][0] == s[i];
      }
    }
  }

  /** Splitting `a + sep + b` where the first occurrence of `sep` is the one
      after `a` and `b` holds none gives the two sides. */
  lemma SplitAround(a: string, sep: string, b: string)
    requires |sep| > 0
    requires forall j :: 0 <= j < |a| ==> !OccursAt(a + sep + b, sep, j)
    requires !Contains(b, sep)
    ensures Split(a + sep + b, sep) == [a, b]
  {
    var s := a + sep + b;
    assert s[|a|..|a| + |sep|] == sep;
    assert OccursAt(s, sep, |a|);
    assert IndexFrom(s, sep, 0) == Some(|a|);
    assert s[..|a|] == a && s[|a| + |sep|..] == b;
    SplitFirst(b, sep);
  }

  /** When the last character of `sep` occurs neither in `a` nor earlier in
      `sep`, no occurrence of `sep` in `a + sep + b` starts inside `a`. */
  lemma NoOccurrenceBefore(a: string, sep: string, b: string)
    requires |sep| > 0
    requires sep[|sep| - 1] !in a && sep[|sep| - 1] !in sep[..|sep| - 1]
    ensures forall j :: 0 <= j < |a| ==> !OccursAt(a + sep + b, sep, j)
  {
    var s := a + sep + b;
    var last := sep[|sep| - 1];
    forall j | 0 <= j < |a| ensures !OccursAt(s, sep, j) {
      var k := j + |sep| - 1;
      if k < |a| {
        assert s[k] == a[k];
      } else {
        assert s[k] == sep[k - |a|] == sep[..|sep| - 1][k - |a|];
      }
      assert s[j..j + |sep|][|sep| - 1] == s[k] != last;
    }
  }

  /** A string cut at the one place its separator character occurs. */
  lemma SplitTwo(a: string, b: string, c: char)
    requires c !in a && c !in b
    ensures Split(a + [c] + b, [c]) == [a, b]
  {
    var s := a + [c] + b;
    assert OccursAt(s, [c], |a|);
    forall j | 0 <= j < |a| ensures !OccursAt(s, [c], j) {
      assert s[j] == a[j];
    }
    assert IndexFrom(s, [c], 0) == Some(|a|);
    assert s[..|a|] == a && s[|a| + 1..] == b;
    ContainsChar(b, c);
    SplitFirst(b, [c]);
  }

  /** The first occurrence of a character in `p` is its first occurrence in
      any extension of `p`. */
  lemma IndexFromPrefix(p: string, t: string, c: char, i: nat)
    requires IndexFrom(p, [c], 0) == Some(i)
    ensures IndexFrom(p + t, [c], 0) == Some(i)
  {
    var s := p + t;
    assert p[i..i + 1] == s[i..i + 1];
    assert OccursAt(s, [c], i);
    forall j | 0 <= j < i ensures !OccursAt(s, [c], j) {
      assert p[j..j + 1] == s[j..j + 1];
      assert !OccursAt(p, [c], j);
    }
  }

  /** Appending a separator and a piece without it appends that piece to the
      split. */
  lemma {:induction false} SplitSnoc(p: string, c: char, last: string)
    requires c !in last
    decreases |p|
    ensures Split(p + [c] + last, [c]) == Split(p, [c]) + [last]
  {
    if c !in p {
      SplitTwo(p, last, c);
      ContainsChar(p, c);
      SplitFirst(p, [c]);
    } else {
      var s := p + [c] + last;
      ContainsChar(p, c);
      var i :| 0 <= i <= |p| && OccursAt(p, [c], i);
      match IndexFrom(p, [c], 0)
      case None =>
        assert false;
      case Some(k) =>
        IndexFromPrefix(p, [c] + last, c, k);
        assert s == p + ([c] + last);
        var rest := p[k + 1..];
        assert s[k + 1..] == rest + [c] + last;
        assert s[..k] == p[..k];
        SplitSnoc(rest, c, last);
    }
  }

  /** Joining two plain elements just puts a slash between them. */
  lemma JoinPlain(dir: string, name: string)
    requires PlainElement(dir) && PlainElement(name)
    ensures Join(dir, name) == dir + "/" + name
  {
    var path := dir + "/" + name;
    SplitTwo(dir, name, '/');
    assert Split(path, "/") == [dir, name];
    assert path[0] == dir[0] && dir[0] != '/';
    assert Resolve([dir], [name], false) == [dir, name] by {
      assert [name][1..] == [];
    }
    assert Resolve([], [dir, name], false) == [dir, name] by {
      assert [dir, name][1..] == [name];
      assert [] + [dir] == [dir];
    }
    assert JoinWith([dir, name], "/") == dir + "/" + name by {
      assert [dir, name][1..] == [name];
    }
  }

  /** Joining "." onto a plain element gives the element itself: Clean drops
      the "." element. */
  lemma JoinDot(dir: string)
    requires PlainElement(dir)
    ensures Join(dir, ".") == dir
  {
    var path := dir + "/" + ".";
    SplitTwo(dir, ".", '/');
    assert Split(path, "/") == [dir, "."];
    assert path[0] == dir[0] && dir[0] != '/';
    assert Resolve([dir], ["."], false) == [dir] by {
      assert ["."][1..] == [];
    }
    assert Resolve([], [dir, "."], false) == [dir] by {
      assert [dir, "."][1..] == ["."];
      assert [] + [dir] == [dir];
    }
  }

  /** Joining onto an empty directory leaves a plain element alone. */
  lemma JoinEmptyDir(name: string)
    requires PlainElement(name)
    ensures Join("", name) == name
  {
    ContainsChar(name, '/');
    SplitFirst(name, "/");
    assert Split(name, "/") == [name];
    assert name[0] != '/' by {
      assert name[0] in name;
    }
    assert Resolve([], [name], false) == [name] by {
      assert [name][1..] == [];
      assert [] + [name] == [name];
    }
  }

  // ---------------------------------------------------------------------------
  // Decimal integers: fmt.Sscanf("%d") and fmt.Sprintf("%d")

  const MinInt64: int := -0x8000_0000_0000_0000
  const MaxInt64: int := 0x7FFF_FFFF_FFFF_FFFF

  predicate IsDigit(c: char)
  {
    '0' <= c <= '9'
  }

  function DigitValue(c: char): nat
    requires IsDigit(c)
  {
    (c as int) - ('0' as int)
  }

  function DigitChar(d: nat): (c: char)
    requires d < 10
    ensures IsDigit(c) && DigitValue(c) == d
  {
    ('0' as int + d) as char
  }

  /** The value of a string of decimal digits. */
  function DigitsValue(ds: string): nat
    requires forall k :: 0 <= k < |ds| ==> IsDigit(ds[k])
  {
    if ds == [] then 0
    else DigitsValue(ds[..|ds| - 1]) * 10 + DigitValue(ds[|ds| - 1])
  }

  /** The length of the run of decimal digits at the start of `s`. */
  function LeadingDigits(s: string): (n: nat)
    ensures n <= |s|
    ensures forall k :: 0 <= k < n ==> IsDigit(s[k])
    ensures n < |s| ==> !IsDigit(s[n])
  {
    if s != [] && IsDigit(s[0]) then 1 + LeadingDigits(s[1..]) else 0
  }

  /** White space that the `%d` scan skips: a newline is not skipped (Sscanf
      reports a newline before the number as an error). */
  predicate Skippable(c: char)
  {
    IsSpace(c) && c != '\n'
  }

  function SkipSpace(s: string): (t: string)
    ensures |t| <= |s| && t == s[|s| - |t|..]
    ensures forall k :: 0 <= k < |s| - |t| ==> Skippable(s[k])
    ensures t == [] || !Skippable(t[0])
  {
    DropWhile(s, Skippable)
  }

  /** The value of the run of decimal digits at the start of `u`; None when
      `u` does not start with a digit. */
  function ScanDigits(u: string): Option<nat>
  {
    var n := LeadingDigits(u);
    if n == 0 then None else Some(DigitsValue(u[..n]))
  }

  /** The number at the start of `t` (white space already skipped): an
      optional sign and at least one decimal digit, fitting in 64 bits. */
  function ScanSigned(t: string): Option<int>
  {
    if t != [] && (t[0] == '+' || t[0] == '-') then WithSign(t[0] == '-', ScanDigits(t[1..]))
    else WithSign(false, ScanDigits(t))
  }

  /** The scanned magnitude with its sign, when it fits in 64 bits. */
  function WithSign(negative: bool, magnitude: Option<nat>): Option<int>
  {
    match magnitude
    case None => None
    case Some(m) =>
      var v: int := if negative then -(m as int) else m;
      if MinInt64 <= v <= MaxInt64 then Some(v) else None
  }

  /** fmt.Sscanf(s, "%d", &v) into a 64-bit int: skip white space, then an
      optional sign and at least one decimal digit; the value must fit in 64
      bits. Input after the digits is ignored. None means the scan failed,
      which leaves the target variable unassigned. */
  function ScanInt(s: string): Option<int>
  {
    ScanSigned(SkipSpace(s))
  }

  /** fmt.Sprintf("%d", n) for a non-negative n. */
  function FormatInt(n: nat): (s: string)
    ensures s != []
  {
    if n < 10 then [DigitChar(n)] else FormatInt(n / 10) + [DigitChar(n % 10)]
  }

  /** Sprintf("%d") prints only decimal digits, and they spell n. */
  lemma {:induction false} FormatIntValue(n: nat)
    ensures forall k :: 0 <= k < |FormatInt(n)| ==> IsDigit(FormatInt(n)[k])
    ensures DigitsValue(FormatInt(n)) == n
  {
    if n >= 10 {
      FormatIntValue(n / 10);
      var s := FormatInt(n);
      assert s == FormatInt(n / 10) + [DigitChar(n % 10)];
      assert s[..|s| - 1] == FormatInt(n / 10);
    }
  }

  /** Scanning what Sprintf("%d") printed gives the number back. */
  lemma ScanFormatRoundTrip(n: nat)
    requires n <= MaxInt64
    ensures ScanInt(FormatInt(n)) == Some(n)
  {
    FormatIntValue(n);
    ScanAllDigits(FormatInt(n));
  }

  /** A non-empty run of digits that fits in 64 bits scans as its value. */
  lemma ScanAllDigits(s: string)
    requires s != [] && forall k :: 0 <= k < |s| ==> IsDigit(s[k])
    requires DigitsValue(s) <= MaxInt64
    ensures ScanInt(s) == Some(DigitsValue(s))
  {
    SkipNoSpace(s);
    ScanDigitsAll(s);
    ScanSignedDigits(s, DigitsValue(s));
  }

  /** A number without a sign scans as its digits. */
  lemma ScanSignedDigits(t: string, v: nat)
    requires t != [] && IsDigit(t[0])
    requires ScanDigits(t) == Some(v) && v <= MaxInt64
    ensures ScanSigned(t) == Some(v)
  {
    assert t[0] != '+' && t[0] != '-';
  }

  /** A string that starts with a digit has no white space to skip. */
  lemma SkipNoSpace(s: string)
    requires s != [] && IsDigit(s[0])
    ensures SkipSpace(s) == s
  {
  }

  /** A string of digits is one run of digits. */
  lemma ScanDigitsAll(s: string)
    requires s != [] && forall k :: 0 <= k < |s| ==> IsDigit(s[k])
    ensures ScanDigits(s) == Some(DigitsValue(s))
  {
    LeadingDigitsAll(s);
    assert s[..|s|] == s;
  }

  lemma {:induction false} LeadingDigitsAll(s: string)
    requires forall k :: 0 <= k < |s| ==> IsDigit(s[k])
    ensures LeadingDigits(s) == |s|
  {
    if s != [] {
      LeadingDigitsAll(s[1..]);
    }
  }

  /** `b` cannot continue a number or the white space before one. */
  predicate Stops(b: string)
  {
    b == [] || (!IsDigit(b[0]) && !IsSpace(b[0]) && b[0] != '+' && b[0] != '-')
  }

  /** Text that `p` stops at does not change what is dropped before it. */
  lemma {:induction false} DropWhileAppend(a: string, b: string, p: char -> bool)
    requires b == [] || !p(b[0])
    decreases |a|
    ensures DropWhile(a + b, p) == DropWhile(a, p) + b
  {
    if a != [] {
      assert (a + b)[0] == a[0];
      if p(a[0]) {
        assert (a + b)[1..] == a[1..] + b;
        DropWhileAppend(a[1..], b, p);
      }
    } else {
      assert a + b == b;
    }
  }

  lemma SkipSpaceAppend(a: string, b: string)
    requires Stops(b)
    ensures SkipSpace(a + b) == SkipSpace(a) + b
  {
    assert b == [] || !Skippable(b[0]);
    DropWhileAppend(a, b, Skippable);
  }

  lemma {:induction false} LeadingDigitsAppend(a: string, b: string)
    requires Stops(b)
    ensures LeadingDigits(a + b) == LeadingDigits(a)
  {
    if a != [] {
      assert (a + b)[0] == a[0];
      if IsDigit(a[0]) {
        assert (a + b)[1..] == a[1..] + b;
        LeadingDigitsAppend(a[1..], b);
      }
    } else {
      assert a + b == b;
    }
  }

  lemma ScanDigitsAppend(u: string, b: string)
    requires Stops(b)
    ensures ScanDigits(u + b) == ScanDigits(u)
  {
    LeadingDigitsAppend(u, b);
    var n := LeadingDigits(u);
    assert (u + b)[..n] == u[..n];
  }

  lemma ScanSignedAppend(t: string, b: string)
    requires Stops(b)
    ensures ScanSigned(t + b) == ScanSigned(t)
  {
    if t == [] {
      assert t + b == b;
      ScanDigitsAppend(t, b);
    } else {
      var tb := t + b;
      assert tb[0] == t[0];
      if t[0] == '+' || t[0] == '-' {
        assert tb[1..] == t[1..] + b;
        ScanDigitsAppend(t[1..], b);
      } else {
        ScanDigitsAppend(t, b);
      }
    }
  }

  /** Text after the number that cannot extend it does not change the scan. */
  lemma ScanIntAppend(a: string, b: string)
    requires Stops(b)
    ensures ScanInt(a + b) == ScanInt(a)
  {
    SkipSpaceAppend(a, b);
    ScanSignedAppend(SkipSpace(a), b);
  }
}
