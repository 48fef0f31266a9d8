/** Turning one feed entry into the fields of an `items` row, as `check_for_updates` does
    between the duplicate lookup and the INSERT: author and category fallbacks, the body
    precedence, markup stripping and whitespace collapsing, resource-link mining and
    filtering, and the two placeholder substitutions.

    The banner-removal substitutions and the eight `re.findall` link patterns are regular
    expressions whose matching is not modelled; they enter as the functions of `Regexes`.
    Everything applied to their results is modelled as written. */
module Extract {
  import opened Basics

  /** One element of an entry's `content` field: an object with an optional `value`. */
  datatype ContentPart = ContentPart(value: Option<string>)

  /** feedparser gives `content` either as a list of such objects or as a single one. */
  datatype ContentField = ContentList(parts: seq<ContentPart>) | ContentObject(part: ContentPart)

  /** A feed entry; `None` is a key absent from the entry dictionary. Each tag is the
      optional `term` of one element of `tags`. */
  datatype Entry = Entry(
    title: Option<string>,
    link: Option<string>,
    published: Option<string>,
    author: Option<string>,
    dcCreator: Option<string>,
    tags: Option<seq<Option<string>>>,
    category: Option<string>,
    content: Option<ContentField>,
    summary: Option<string>,
    description: Option<string>)

  /** The regular-expression work the model takes as given: the banner cleanup applied to
      the raw body, and `re.findall` for each link pattern, in order. */
  datatype Regexes = Regexes(cleanup: string -> string, finders: seq<string -> seq<string>>)

  /** A row of the `items` table (the database assigns `id` and `timestamp`). */
  datatype Row = Row(
    title: string,
    link: string,
    pubDate: string,
    author: string,
    category: string,
    content: string,
    downloadLinks: string,
    siteName: string)

  const ContentPlaceholder: string := "需要登录或注册才能查看详细内容"
  const LinksPlaceholder: string := "需要登录或注册才能查看下载链接"
  const MinTextLength: nat := 10
  const ExcludedFragments: seq<string> :=
    ["/login/", "/register/", "/signin/", ".jpg", ".jpeg", ".png", ".gif", ".bmp", ".svg"]

  function TitleOf(e: Entry): string { e.title.GetOr("") }

  function LinkOf(e: Entry): string { e.link.GetOr("") }

  /** `entry.get('author', entry.get('dc_creator', ''))`. */
  function AuthorOf(e: Entry): string { e.author.GetOr(e.dcCreator.GetOr("")) }

  /** Tag terms joined by ", " when `tags` is present, else `category`, else "". */
  function CategoryOf(e: Entry): string {
    match e.tags
    case Some(tags) => Join(seq(|tags|, i requires 0 <= i < |tags| => tags[i].GetOr("")), ", ")
    case None => e.category.GetOr("")
  }

  /** The raw body: `content` (its first element when it is a list), else `summary`, else
      `description`, else "". `None` when `content` is an empty list, where
      `entry['content'][0]` raises IndexError. */
  function RawContent(e: Entry): Option<string> {
    match e.content
    case Some(ContentList(parts)) => if parts == [] then None else Some(parts[0].value.GetOr(""))
    case Some(ContentObject(part)) => Some(part.value.GetOr(""))
    case None => Some(if e.summary.Some? then e.summary.value else e.description.GetOr(""))
  }

  // ---------------------------------------------------------------------------
  // re.sub(r'<[^>]+>', '', content)

  function IndexOf(t: string, c: char): (r: nat)
    requires c in t
    ensures r < |t| && t[r] == c && c !in t[..r]
  {
    if t[0] == c then 0 else 1 + IndexOf(t[1..], c)
  }

  /** The pattern `<[^>]+>` matches at index `i`: a '<', at least one character other
      than '>', then a '>' further on. */
  predicate TagAt(s: string, i: nat) {
    i + 1 < |s| && s[i] == '<' && s[i + 1] != '>' && '>' in s[i + 2..]
  }

  predicate NoTag(s: string) {
    forall i: nat :: i < |s| ==> !TagAt(s, i)
  }

  /** Left-to-right removal of every match of `<[^>]+>`: a match runs from a '<' to the
      first '>' after it. */
  function StripTags(s: string): (r: string)
    ensures |r| <= |s|
    ensures forall c :: c in r ==> c in s
    ensures s != [] && s[0] != '<' ==> r != [] && r[0] == s[0]
    ensures NoTag(r)
    decreases |s|
  {
    if s == [] then []
    else if TagAt(s, 0) then StripTags(s[IndexOf(s[2..], '>') + 3..])
    else
      var rest := StripTags(s[1..]);
      NoTagCons(s, rest);
      [s[0]] + rest
  }

  /** Keeping a first character that starts no match cannot create a match. */
  lemma NoTagCons(s: string, rest: string)
    requires s != [] && !TagAt(s, 0) && NoTag(rest)
    requires forall c :: c in rest ==> c in s[1..]
    requires |s| > 1 && s[1] != '<' ==> rest != [] && rest[0] == s[1]
    ensures NoTag([s[0]] + rest)
  {
    var r := [s[0]] + rest;
    forall i: nat | i < |r| ensures !TagAt(r, i) {
      if i == 0 && |r| > 1 && s[0] == '<' {
        assert rest[0] in s[1..];
        if s[1] == '>' {
          assert r[1] == '>';
        } else {
          assert '>' !in s[2..];
          assert '>' !in s[1..] by { assert s[1..] == [s[1]] + s[2..]; }
          assert r[2..] == rest[1..];
          assert '>' !in r[2..];
        }
      }
      if i > 0 && TagAt(r, i) {
        assert r[i + 2..] == rest[i + 1..];
        assert TagAt(rest, i - 1);
        assert false;
      }
    }
  }

  /** Markup without any tag is left unchanged, so stripping twice is stripping once. */
  lemma {:induction false} StripTagsFixed(s: string)
    requires NoTag(s)
    ensures StripTags(s) == s
    decreases |s|
  {
    if s != [] {
      assert !TagAt(s, 0);
      assert NoTag(s[1..]) by {
        forall i: nat | i < |s[1..]| ensures !TagAt(s[1..], i) {
          if TagAt(s[1..], i) {
            assert s[1..][i + 2..] == s[i + 3..];
            assert TagAt(s, i + 1);
            assert false;
          }
        }
      }
      StripTagsFixed(s[1..]);
    }
  }

  lemma StripTagsIdempotent(s: string)
    ensures StripTags(StripTags(s)) == StripTags(s)
  {
    StripTagsFixed(StripTags(s));
  }

  /** Text before the first '<' is kept as it is. */
  lemma {:induction false} StripTagsKeepsText(a: string, t: string)
    requires '<' !in a
    ensures StripTags(a + t) == a + StripTags(t)
    decreases |a|
  {
    if a != [] {
      var s := a + t;
      assert s[0] == a[0] && !TagAt(s, 0);
      assert s[1..] == a[1..] + t;
      assert StripTags(s) == [a[0]] + StripTags(a[1..] + t);
      StripTagsKeepsText(a[1..], t);
      assert a + StripTags(t) == [a[0]] + (a[1..] + StripTags(t));
    } else {
      assert a + t == t;
    }
  }

  /** A tag at the start is removed up to its first '>', and stripping goes on after it. */
  lemma StripTagsDropsLeadingTag(x: string, b: string)
    requires x != [] && '>' !in x
    ensures StripTags(['<'] + x + ['>'] + b) == StripTags(b)
  {
    var s := ['<'] + x + ['>'] + b;
    var t := s[2..];
    var n := |x| - 1;
    assert t == x[1..] + ['>'] + b;
    assert t[..n] == x[1..] && t[n] == '>';
    assert s[1] == x[0] && TagAt(s, 0);
    assert IndexOf(t, '>') == n;
    assert s[n + 3..] == b;
  }

  /** `re.sub(r'<[^>]+>', '', ...)` removes a tag and keeps the text around it. */
  lemma StripTagsDropsTag(a: string, x: string, b: string)
    requires '<' !in a && x != [] && '>' !in x
    ensures StripTags(a + ['<'] + x + ['>'] + b) == a + StripTags(b)
  {
    var t := ['<'] + x + ['>'] + b;
    assert a + ['<'] + x + ['>'] + b == a + t;
    StripTagsKeepsText(a, t);
    StripTagsDropsLeadingTag(x, b);
    assert StripTags(a + t) == a + StripTags(b);
  }

  // ---------------------------------------------------------------------------
  // re.sub(r'\s+', ' ', text).strip()

  /** The characters of `t` that are not whitespace, in order. */
  function NonSpace(t: string): string {
    if t == [] then [] else (if IsSpace(t[0]) then [] else [t[0]]) + NonSpace(t[1..])
  }

  /** Whitespace is only ever the plain space, and never two in a row. */
  predicate Collapsed(r: string) {
    && (forall i :: 0 <= i < |r| && IsSpace(r[i]) ==> r[i] == ' ')
    && (forall i :: 0 <= i < |r| - 1 ==> !IsSpace(r[i]) || !IsSpace(r[i + 1]))
  }

  lemma {:induction false} NonSpaceSkip(t: string, n: nat)
    requires n <= |t| && forall i :: 0 <= i < n ==> IsSpace(t[i])
    ensures NonSpace(t) == NonSpace(t[n..])
  {
    if n > 0 {
      NonSpaceSkip(t[1..], n - 1);
      assert t[1..][n - 1..] == t[n..];
    }
  }

  lemma {:induction false} NonSpaceAppend(a: string, b: string)
    ensures NonSpace(a + b) == NonSpace(a) + NonSpace(b)
  {
    if a == [] {
      assert a + b == b;
    } else {
      assert (a + b)[0] == a[0];
      assert (a + b)[1..] == a[1..] + b;
      NonSpaceAppend(a[1..], b);
    }
  }

  lemma {:induction false} NonSpaceAllSpaces(t: string)
    requires AllSpace(t)
    ensures NonSpace(t) == []
  {
    NonSpaceSkip(t, |t|);
  }

  /** `re.sub(r'\s+', ' ', t)`: every maximal run of whitespace becomes one space. */
  function SquashSpaces(t: string): (r: string)
    ensures |r| <= |t|
    ensures t != [] ==> r != [] && (IsSpace(r[0]) <==> IsSpace(t[0]))
    ensures Collapsed(r)
    ensures NonSpace(r) == NonSpace(t)
    decreases |t|
  {
    if t == [] then []
    else if IsSpace(t[0]) then
      var n := LeadingSpaces(t);
      var rest := SquashSpaces(t[n..]);
      NonSpaceSkip(t, n);
      assert ([' '] + rest)[1..] == rest;
      [' '] + rest
    else
      var rest := SquashSpaces(t[1..]);
      assert ([t[0]] + rest)[1..] == rest;
      [t[0]] + rest
  }

  /** `str.strip()`: the slice of `u` without its leading and trailing whitespace. */
  function Strip(u: string): (r: string)
    ensures exists a, e :: 0 <= a <= e <= |u| && r == u[a..e] && AllSpace(u[..a]) && AllSpace(u[e..])
    ensures r == [] || (!IsSpace(r[0]) && !IsSpace(r[|r| - 1]))
    ensures Collapsed(u) ==> Collapsed(r)
    ensures NonSpace(r) == NonSpace(u)
  {
    var a := LeadingSpaces(u);
    var e := |u| - TrailingSpaces(u[a..]);
    StripEnds(u, a, e);
    StripKeepsNonSpace(u, a, e);
    CollapsedSlice(u, a, e);
    u[a..e]
  }

  /** The whitespace `str.strip()` removes, and the characters left at either end. */
  lemma StripEnds(u: string, a: nat, e: int)
    requires a == LeadingSpaces(u) && e == |u| - TrailingSpaces(u[a..])
    ensures a <= e <= |u| && AllSpace(u[..a]) && AllSpace(u[e..])
    ensures var r := u[a..e]; r == [] || (!IsSpace(r[0]) && !IsSpace(r[|r| - 1]))
  {
    StripFront(u, a);
    StripBack(u, a, e);
    StripEndChars(u, a, e);
  }

  lemma StripEndChars(u: string, a: nat, e: int)
    requires a == LeadingSpaces(u) && e == |u| - TrailingSpaces(u[a..])
    ensures a <= e <= |u|
    ensures var r := u[a..e]; r == [] || (!IsSpace(r[0]) && !IsSpace(r[|r| - 1]))
  {
    if a < e {
      var rest := u[a..];
      DropIndex(u, a, e - a - 1);
      assert !IsSpace(rest[e - a - 1]);
      assert u[a..e][0] == u[a] && u[a..e][e - a - 1] == u[e - 1];
    }
  }

  lemma StripFront(u: string, a: nat)
    requires a == LeadingSpaces(u)
    ensures AllSpace(u[..a])
  {
    assert forall i :: 0 <= i < a ==> u[..a][i] == u[i];
  }

  lemma StripBack(u: string, a: nat, e: int)
    requires a <= |u| && e == |u| - TrailingSpaces(u[a..])
    ensures a <= e <= |u| && AllSpace(u[e..])
  {
    var rest := u[a..];
    var n := TrailingSpaces(rest);
    DropDrop(u, a, |rest| - n);
    assert AllSpace(rest[|rest| - n..]);
  }

  lemma DropIndex(u: string, a: nat, j: nat)
    requires a + j < |u|
    ensures u[a..][j] == u[a + j]
  {
  }

  lemma DropDrop(u: string, a: nat, m: nat)
    requires a + m <= |u|
    ensures u[a..][m..] == u[a + m..]
  {
  }

  /** Dropping whitespace from both ends keeps the other characters. */
  lemma StripKeepsNonSpace(u: string, a: nat, e: nat)
    requires a <= e <= |u| && AllSpace(u[..a]) && AllSpace(u[e..])
    ensures NonSpace(u[a..e]) == NonSpace(u)
  {
    NonSpaceDropFront(u, a);
    NonSpaceDropBack(u[a..], e - a);
    assert u[a..][..e - a] == u[a..e];
  }

  lemma NonSpaceDropFront(u: string, k: nat)
    requires k <= |u| && AllSpace(u[..k])
    ensures NonSpace(u[k..]) == NonSpace(u)
  {
    assert u == u[..k] + u[k..];
    NonSpaceAppend(u[..k], u[k..]);
    NonSpaceAllSpaces(u[..k]);
  }

  lemma NonSpaceDropBack(u: string, k: nat)
    requires k <= |u| && AllSpace(u[k..])
    ensures NonSpace(u[..k]) == NonSpace(u)
  {
    assert u == u[..k] + u[k..];
    NonSpaceAppend(u[..k], u[k..]);
    NonSpaceAllSpaces(u[k..]);
  }

  /** A piece of a collapsed string is collapsed. */
  lemma CollapsedSlice(u: string, lo: nat, hi: nat)
    requires lo <= hi <= |u|
    ensures Collapsed(u) ==> Collapsed(u[lo..hi])
  {
    if Collapsed(u) {
      var r := u[lo..hi];
      forall i | 0 <= i < |r| ensures r[i] == u[lo + i] { }
    }
  }

  /** Collapsing whitespace runs keeps the words: `t.split()` is unchanged. */
  lemma {:induction false} SquashSpacesWords(t: string)
    ensures Words(SquashSpaces(t)) == Words(t)
    decreases |t|
  {
    if t != [] {
      if IsSpace(t[0]) {
        var n := LeadingSpaces(t);
        var rest := SquashSpaces(t[n..]);
        assert SquashSpaces(t) == [' '] + rest;
        WordsSkipSpace(' ', rest);
        SquashSpacesWords(t[n..]);
        assert t == t[..n] + t[n..];
        WordsDropLeading(t[..n], t[n..]);
      } else {
        var rest := SquashSpaces(t[1..]);
        assert SquashSpaces(t) == [t[0]] + rest;
        assert t == [t[0]] + t[1..];
        SquashSpacesWords(t[1..]);
        WordsConsChar(t[0], rest);
        WordsConsChar(t[0], t[1..]);
      }
    }
  }

  /** Stripping the ends keeps the words. */
  lemma StripWords(u: string)
    ensures Words(Strip(u)) == Words(u)
  {
    var a, e :| 0 <= a <= e <= |u| && Strip(u) == u[a..e] && AllSpace(u[..a]) && AllSpace(u[e..]);
    assert u == u[..a] + (u[a..e] + u[e..]);
    WordsDropLeading(u[..a], u[a..e] + u[e..]);
    WordsDropTrailing(u[a..e], u[e..]);
  }

  /** A collapsed text without whitespace at either end is its words joined by single
      spaces. */
  lemma {:induction false} CollapsedIsJoin(z: string)
    requires Collapsed(z) && (z == [] || (!IsSpace(z[0]) && !IsSpace(z[|z| - 1])))
    ensures z == Join(Words(z), " ")
    decreases |z|
  {
    if z != [] {
      var k := WordLength(z);
      WordsStart(z);
      if k == |z| {
        assert z[k..] == [] && z[..k] == z;
      } else {
        CollapsedAfterWord(z);
        var w := z[k + 1..];
        WordsAfterSpace(z, k);
        CollapsedIsJoin(w);
        WordsStart(w);
        JoinCons(z[..k], Words(w), " ");
        SpaceSplit(z, k);
      }
    }
  }

  /** In a collapsed text, the space after the first word is single and the rest is
      collapsed too. */
  lemma CollapsedAfterWord(z: string)
    requires Collapsed(z) && z != [] && !IsSpace(z[|z| - 1]) && WordLength(z) < |z|
    ensures var k := WordLength(z);
      && k + 1 < |z| && z[k] == ' ' && !IsSpace(z[k + 1])
      && Collapsed(z[k + 1..]) && z[k + 1..][|z| - k - 2] == z[|z| - 1]
  {
    var k := WordLength(z);
    assert IsSpace(z[k]);
    assert z[k] == ' ';
    assert k != |z| - 1;
    assert !IsSpace(z[k]) || !IsSpace(z[k + 1]);
    CollapsedSlice(z, k + 1, |z|);
  }

  /** A whitespace character right after the first word separates it from the rest. */
  lemma WordsAfterSpace(z: string, k: nat)
    requires z != [] && !IsSpace(z[0]) && k == WordLength(z) < |z|
    ensures Words(z) == [z[..k]] + Words(z[k + 1..])
  {
    WordsStart(z);
    SliceCons(z, k);
    WordsSkipSpace(z[k], z[k + 1..]);
  }

  lemma SliceCons(z: string, k: nat)
    requires k < |z|
    ensures z[k..] == [z[k]] + z[k + 1..]
  {
  }

  lemma SpaceSplit(z: string, k: nat)
    requires k < |z| && z[k] == ' '
    ensures z == z[..k] + " " + z[k + 1..]
  {
  }

  /** `text_content` is `' '.join(body.split())` for the tag-stripped body: the same words,
      in order, separated by single spaces. */
  lemma TextContentJoinsWords(cleaned: string)
    ensures TextContent(cleaned) == Join(Words(StripTags(cleaned)), " ")
  {
    var x := StripTags(cleaned);
    SquashSpacesWords(x);
    StripWords(SquashSpaces(x));
    CollapsedIsJoin(TextContent(cleaned));
  }

  /** `text_content`: the cleaned body with tags removed and whitespace collapsed. */
  function TextContent(cleaned: string): string {
    Strip(SquashSpaces(StripTags(cleaned)))
  }

  /** `text_content` has no surrounding whitespace and no run of two whitespace
      characters, its only whitespace is ' ', and it keeps every other character of the
      tag-stripped body in order. */
  lemma TextContentShape(cleaned: string)
    ensures var t := TextContent(cleaned);
      && (t == [] || (!IsSpace(t[0]) && !IsSpace(t[|t| - 1])))
      && Collapsed(t)
      && NonSpace(t) == NonSpace(StripTags(cleaned))
  {
  }

  /** With nothing left of the body the text is empty too, so the `not content` test of
      the placeholder rule never decides anything that the length test does not. */
  lemma EmptyBodyHasNoText()
    ensures TextContent("") == ""
  {
  }

  // ---------------------------------------------------------------------------
  // Resource-link mining

  /** `match.startswith('http://') or match.startswith('https://')`. */
  predicate IsHttpUrl(m: string) {
    StartsWith(m, "http://") || StartsWith(m, "https://")
  }

  /** The matches of one `findall` call that are kept, in order. */
  function HttpOnly(ms: seq<string>): seq<string> {
    if ms == [] then []
    else
      var last := ms[|ms| - 1];
      HttpOnly(ms[..|ms| - 1]) + (if IsHttpUrl(last) then [last] else [])
  }

  /** A match is kept exactly when it is an http(s) URL. */
  lemma {:induction false} HttpOnlyMembers(ms: seq<string>, m: string)
    ensures m in HttpOnly(ms) <==> m in ms && IsHttpUrl(m)
  {
    if ms != [] {
      var n := |ms| - 1;
      HttpOnlyMembers(ms[..n], m);
      assert ms == ms[..n] + [ms[n]];
    }
  }

  /** What one pattern contributes, over the sources scanned in order. */
  function PatternMatches(find: string -> seq<string>, sources: seq<string>): seq<string> {
    if sources == [] then []
    else PatternMatches(find, sources[..|sources| - 1]) + HttpOnly(find(sources[|sources| - 1]))
  }

  /** `all_matches`: for each pattern in order, for each source in order, the kept matches. */
  function Collected(finders: seq<string -> seq<string>>, sources: seq<string>): seq<string> {
    if finders == [] then []
    else Collected(finders[..|finders| - 1], sources) + PatternMatches(finders[|finders| - 1], sources)
  }

  /** `find` matches `m` in one of the sources. */
  predicate FoundBy(find: string -> seq<string>, sources: seq<string>, m: string) {
    exists k :: 0 <= k < |sources| && m in find(sources[k])
  }

  /** Some pattern matches `m` in one of the sources. */
  predicate FoundByAny(finders: seq<string -> seq<string>>, sources: seq<string>, m: string) {
    exists p :: 0 <= p < |finders| && FoundBy(finders[p], sources, m)
  }

  lemma {:induction false} PatternMatchesMembers(find: string -> seq<string>, sources: seq<string>, m: string)
    ensures m in PatternMatches(find, sources) <==> IsHttpUrl(m) && FoundBy(find, sources, m)
  {
    if sources != [] {
      var n := |sources| - 1;
      var init := sources[..n];
      PatternMatchesMembers(find, init, m);
      HttpOnlyMembers(find(sources[n]), m);
      assert PatternMatches(find, sources) == PatternMatches(find, init) + HttpOnly(find(sources[n]));
      if FoundBy(find, init, m) {
        var k :| 0 <= k < n && m in find(init[k]);
        assert init[k] == sources[k];
      }
      if FoundBy(find, sources, m) {
        var k :| 0 <= k < |sources| && m in find(sources[k]);
        if k < n {
          assert init[k] == sources[k];
          assert FoundBy(find, init, m);
        }
      }
    }
  }

  /** Some pattern of a non-empty list finds `m` exactly when one of the earlier patterns or
      the last one does. */
  lemma FoundByAnySplit(finders: seq<string -> seq<string>>, sources: seq<string>, m: string)
    requires finders != []
    ensures FoundByAny(finders, sources, m) <==>
      FoundByAny(finders[..|finders| - 1], sources, m) || FoundBy(finders[|finders| - 1], sources, m)
  {
    var n := |finders| - 1;
    var init := finders[..n];
    if FoundByAny(init, sources, m) {
      var p :| 0 <= p < n && FoundBy(init[p], sources, m);
      assert init[p] == finders[p];
    }
    if FoundByAny(finders, sources, m) {
      var p :| 0 <= p < |finders| && FoundBy(finders[p], sources, m);
      if p < n {
        assert init[p] == finders[p];
      }
    }
  }

  /** A string is collected exactly when it is an http(s) URL that some pattern found in
      some source. */
  lemma {:induction false} CollectedMembers(finders: seq<string -> seq<string>>, sources: seq<string>, m: string)
    ensures m in Collected(finders, sources) <==> IsHttpUrl(m) && FoundByAny(finders, sources, m)
  {
    if finders != [] {
      var n := |finders| - 1;
      var init := finders[..n];
      CollectedMembers(init, sources, m);
      PatternMatchesMembers(finders[n], sources, m);
      FoundByAnySplit(finders, sources, m);
      assert Collected(finders, sources) == Collected(init, sources) + PatternMatches(finders[n], sources);
    }
  }

  lemma HttpOnlyStep(ms: seq<string>, k: nat)
    requires k < |ms|
    ensures HttpOnly(ms[..k + 1]) == HttpOnly(ms[..k]) + (if IsHttpUrl(ms[k]) then [ms[k]] else [])
  {
    assert ms[..k + 1][..k] == ms[..k];
  }

  lemma PatternMatchesStep(find: string -> seq<string>, sources: seq<string>, s: nat)
    requires s < |sources|
    ensures PatternMatches(find, sources[..s + 1]) == PatternMatches(find, sources[..s]) + HttpOnly(find(sources[s]))
  {
    assert sources[..s + 1][..s] == sources[..s];
  }

  lemma CollectedStep(finders: seq<string -> seq<string>>, sources: seq<string>, p: nat)
    requires p < |finders|
    ensures Collected(finders[..p + 1], sources) == Collected(finders[..p], sources) + PatternMatches(finders[p], sources)
  {
    assert finders[..p + 1][..p] == finders[..p];
  }

  lemma AppendAssoc(a: seq<string>, b: seq<string>, c: seq<string>)
    ensures (a + b) + c == a + (b + c)
  {
  }

  /** The innermost loop: append each match of one `findall` call that is an http(s) URL. */
  method AppendUrls(all: seq<string>, matches: seq<string>) returns (all': seq<string>)
    ensures all' == all + HttpOnly(matches)
  {
    all' := all;
    for k := 0 to |matches|
      invariant all' == all + HttpOnly(matches[..k])
    {
      var m := matches[k];
      HttpOnlyStep(matches, k);
      if IsHttpUrl(m) {
        all' := all' + [m];
      }
    }
    assert matches[..|matches|] == matches;
  }

  /** The loop over the two sources for one pattern. */
  method MineWithPattern(all: seq<string>, find: string -> seq<string>, sources: seq<string>)
    returns (all': seq<string>)
    ensures all' == all + PatternMatches(find, sources)
  {
    all' := all;
    for s := 0 to |sources|
      invariant all' == all + PatternMatches(find, sources[..s])
    {
      PatternMatchesStep(find, sources, s);
      var matches := find(sources[s]);
      all' := AppendUrls(all', matches);
      AppendAssoc(all, PatternMatches(find, sources[..s]), HttpOnly(matches));
    }
    assert sources[..|sources|] == sources;
  }

  /** The nested loops that fill `all_matches`. */
  method MineLinks(finders: seq<string -> seq<string>>, content: string, text: string)
    returns (all: seq<string>)
    ensures all == Collected(finders, [content, text])
  {
    var sources := [content, text];
    all := [];
    for p := 0 to |finders|
      invariant all == Collected(finders[..p], sources)
    {
      CollectedStep(finders, sources, p);
      all := MineWithPattern(all, finders[p], sources);
    }
    assert finders[..|finders|] == finders;
  }

  // ---------------------------------------------------------------------------
  // De-duplication and filtering

  predicate NoDup(s: seq<string>) {
    forall i, j :: 0 <= i < j < |s| ==> s[i] != s[j]
  }

  /** `list(set(all_matches))`. Python's set has no defined order; the model keeps first
      occurrences, one of the orders a set may produce, and states its properties as
      membership only. */
  function Dedup(s: seq<string>): (r: seq<string>)
    ensures NoDup(r)
    ensures forall x :: x in r <==> x in s
  {
    if s == [] then []
    else
      var d := Dedup(s[..|s| - 1]);
      var last := s[|s| - 1];
      assert s == s[..|s| - 1] + [last];
      if last in d then d else d + [last]
  }

  /** `link.lower()` contains one of the excluded path segments or image extensions. */
  predicate Excluded(link: string) {
    exists k :: 0 <= k < |ExcludedFragments| && Contains(Lower(link), ExcludedFragments[k])
  }

  /** `valid_links`: the links that are not excluded, in order. */
  function Filtered(u: seq<string>): (r: seq<string>)
    ensures forall x :: x in r <==> x in u && !Excluded(x)
    ensures NoDup(u) ==> NoDup(r)
  {
    if u == [] then []
    else
      var last := u[|u| - 1];
      assert u == u[..|u| - 1] + [last];
      Filtered(u[..|u| - 1]) + (if Excluded(last) then [] else [last])
  }

  lemma FilteredStep(u: seq<string>, i: nat)
    requires i < |u|
    ensures Filtered(u[..i + 1]) == Filtered(u[..i]) + (if Excluded(u[i]) then [] else [u[i]])
  {
    assert u[..i + 1][..i] == u[..i];
  }

  /** The loop that builds `valid_links` from `unique_links`. */
  method SelectValidLinks(unique: seq<string>) returns (valid: seq<string>)
    ensures valid == Filtered(unique)
  {
    valid := [];
    for i := 0 to |unique|
      invariant valid == Filtered(unique[..i])
    {
      var link := unique[i];
      FilteredStep(unique, i);
      if !Excluded(link) {
        valid := valid + [link];
      }
    }
    assert unique[..|unique|] == unique;
  }

  /** The links that survive mining, de-duplication and filtering. */
  function ValidLinks(finders: seq<string -> seq<string>>, cleaned: string, text: string): seq<string> {
    Filtered(Dedup(Collected(finders, [cleaned, text])))
  }

  /** Every surviving link is an http(s) URL, none appears twice, none contains an excluded
      fragment once lowercased, and every URL some pattern found that is not excluded
      survives. */
  lemma ValidLinksSpec(finders: seq<string -> seq<string>>, cleaned: string, text: string)
    ensures var v := ValidLinks(finders, cleaned, text);
      && NoDup(v)
      && (forall x :: x in v ==> IsHttpUrl(x) && !Excluded(x))
      && (forall x :: x in v <==>
            IsHttpUrl(x) && !Excluded(x) &&
            exists p :: 0 <= p < |finders| && (x in finders[p](cleaned) || x in finders[p](text)))
  {
    var sources := [cleaned, text];
    forall x ensures x in Collected(finders, sources) <==>
      IsHttpUrl(x) && exists p :: 0 <= p < |finders| && (x in finders[p](cleaned) || x in finders[p](text))
    {
      CollectedMembers(finders, sources, x);
      forall p | 0 <= p < |finders|
        ensures FoundBy(finders[p], sources, x) <==> x in finders[p](cleaned) || x in finders[p](text)
      {
        assert sources[0] == cleaned && sources[1] == text;
      }
    }
  }

  /** `download_links`: the surviving links joined by ", ", or the placeholder when none
      survives. */
  function DownloadField(valid: seq<string>): string {
    var joined := if valid == [] then "" else Join(valid, ", ");
    if joined == "" then LinksPlaceholder else joined
  }

  /** The placeholder stands in exactly when no link survived; otherwise the field starts
      with a surviving link. */
  lemma DownloadFieldSpec(valid: seq<string>)
    requires forall x :: x in valid ==> IsHttpUrl(x)
    ensures DownloadField(valid) == LinksPlaceholder <==> valid == []
    ensures valid != [] ==> StartsWith(DownloadField(valid), valid[0])
  {
    if valid != [] {
      JoinStartsWithFirst(valid, ", ");
      var j := Join(valid, ", ");
      var first := valid[0];
      assert first in valid;
      assert first[0] == 'h' by {
        assert first[..7] == "http://" || first[..8] == "https://";
      }
      assert j[..|first|] == first;
      assert j[0] == 'h';
      assert LinksPlaceholder[0] != 'h';
    }
  }

  /** The stored `content`: the placeholder when the body is empty or its text is shorter
      than ten characters, otherwise the cleaned markup itself. */
  function StoredContent(cleaned: string, text: string): string {
    if cleaned == "" || |text| < MinTextLength then ContentPlaceholder else cleaned
  }

  /** All fields of the row for an entry, or `None` when reading the body raises. */
  function ExtractRow(e: Entry, rx: Regexes, site: string): (r: Option<Row>)
    ensures r.None? <==> e.content == Some(ContentList([]))
    ensures r.Some? ==>
      && r.value.title == TitleOf(e) && r.value.link == LinkOf(e)
      && r.value.pubDate == e.published.GetOr("") && r.value.author == AuthorOf(e)
      && r.value.category == CategoryOf(e) && r.value.siteName == site
    ensures r.Some? ==>
      var cleaned := rx.cleanup(RawContent(e).value);
      var text := TextContent(cleaned);
      && (|text| < MinTextLength ==> r.value.content == ContentPlaceholder)
      && (|text| >= MinTextLength ==> r.value.content == cleaned)
      && r.value.downloadLinks == DownloadField(ValidLinks(rx.finders, cleaned, text))
      && (r.value.downloadLinks == LinksPlaceholder <==> ValidLinks(rx.finders, cleaned, text) == [])
  {
    match RawContent(e)
    case None => None
    case Some(raw) =>
      var cleaned := rx.cleanup(raw);
      var text := TextContent(cleaned);
      var valid := ValidLinks(rx.finders, cleaned, text);
      ValidLinksSpec(rx.finders, cleaned, text);
      DownloadFieldSpec(valid);
      Some(Row(TitleOf(e), LinkOf(e), e.published.GetOr(""), AuthorOf(e), CategoryOf(e),
               StoredContent(cleaned, text), DownloadField(valid), site))
  }

  /** The extraction steps of `check_for_updates` for one new entry, in the order the
      source runs them. */
  method ExtractEntry(e: Entry, rx: Regexes, site: string) returns (r: Option<Row>)
    ensures r == ExtractRow(e, rx, site)
  {
    var raw := RawContent(e);
    if raw.None? {
      return None;
    }
    var cleaned := rx.cleanup(raw.value);
    var text := TextContent(cleaned);
    var all := MineLinks(rx.finders, cleaned, text);
    var valid: seq<string> := [];
    if all != [] {
      valid := SelectValidLinks(Dedup(all));
    }
    var links := DownloadField(valid);
    var content := StoredContent(cleaned, text);
    r := Some(Row(TitleOf(e), LinkOf(e), e.published.GetOr(""), AuthorOf(e), CategoryOf(e),
                  content, links, site));
  }
}
