/** Values and string operations shared by the rest of the model: an Option type for
    Python's dictionary `get` results, and the few `str` methods the tracker relies on
    (`startswith`, `in`, `lower`, `split`, `replace`, `join`, `isspace`). */
module Basics {

  datatype Option<T> = None | Some(value: T) {
    /** `d.get(key, default)` once the lookup has produced this option. */
    function GetOr(default: T): T {
      if Some? then value else default
    }
  }

  /** `dict.get(key)` on a Python dictionary. */
  function Get<K, V>(m: map<K, V>, key: K): Option<V> {
    if key in m then Some(m[key]) else None
  }

  /** Python's `str.isspace` for one character, which is also what the `\s` class of the
      `re` module matches in a `str` pattern. */
  predicate IsSpace(c: char) {
    || c == ' '
    || ('\t' <= c <= '\r')
    || ('\U{1c}' <= c <= '\U{1f}')
    || c == '\U{85}' || c == '\U{a0}' || c == '\U{1680}'
    || ('\U{2000}' <= c <= '\U{200a}')
    || c == '\U{2028}' || c == '\U{2029}' || c == '\U{202f}' || c == '\U{205f}' || c == '\U{3000}'
  }

  /** Number of whitespace characters at the start of `t`. */
  function LeadingSpaces(t: string): (n: nat)
    ensures n <= |t|
    ensures forall i :: 0 <= i < n ==> IsSpace(t[i])
    ensures n < |t| ==> !IsSpace(t[n])
  {
    if t == [] || !IsSpace(t[0]) then 0 else 1 + LeadingSpaces(t[1..])
  }

  /** Number of whitespace characters at the end of `t`. */
  function TrailingSpaces(t: string): (n: nat)
    ensures n <= |t|
    ensures forall i :: |t| - n <= i < |t| ==> IsSpace(t[i])
    ensures n < |t| ==> !IsSpace(t[|t| - 1 - n])
  {
    if t == [] || !IsSpace(t[|t| - 1]) then 0 else 1 + TrailingSpaces(t[..|t| - 1])
  }

  /** Number of characters at the start of `t` that are not whitespace. */
  function WordLength(t: string): (n: nat)
    ensures n <= |t|
    ensures forall i :: 0 <= i < n ==> !IsSpace(t[i])
    ensures n < |t| ==> IsSpace(t[n])
  {
    if t == [] || IsSpace(t[0]) then 0 else 1 + WordLength(t[1..])
  }

  /** A non-empty run of non-whitespace characters. */
  predicate IsWord(w: string) {
    w != [] && forall i :: 0 <= i < |w| ==> !IsSpace(w[i])
  }

  /** `s.split()` with no argument: the maximal runs of non-whitespace characters. */
  function Words(s: string): (r: seq<string>)
    ensures forall k :: 0 <= k < |r| ==> IsWord(r[k])
    decreases |s|
  {
    var t := s[LeadingSpaces(s)..];
    if t == [] then []
    else
      var n := WordLength(t);
      [t[..n]] + Words(t[n..])
  }

  /** A text that starts with a word splits into that word and the words after it. */
  lemma WordsStart(s: string)
    requires s != [] && !IsSpace(s[0])
    ensures Words(s) == [s[..WordLength(s)]] + Words(s[WordLength(s)..])
  {
    assert LeadingSpaces(s) == 0;
    assert s[0..] == s;
  }

  lemma WordLengthCons(c: char, s: string)
    requires !IsSpace(c)
    ensures WordLength([c] + s) == 1 + WordLength(s)
  {
    assert ([c] + s)[1..] == s;
  }

  /** A word followed by whitespace or the end of the text is the first word. */
  lemma WordsCons(w: string, rest: string)
    requires IsWord(w)
    requires rest == [] || IsSpace(rest[0])
    ensures Words(w + rest) == [w] + Words(rest)
  {
    var t := w + rest;
    assert LeadingSpaces(t) == 0 by { assert t[0] == w[0]; }
    assert t[0..] == t;
    WordLengthPrefix(w, rest);
    assert t[..|w|] == w && t[|w|..] == rest;
  }

  lemma {:induction false} WordLengthPrefix(w: string, rest: string)
    requires forall i :: 0 <= i < |w| ==> !IsSpace(w[i])
    requires rest == [] || IsSpace(rest[0])
    ensures WordLength(w + rest) == |w|
  {
    if w != [] {
      assert (w + rest)[1..] == w[1..] + rest;
      WordLengthPrefix(w[1..], rest);
    } else {
      assert w + rest == rest;
    }
  }

  /** Leading whitespace does not start a word. */
  lemma WordsSkipSpace(c: char, s: string)
    requires IsSpace(c)
    ensures Words([c] + s) == Words(s)
  {
    var t := [c] + s;
    assert t[1..] == s;
    assert LeadingSpaces(t) == 1 + LeadingSpaces(s);
    assert t[LeadingSpaces(t)..] == s[LeadingSpaces(s)..];
  }

  /** Every character is whitespace. */
  predicate AllSpace(t: string) {
    forall i :: 0 <= i < |t| ==> IsSpace(t[i])
  }

  /** A text of whitespace only has no words. */
  lemma WordsAllSpace(s: string)
    requires AllSpace(s)
    ensures Words(s) == []
  {
    assert s[LeadingSpaces(s)..] == [];
  }

  /** A non-whitespace character in front of `s` starts a word of its own when `s` is empty
      or starts with whitespace, and otherwise joins the first word of `s`. */
  lemma WordsConsChar(c: char, s: string)
    requires !IsSpace(c)
    ensures s == [] || IsSpace(s[0]) ==> Words([c] + s) == [[c]] + Words(s)
    ensures s != [] && !IsSpace(s[0]) ==> Words(s) != [] && Words([c] + s) == [[c] + Words(s)[0]] + Words(s)[1..]
  {
    if s == [] || IsSpace(s[0]) {
      WordsConsCharAlone(c, s);
    } else {
      WordsConsCharJoins(c, s);
    }
  }

  lemma WordsConsCharAlone(c: char, s: string)
    requires !IsSpace(c) && (s == [] || IsSpace(s[0]))
    ensures Words([c] + s) == [[c]] + Words(s)
  {
    var t := [c] + s;
    WordsStart(t);
    WordLengthCons(c, s);
    assert WordLength(s) == 0;
    assert t[..1] == [c] && t[1..] == s;
  }

  lemma WordsConsCharJoins(c: char, s: string)
    requires !IsSpace(c) && s != [] && !IsSpace(s[0])
    ensures Words(s) != [] && Words([c] + s) == [[c] + Words(s)[0]] + Words(s)[1..]
  {
    var k := WordLength(s);
    WordsStart(s);
    WordsConsFirst(c, s);
    HeadTail(s[..k], Words(s[k..]));
  }

  lemma WordsConsFirst(c: char, s: string)
    requires !IsSpace(c)
    ensures Words([c] + s) == [[c] + s[..WordLength(s)]] + Words(s[WordLength(s)..])
  {
    var t := [c] + s;
    var k := WordLength(s);
    WordsStart(t);
    WordLengthCons(c, s);
    ConsSlices(c, s, k);
  }

  lemma ConsSlices(c: char, s: string, k: nat)
    requires k <= |s|
    ensures ([c] + s)[..k + 1] == [c] + s[..k] && ([c] + s)[k + 1..] == s[k..]
  {
  }

  lemma HeadTail<T>(x: T, ys: seq<T>)
    ensures ([x] + ys)[0] == x && ([x] + ys)[1..] == ys
  {
  }

  /** Whitespace at the end of a text adds no word. */
  lemma {:induction false} WordsDropTrailing(r: string, sp: string)
    requires AllSpace(sp)
    ensures Words(r + sp) == Words(r)
    decreases |r|
  {
    if r == [] {
      assert r + sp == sp;
      WordsAllSpace(sp);
    } else {
      var c, rest := r[0], r[1..];
      assert r + sp == [c] + (rest + sp);
      assert r == [c] + rest;
      WordsDropTrailing(rest, sp);
      if IsSpace(c) {
        WordsSkipSpace(c, rest + sp);
        WordsSkipSpace(c, rest);
      } else {
        if rest == [] {
          assert rest + sp == sp;
        } else {
          assert (rest + sp)[0] == rest[0];
        }
        WordsConsChar(c, rest + sp);
        WordsConsChar(c, rest);
      }
    }
  }

  /** Whitespace at the start of a text adds no word. */
  lemma {:induction false} WordsDropLeading(sp: string, r: string)
    requires AllSpace(sp)
    ensures Words(sp + r) == Words(r)
    decreases |sp|
  {
    if sp != [] {
      assert sp + r == [sp[0]] + (sp[1..] + r);
      WordsSkipSpace(sp[0], sp[1..] + r);
      WordsDropLeading(sp[1..], r);
    } else {
      assert sp + r == r;
    }
  }

  /** `s.startswith(p)`. */
  predicate StartsWith(s: string, p: string) {
    |p| <= |s| && s[..|p|] == p
  }

  /** `p` occurs in `s` starting at index `i`. */
  predicate OccursAt(s: string, p: string, i: nat) {
    i + |p| <= |s| && s[i..i + |p|] == p
  }

  /** `p in s` for strings: `p` occurs as a contiguous piece of `s`. */
  predicate Contains(s: string, p: string) {
    exists i: nat | i <= |s| :: OccursAt(s, p, i)
  }

  /** `s.lower()` on the characters that matter to the model (ASCII letters). */
  function LowerChar(c: char): char {
    if 'A' <= c <= 'Z' then (c as int + 32) as char else c
  }

  function Lower(s: string): (r: string)
    ensures |r| == |s| && forall i :: 0 <= i < |s| ==> r[i] == LowerChar(s[i])
  {
    seq(|s|, i requires 0 <= i < |s| => LowerChar(s[i]))
  }

  /** `sep.join(xs)`. */
  function Join(xs: seq<string>, sep: string): string {
    if xs == [] then ""
    else if |xs| == 1 then xs[0]
    else xs[0] + sep + Join(xs[1..], sep)
  }

  /** Joining a list of two or more strings puts the separator after the first. */
  lemma JoinCons(x: string, xs: seq<string>, sep: string)
    requires xs != []
    ensures Join([x] + xs, sep) == x + sep + Join(xs, sep)
  {
    assert ([x] + xs)[1..] == xs;
  }

  lemma JoinStartsWithFirst(xs: seq<string>, sep: string)
    requires xs != []
    ensures StartsWith(Join(xs, sep), xs[0])
  {
  }

  /** `s.split(c)` for a one-character separator: the pieces between occurrences of `c`,
      always at least one (`"".split(c) == [""]`). */
  function Split(s: string, c: char): (r: seq<string>)
    ensures |r| >= 1
    ensures |r| == 1 <==> c !in s
    ensures forall k :: 0 <= k < |r| ==> c !in r[k]
  {
    if s == [] then [[]]
    else
      var rest := Split(s[1..], c);
      if s[0] == c then [[]] + rest
      else [[s[0]] + rest[0]] + rest[1..]
  }

  /** A string without the separator is one piece. */
  lemma {:induction false} SplitWithoutSeparator(s: string, c: char)
    requires c !in s
    ensures Split(s, c) == [s]
  {
    if s != [] {
      SplitWithoutSeparator(s[1..], c);
      assert [s[0]] + s[1..] == s;
    }
  }

  /** Splitting at the first separator: the piece before it, then the pieces of the rest. */
  lemma {:induction false} SplitAtSeparator(a: string, c: char, b: string)
    requires c !in a
    ensures Split(a + [c] + b, c) == [a] + Split(b, c)
  {
    if a == [] {
      assert a + [c] + b == [c] + b;
      assert ([c] + b)[1..] == b;
    } else {
      assert (a + [c] + b)[1..] == a[1..] + [c] + b;
      SplitAtSeparator(a[1..], c, b);
      assert [a[0]] + a[1..] == a;
    }
  }

  /** `s.replace(p, "")`: every non-overlapping occurrence of `p`, scanning from the left,
      is removed. */
  function RemoveAll(s: string, p: string): (r: string)
    requires p != []
    ensures |r| <= |s|
    decreases |s|
  {
    if |s| < |p| then s
    else if s[..|p|] == p then RemoveAll(s[|p|..], p)
    else [s[0]] + RemoveAll(s[1..], p)
  }

  /** A string in which the pattern does not occur is left as it is. */
  lemma {:induction false} RemoveAllAbsent(s: string, p: string)
    requires p != [] && !Contains(s, p)
    ensures RemoveAll(s, p) == s
    decreases |s|
  {
    if |s| >= |p| {
      assert s[..|p|] != p by { assert !OccursAt(s, p, 0); }
      assert !Contains(s[1..], p) by {
        forall i: nat | i <= |s[1..]| && OccursAt(s[1..], p, i) ensures false {
          assert s[1..][i..i + |p|] == s[i + 1..i + 1 + |p|];
          assert OccursAt(s, p, i + 1);
        }
      }
      RemoveAllAbsent(s[1..], p);
    }
  }

  /** A leading occurrence of the pattern is dropped, and only then is the rest scanned. */
  lemma RemoveAllLeading(p: string, s: string)
    requires p != [] && !Contains(s, p)
    ensures RemoveAll(p + s, p) == s
  {
    assert (p + s)[..|p|] == p;
    assert (p + s)[|p|..] == s;
    RemoveAllAbsent(s, p);
  }
}
