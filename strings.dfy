/** The JavaScript string operations the core relies on, over `seq<char>`:
    startsWith, endsWith, includes, indexOf, replace with a string pattern
    (first occurrence only), split on a one-character separator, the
    whitespace-run split of the query box, trim, and the anchored regular
    expressions `^/+` and `/+$`. */
module Strings {
  import opened Common

  predicate StartsWith(s: string, prefix: string) {
    |prefix| <= |s| && s[..|prefix|] == prefix
  }

  predicate EndsWith(s: string, suffix: string) {
    |suffix| <= |s| && s[|s| - |suffix|..] == suffix
  }

  /** `pat` occurs in `s` starting at index `i`. */
  predicate OccursAt(s: string, pat: string, i: nat) {
    i + |pat| <= |s| && s[i..i + |pat|] == pat
  }

  /** The first index at or after `from` where `pat` occurs (String.prototype.indexOf). */
  function IndexOfFrom(s: string, pat: string, from: nat): (r: Option<nat>)
    ensures r.Some? ==> from <= r.value && OccursAt(s, pat, r.value)
    ensures r.Some? ==> forall j: nat :: from <= j < r.value ==> !OccursAt(s, pat, j)
    ensures r.None? ==> forall j: nat :: from <= j ==> !OccursAt(s, pat, j)
    decreases |s| - from
  {
    if from + |pat| > |s| then None
    else if s[from..from + |pat|] == pat then Some(from)
    else IndexOfFrom(s, pat, from + 1)
  }

  function IndexOf(s: string, pat: string): Option<nat> {
    IndexOfFrom(s, pat, 0)
  }

  /** String.prototype.includes. */
  predicate Contains(s: string, pat: string) {
    IndexOf(s, pat).Some?
  }

  lemma ContainsIff(s: string, pat: string)
    ensures Contains(s, pat) <==> exists i: nat :: OccursAt(s, pat, i)
  {
  }

  /** String.prototype.replace with a string pattern: only the first
      occurrence is replaced, and a string without one is returned as is. */
  function ReplaceFirst(s: string, pat: string, rep: string): string {
    match IndexOf(s, pat)
    case None => s
    case Some(i) => s[..i] + rep + s[i + |pat|..]
  }

  /** When `s` begins with `pat`, the first occurrence is that prefix. */
  lemma ReplaceFirstAtStart(s: string, pat: string, rep: string)
    requires StartsWith(s, pat)
    ensures ReplaceFirst(s, pat, rep) == rep + s[|pat|..]
  {
    assert OccursAt(s, pat, 0);
  }

  /** Replacing the first occurrence, stated on a split of `s` around it:
      everything before the occurrence and everything after it is kept. */
  lemma ReplaceFirstSplit(pre: string, pat: string, post: string, rep: string)
    requires forall j: nat :: j < |pre| ==> !OccursAt(pre + pat + post, pat, j)
    ensures ReplaceFirst(pre + pat + post, pat, rep) == pre + rep + post
  {
    var s := pre + pat + post;
    assert OccursAt(s, pat, |pre|) by {
      assert s[|pre|..|pre| + |pat|] == pat;
    }
    var i := IndexOf(s, pat).value;
    assert i == |pre|;
    assert s[..i] == pre;
    assert s[i + |pat|..] == post;
  }

  /** Drops every leading character satisfying `p`. */
  function DropWhile(s: string, p: char -> bool): (r: string)
    ensures |r| <= |s| && r == s[|s| - |r|..]
    ensures r == [] || !p(r[0])
    ensures forall i :: 0 <= i < |s| - |r| ==> p(s[i])
  {
    if s != [] && p(s[0]) then
      var r := DropWhile(s[1..], p);
      DropWhileStep(s, r, p);
      r
    else s
  }

  /** The inductive step of DropWhile: a character satisfying `p` in front of
      the dropped prefix extends it. */
  lemma {:induction false} DropWhileStep(s: string, r: string, p: char -> bool)
    requires s != [] && p(s[0])
    requires |r| <= |s| - 1 && r == s[1..][|s| - 1 - |r|..]
    requires forall i :: 0 <= i < |s| - 1 - |r| ==> p(s[1..][i])
    ensures r == s[|s| - |r|..]
    ensures forall i :: 0 <= i < |s| - |r| ==> p(s[i])
  {
    forall i | 0 <= i < |s| - |r| ensures p(s[i]) {
      if i > 0 {
        assert s[i] == s[1..][i - 1];
      }
    }
  }

  /** Drops every trailing character satisfying `p`. */
  function DropLastWhile(s: string, p: char -> bool): (r: string)
    ensures |r| <= |s| && r == s[..|r|]
    ensures r == [] || !p(r[|r| - 1])
    ensures forall i :: |r| <= i < |s| ==> p(s[i])
  {
    if s != [] && p(s[|s| - 1]) then DropLastWhile(s[..|s| - 1], p) else s
  }

  /** `s.replace(/^c+/, '')`. */
  function TrimStartChar(s: string, c: char): string {
    DropWhile(s, x => x == c)
  }

  /** `s.replace(/c+$/, '')`. */
  function TrimEndChar(s: string, c: char): string {
    DropLastWhile(s, x => x == c)
  }

  /** The characters JavaScript's `\s` and String.prototype.trim treat as
      white space: WhiteSpace and LineTerminator of ECMA-262. */
  predicate IsWhitespace(c: char) {
    || c == ' ' || c == '\t' || c == '\n' || c == '\r'
    || c == '\U{B}' || c == '\U{C}' || c == '\U{A0}' || c == '\U{1680}'
    || ('\U{2000}' <= c <= '\U{200A}')
    || c == '\U{2028}' || c == '\U{2029}' || c == '\U{202F}' || c == '\U{205F}'
    || c == '\U{3000}' || c == '\U{FEFF}'
  }

  /** The first index from `i` on that does not hold white space, or |s|. */
  function SkipWhitespace(s: string, i: nat): (k: nat)
    requires i <= |s|
    ensures i <= k <= |s|
    ensures k == |s| || !IsWhitespace(s[k])
    ensures forall j :: i <= j < k ==> IsWhitespace(s[j])
    decreases |s| - i
  {
    if i == |s| || !IsWhitespace(s[i]) then i else SkipWhitespace(s, i + 1)
  }

  /** The end of `s[lo..j]` once its trailing white space is cut off. */
  function SkipWhitespaceBack(s: string, lo: nat, j: nat): (k: nat)
    requires lo <= j <= |s|
    ensures lo <= k <= j
    ensures k == lo || !IsWhitespace(s[k - 1])
    ensures forall m :: k <= m < j ==> IsWhitespace(s[m])
    decreases j
  {
    if j == lo || !IsWhitespace(s[j - 1]) then j else SkipWhitespaceBack(s, lo, j - 1)
  }

  /** String.prototype.trim. */
  function Trim(s: string): (r: string)
    ensures r == [] || (!IsWhitespace(r[0]) && !IsWhitespace(r[|r| - 1]))
    ensures var lo := SkipWhitespace(s, 0);
      lo + |r| <= |s| && r == s[lo..lo + |r|]
      && (forall i :: 0 <= i < lo ==> IsWhitespace(s[i]))
      && (forall i :: lo + |r| <= i < |s| ==> IsWhitespace(s[i]))
  {
    var lo := SkipWhitespace(s, 0);
    s[lo..SkipWhitespaceBack(s, lo, |s|)]
  }

  /** Trimming removes exactly the white space around a string whose ends
      are not white space. */
  lemma TrimAround(lead: string, core: string, trail: string)
    requires forall i :: 0 <= i < |lead| ==> IsWhitespace(lead[i])
    requires forall i :: 0 <= i < |trail| ==> IsWhitespace(trail[i])
    requires core != [] && !IsWhitespace(core[0]) && !IsWhitespace(core[|core| - 1])
    ensures Trim(lead + core + trail) == core
  {
    var s := lead + core + trail;
    var lo := |lead|;
    var hi := |lead| + |core|;
    assert s[lo] == core[0] && s[hi - 1] == core[|core| - 1];
    assert forall i :: 0 <= i < lo ==> s[i] == lead[i];
    assert forall i :: hi <= i < |s| ==> s[i] == trail[i - hi];
    SkipWhitespaceAt(s, 0, lo);
    SkipWhitespaceBackAt(s, lo, |s|, hi);
    assert s[lo..hi] == core;
  }

  /** The scan stops at the first character that is not white space. */
  lemma SkipWhitespaceAt(s: string, i: nat, k: nat)
    requires i <= k < |s| && !IsWhitespace(s[k])
    requires forall j :: i <= j < k ==> IsWhitespace(s[j])
    ensures SkipWhitespace(s, i) == k
  {
  }

  /** The backward scan stops after the last character that is not white space. */
  lemma SkipWhitespaceBackAt(s: string, lo: nat, j: nat, k: nat)
    requires lo < k <= j <= |s| && !IsWhitespace(s[k - 1])
    requires forall m :: k <= m < j ==> IsWhitespace(s[m])
    ensures SkipWhitespaceBack(s, lo, j) == k
  {
  }

  /** Trimming keeps a part of the string: every character left was there. */
  lemma TrimInside(s: string)
    ensures forall c :: c in Trim(s) ==> c in s
  {
    var lo := SkipWhitespace(s, 0);
    assert Trim(s) == s[lo..SkipWhitespaceBack(s, lo, |s|)];
  }

  /** Lower-casing of one character; only the ASCII letters are mapped. */
  function LowerChar(c: char): (r: char)
    ensures 'A' <= c <= 'Z' ==> 'a' <= r <= 'z' && r as int - 'a' as int == c as int - 'A' as int
    ensures !('A' <= c <= 'Z') ==> r == c
  {
    if 'A' <= c <= 'Z' then (c as int + 32) as char else c
  }

  /** String.prototype.toLowerCase restricted to ASCII letters. */
  function ToLower(s: string): (r: string)
    ensures |r| == |s|
    ensures forall i :: 0 <= i < |r| ==> !('A' <= r[i] <= 'Z')
    ensures forall i :: 0 <= i < |s| ==> r[i] == LowerChar(s[i])
  {
    seq(|s|, i requires 0 <= i < |s| => LowerChar(s[i]))
  }

  /** Lower-casing works character by character, so it distributes over
      concatenation. */
  lemma ToLowerAppend(a: string, b: string)
    ensures ToLower(a + b) == ToLower(a) + ToLower(b)
  {
  }

  lemma ToLowerKeepsWhitespace(s: string, i: nat)
    requires i < |s|
    ensures IsWhitespace(ToLower(s)[i]) <==> IsWhitespace(s[i])
  {
  }

  /** The pieces of `s` between separator characters: every separator ends a
      piece, so `n` separators give `n + 1` pieces, some possibly empty. */
  function SplitWhere(s: string, isSep: char -> bool): (r: seq<string>)
    ensures |r| >= 1
    ensures forall k, i :: 0 <= k < |r| && 0 <= i < |r[k]| ==> !isSep(r[k][i])
  {
    if s == [] then [[]]
    else
      var rest := SplitWhere(s[1..], isSep);
      if isSep(s[0]) then [[]] + rest else [[s[0]] + rest[0]] + rest[1..]
  }

  /** A string without a separator is a single piece. */
  lemma {:induction false} SplitWhereNoSeparator(s: string, isSep: char -> bool)
    requires forall i :: 0 <= i < |s| ==> !isSep(s[i])
    ensures SplitWhere(s, isSep) == [s]
  {
    if s != [] {
      SplitWhereNoSeparator(s[1..], isSep);
      assert [s[0]] + s[1..] == s;
    }
  }

  /** A separator character ends one piece and starts the next: splitting
      `a + [c] + b` gives the pieces of `a` followed by those of `b`. */
  lemma {:induction false} SplitWhereAround(a: string, c: char, b: string, isSep: char -> bool)
    requires isSep(c)
    ensures SplitWhere(a + [c] + b, isSep) == SplitWhere(a, isSep) + SplitWhere(b, isSep)
  {
    var s := a + [c] + b;
    if a == [] {
      assert s[1..] == b;
    } else {
      assert s[1..] == a[1..] + [c] + b;
      SplitWhereAround(a[1..], c, b, isSep);
    }
  }

  /** String.prototype.split with a one-character separator. */
  function Split(s: string, sep: char): seq<string> {
    SplitWhere(s, x => x == sep)
  }

  /** Joins pieces with a separator (Array.prototype.join). */
  function Join(pieces: seq<string>, sep: char): string
    requires |pieces| >= 1
  {
    if |pieces| == 1 then pieces[0] else pieces[0] + [sep] + Join(pieces[1..], sep)
  }

  /** Splitting and joining back with the same separator gives the input. */
  lemma {:induction false} JoinSplit(s: string, sep: char)
    ensures Join(Split(s, sep), sep) == s
  {
    if s != [] {
      JoinSplit(s[1..], sep);
      var rest := Split(s[1..], sep);
      if s[0] != sep {
        if |rest| == 1 {
          assert Split(s, sep) == [[s[0]] + rest[0]];
        } else {
          assert Split(s, sep) == [[s[0]] + rest[0]] + rest[1..];
          assert Split(s, sep)[1..] == rest[1..];
        }
      } else {
        assert Split(s, sep) == [[]] + rest;
        assert Split(s, sep)[1..] == rest;
      }
    }
  }

  /** A string without the separator is a single piece. */
  lemma {:induction false} SplitNoSeparator(s: string, sep: char)
    requires sep !in s
    ensures Split(s, sep) == [s]
  {
    SplitWhereNoSeparator(s, x => x == sep);
  }

  /** Splitting `a + [sep] + b` gives the pieces of `a` followed by those of `b`. */
  lemma {:induction false} SplitAround(a: string, sep: char, b: string)
    ensures Split(a + [sep] + b, sep) == Split(a, sep) + Split(b, sep)
  {
    SplitWhereAround(a, sep, b, x => x == sep);
  }

  /** The last piece of a split is what follows the last separator. */
  lemma LastPieceAfterSeparator(a: string, sep: char, b: string)
    requires sep !in b
    ensures var pieces := Split(a + [sep] + b, sep); pieces[|pieces| - 1] == b
  {
    SplitAround(a, sep, b);
    SplitNoSeparator(b, sep);
  }

  /** Characters of `s` not satisfying `p`, in order. */
  function Without(s: string, p: char -> bool): (r: string)
    ensures forall i :: 0 <= i < |r| ==> !p(r[i])
  {
    if s == [] then [] else (if p(s[0]) then [] else [s[0]]) + Without(s[1..], p)
  }

  /** The pieces of a split contain exactly the non-separator characters. */
  lemma {:induction false} FlattenSplitWhere(s: string, isSep: char -> bool)
    ensures Flatten(SplitWhere(s, isSep)) == Without(s, isSep)
  {
    if s != [] {
      FlattenSplitWhere(s[1..], isSep);
      var rest := SplitWhere(s[1..], isSep);
      var pieces := SplitWhere(s, isSep);
      if isSep(s[0]) {
        assert pieces == [[]] + rest;
        assert pieces[0] == [] && pieces[1..] == rest;
        assert Flatten(pieces) == [] + Flatten(rest);
        assert Without(s, isSep) == Without(s[1..], isSep);
      } else {
        assert pieces == [[s[0]] + rest[0]] + rest[1..];
        assert pieces[1..] == rest[1..];
        assert Flatten(rest) == rest[0] + Flatten(rest[1..]);
        assert Flatten(pieces) == [s[0]] + rest[0] + Flatten(rest[1..]);
        assert Without(s, isSep) == [s[0]] + Without(s[1..], isSep);
      }
    }
  }

  /** Dropping the empty pieces keeps the flattening unchanged. */
  lemma {:induction false} FlattenDropEmpty(ss: seq<string>, nonEmpty: string -> bool)
    requires forall x :: nonEmpty(x) == (x != [])
    ensures Flatten(Filter(ss, nonEmpty)) == Flatten(ss)
  {
    if ss != [] {
      FlattenDropEmpty(ss[1..], nonEmpty);
      if ss[0] == [] {
        assert Filter(ss, nonEmpty) == Filter(ss[1..], nonEmpty);
      } else {
        assert Filter(ss, nonEmpty) == [ss[0]] + Filter(ss[1..], nonEmpty);
        assert Filter(ss, nonEmpty)[1..] == Filter(ss[1..], nonEmpty);
      }
    }
  }

  /** A character outside the Basic Multilingual Plane, which UTF-16
      writes as a surrogate pair. */
  predicate IsAstral(c: char) {
    c as int > 0xFFFF
  }

  /** The length of a string in UTF-16 code units, which is what
      JavaScript's `.length` counts: characters outside the Basic
      Multilingual Plane take two units. */
  function Utf16Length(s: string): (n: nat)
    ensures |s| <= n <= 2 * |s|
    ensures n == |s| + |Filter(s, IsAstral)|
  {
    if s == [] then 0 else (if IsAstral(s[0]) then 2 else 1) + Utf16Length(s[1..])
  }

  /** JavaScript's `<` on strings: lexicographic, a proper prefix first.
      Characters are compared by code point. */
  predicate LexLess(a: string, b: string) {
    if a == [] then b != []
    else if b == [] then false
    else if a[0] != b[0] then a[0] < b[0]
    else LexLess(a[1..], b[1..])
  }

  lemma {:induction false} LexLessIrreflexive(a: string)
    ensures !LexLess(a, a)
  {
    if a != [] {
      LexLessIrreflexive(a[1..]);
    }
  }

  /** Exactly one of `a < b`, `a == b`, `b < a` holds. */
  lemma {:induction false} LexLessTrichotomy(a: string, b: string)
    ensures LexLess(a, b) || a == b || LexLess(b, a)
    ensures !(LexLess(a, b) && LexLess(b, a))
    ensures LexLess(a, b) ==> a != b
  {
    if a != [] && b != [] {
      LexLessTrichotomy(a[1..], b[1..]);
      if a[0] == b[0] && a[1..] == b[1..] {
        assert a == [a[0]] + a[1..] && b == [b[0]] + b[1..];
      }
    }
    if LexLess(a, b) && a == b {
      LexLessIrreflexive(a);
    }
  }

  lemma {:induction false} LexLessTransitive(a: string, b: string, c: string)
    requires LexLess(a, b) && LexLess(b, c)
    ensures LexLess(a, c)
  {
    if a != [] && a[0] == b[0] && b[0] == c[0] {
      LexLessTransitive(a[1..], b[1..], c[1..]);
    }
  }
}
