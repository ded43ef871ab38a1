/**
 * The Kotlin standard-library string operations the core relies on:
 * `Char.isWhitespace`, `isBlank`, `trim`, `split(<one char>)`,
 * `joinToString(<one char>)`, `removePrefix` and `uppercase`.
 */
module Strings {

  /**
   * Kotlin's `Char.isWhitespace()` on the JVM: `Character.isWhitespace(c) ||
   * Character.isSpaceChar(c)`, i.e. the ASCII controls TAB..CR and FS..US, and
   * the Unicode space, line and paragraph separators.
   */
  predicate IsWhitespace(c: char) {
    || c == ' ' || c == '\t' || c == '\n' || c == '\U{B}' || c == '\U{C}' || c == '\r'
    || ('\U{1C}' <= c <= '\U{1F}')
    || c == '\U{A0}' || c == '\U{1680}'
    || ('\U{2000}' <= c <= '\U{200A}')
    || c == '\U{2028}' || c == '\U{2029}' || c == '\U{202F}' || c == '\U{205F}' || c == '\U{3000}'
  }

  /** Kotlin's `CharSequence.isBlank()`: empty or whitespace only. */
  predicate IsBlank(s: string) {
    forall i :: 0 <= i < |s| ==> IsWhitespace(s[i])
  }

  lemma BlankConcat(x: string, y: string)
    ensures IsBlank(x) && IsBlank(y) ==> IsBlank(x + y)
  {
    if IsBlank(x) && IsBlank(y) {
      forall i | 0 <= i < |x + y| ensures IsWhitespace((x + y)[i]) {
        if i >= |x| {
          assert (x + y)[i] == y[i - |x|];
        }
      }
    }
  }

  /** A string with no whitespace at either end (what `trim` produces). */
  predicate IsTrimmed(s: string) {
    |s| == 0 || (!IsWhitespace(s[0]) && !IsWhitespace(s[|s| - 1]))
  }

  function TrimStart(s: string): (r: string)
    ensures |r| <= |s| && r == s[|s| - |r|..]
    ensures |r| == 0 || !IsWhitespace(r[0])
    ensures IsBlank(s[..|s| - |r|])
  {
    if |s| > 0 && IsWhitespace(s[0]) then
      var r := TrimStart(s[1..]);
      assert s[1..][..|s| - 1 - |r|] == s[1..|s| - |r|];
      r
    else s
  }

  function TrimEnd(s: string): (r: string)
    ensures |r| <= |s| && r == s[..|r|]
    ensures |r| == 0 || !IsWhitespace(r[|r| - 1])
    ensures IsBlank(s[|r|..])
  {
    if |s| > 0 && IsWhitespace(s[|s| - 1]) then
      var r := TrimEnd(s[..|s| - 1]);
      assert s[..|s| - 1][|r|..] + [s[|s| - 1]] == s[|r|..];
      r
    else s
  }

  /**
   * Kotlin's `String.trim()`: the infix of `s` left after removing leading and
   * trailing whitespace.
   */
  function Trim(s: string): (r: string)
    ensures IsTrimmed(r)
    ensures forall c :: c in r ==> c in s
    ensures IsTrimmed(s) ==> r == s
    ensures |r| == 0 <==> IsBlank(s)
  {
    var a := TrimStart(s);
    var r := TrimEnd(a);
    TrimParts(s, a, r);
    TrimEmpty(s, a, r);
    TrimTrimmed(s);
    r
  }

  /** `Trim` keeps a contiguous part of `s` with no whitespace at its ends. */
  lemma TrimParts(s: string, a: string, r: string)
    requires a == TrimStart(s) && r == TrimEnd(a)
    ensures IsTrimmed(r)
    ensures forall c :: c in r ==> c in s
  {
    var i := |s| - |a|;
    assert forall k :: 0 <= k < |r| ==> r[k] == a[k] == s[i + k];
  }

  /** Trimming changes nothing on a trimmed string. */
  lemma TrimTrimmed(s: string)
    ensures IsTrimmed(s) ==> TrimEnd(TrimStart(s)) == s
  {
    if IsTrimmed(s) && |s| > 0 {
      assert TrimStart(s) == s;
      assert TrimEnd(s) == s;
    }
  }

  /** Trimming leaves nothing exactly when the string is blank. */
  lemma TrimEmpty(s: string, a: string, r: string)
    requires a == TrimStart(s) && r == TrimEnd(a)
    ensures |r| == 0 <==> IsBlank(s)
  {
    if |r| == 0 {
      TrimEmptyBlank(s, a);
    } else {
      assert a[0] == s[|s| - |a|];
      assert !IsBlank(s);
    }
  }

  lemma TrimEmptyBlank(s: string, a: string)
    requires a == TrimStart(s) && |TrimEnd(a)| == 0
    ensures IsBlank(s)
  {
    var i := |s| - |a|;
    assert IsBlank(a[|TrimEnd(a)|..]);
    assert a[|TrimEnd(a)|..] == a == s[i..];
    BlankSplit(s, i);
  }

  /** A string is blank when both sides of a cut are. */
  lemma BlankSplit(s: string, i: nat)
    requires i <= |s| && IsBlank(s[..i]) && IsBlank(s[i..])
    ensures IsBlank(s)
  {
    forall k | 0 <= k < |s| ensures IsWhitespace(s[k]) {
      if k < i {
        assert s[k] == s[..i][k];
      } else {
        assert s[k] == s[i..][k - i];
      }
    }
  }

  lemma TrimLeadingWhitespace(s: string)
    requires |s| > 0 && IsWhitespace(s[0])
    ensures Trim(s) == Trim(s[1..])
  {
  }

  /** The index of the first occurrence of `d` in `s`. */
  function IndexOf(s: string, d: char): (r: nat)
    requires d in s
    ensures r < |s| && s[r] == d
    ensures forall k :: 0 <= k < r ==> s[k] != d
  {
    if s[0] == d then 0 else
      assert d in s[1..] by {
        var k :| 0 <= k < |s| && s[k] == d;
        assert s[1..][k - 1] == d;
      }
      var r := IndexOf(s[1..], d);
      assert forall k :: 1 <= k < r + 1 ==> s[k] == s[1..][k - 1];
      r + 1
  }

  /**
   * `parts` joined with `d` between neighbours; Kotlin's
   * `joinToString(d.toString())` over a list of strings (empty list: "").
   */
  function Join(parts: seq<string>, d: char): string {
    if |parts| == 0 then ""
    else if |parts| == 1 then parts[0]
    else parts[0] + [d] + Join(parts[1..], d)
  }

  lemma JoinStartsWithFirst(parts: seq<string>, d: char)
    requires |parts| >= 1
    ensures parts[0] <= Join(parts, d)
  {
    if |parts| > 1 {
      assert Join(parts, d) == parts[0] + ([d] + Join(parts[1..], d));
    }
  }

  /**
   * Kotlin's `String.split(d.toString())` with no limit: the maximal pieces of
   * `s` between occurrences of `d`, empty pieces included, so there is always
   * at least one piece.
   */
  function Split(s: string, d: char): (r: seq<string>)
    ensures |r| >= 1
    ensures forall i :: 0 <= i < |r| ==> d !in r[i]
    ensures Join(r, d) == s
    decreases |s|
  {
    if d !in s then [s]
    else
      var i := IndexOf(s, d);
      var rest := Split(s[i + 1..], d);
      assert s == s[..i] + [d] + s[i + 1..];
      [s[..i]] + rest
  }

  lemma SplitAt(s: string, d: char)
    requires d in s
    ensures Split(s, d) == [s[..IndexOf(s, d)]] + Split(s[IndexOf(s, d) + 1..], d)
  {
  }

  lemma SplitWithout(s: string, d: char)
    requires d !in s
    ensures Split(s, d) == [s]
  {
  }

  /** The text of `s` before its first `d`, or all of `s` when there is none. */
  function UpTo(s: string, d: char): string {
    if d in s then s[..IndexOf(s, d)] else s
  }

  /** The first `d` of `p + [d] + x`, when `p` has none, ends `p`. */
  lemma UpToPrefix(p: string, d: char, x: string)
    requires d !in p
    ensures d in p + [d] + x
    ensures IndexOf(p + [d] + x, d) == |p|
    ensures UpTo(p + [d] + x, d) == p
  {
    var s := p + [d] + x;
    assert s[|p|] == d;
    assert forall k :: 0 <= k < |p| ==> s[k] == p[k];
    assert s[..|p|] == p;
  }

  lemma CharsOfConcat(a: string, b: string, c: char)
    ensures c in a + b <==> c in a || c in b
  {
  }

  /** Every piece of a join is part of the joined text. */
  lemma {:induction false} JoinKeepsChars(parts: seq<string>, d: char, i: nat)
    requires i < |parts|
    ensures forall c :: c in parts[i] ==> c in Join(parts, d)
  {
    if |parts| > 1 {
      var rest := Join(parts[1..], d);
      assert Join(parts, d) == parts[0] + ([d] + rest);
      if i > 0 {
        JoinKeepsChars(parts[1..], d, i - 1);
        assert parts[1..][i - 1] == parts[i];
        forall c | c in parts[i] ensures c in Join(parts, d) {
          assert c in rest;
          CharsOfConcat([d], rest, c);
          CharsOfConcat(parts[0], [d] + rest, c);
        }
      } else {
        forall c | c in parts[0] ensures c in Join(parts, d) {
          CharsOfConcat(parts[0], [d] + rest, c);
        }
      }
    }
  }

  /** The first piece of a split is the text before the first separator. */
  lemma SplitFirst(s: string, d: char)
    ensures Split(s, d)[0] == UpTo(s, d)
  {
  }

  /** Splitting a join of `d`-free pieces gives the pieces back. */
  lemma {:induction false} SplitJoin(parts: seq<string>, d: char)
    requires |parts| >= 1
    requires forall i :: 0 <= i < |parts| ==> d !in parts[i]
    ensures Split(Join(parts, d), d) == parts
    decreases |parts|
  {
    if |parts| == 1 {
    } else {
      var s := Join(parts, d);
      var rest := Join(parts[1..], d);
      assert s == parts[0] + [d] + rest;
      assert s[|parts[0]|] == d;
      assert d in s;
      assert forall k :: 0 <= k < |parts[0]| ==> s[k] == parts[0][k];
      var i := IndexOf(s, d);
      assert i == |parts[0]|;
      assert s[i + 1..] == rest;
      assert s[..i] == parts[0];
      SplitJoin(parts[1..], d);
      assert Split(s, d) == [s[..i]] + Split(rest, d);
      assert parts == [parts[0]] + parts[1..];
    }
  }

  /** The number of occurrences of `d` in `s`. */
  function Count(s: string, d: char): nat {
    if |s| == 0 then 0 else (if s[0] == d then 1 else 0) + Count(s[1..], d)
  }

  lemma {:induction false} CountAppend(a: string, b: string, d: char)
    ensures Count(a + b, d) == Count(a, d) + Count(b, d)
    decreases |a|
  {
    if |a| > 0 {
      assert (a + b)[1..] == a[1..] + b;
      CountAppend(a[1..], b, d);
    } else {
      assert a + b == b;
    }
  }

  lemma {:induction false} CountAbsent(s: string, d: char)
    requires d !in s
    ensures Count(s, d) == 0
    decreases |s|
  {
    if |s| > 0 {
      assert forall k :: 0 <= k < |s| - 1 ==> s[1..][k] == s[k + 1];
      CountAbsent(s[1..], d);
    }
  }

  /** `split` yields one more piece than there are separators. */
  lemma {:induction false} SplitCount(s: string, d: char)
    ensures |Split(s, d)| == Count(s, d) + 1
    decreases |s|
  {
    if d !in s {
      CountAbsent(s, d);
    } else {
      var i := IndexOf(s, d);
      assert s == s[..i] + ([d] + s[i + 1..]);
      CountAppend(s[..i], [d] + s[i + 1..], d);
      CountAbsent(s[..i], d);
      assert ([d] + s[i + 1..])[1..] == s[i + 1..];
      SplitCount(s[i + 1..], d);
    }
  }

  /** Kotlin's `removePrefix(p)`: drops `p` once if `s` starts with it. */
  function RemovePrefix(s: string, p: string): (r: string)
    ensures p <= s ==> p + r == s
    ensures !(p <= s) ==> r == s
  {
    if p <= s then s[|p|..] else s
  }

  /** Upper-casing one character (ASCII letters; see README for the rest). */
  function UpperChar(c: char): char {
    if 'a' <= c <= 'z' then (c as int - 32) as char else c
  }

  /** Kotlin's `String.uppercase()`, restricted to ASCII case mapping. */
  function Uppercase(s: string): (r: string)
    ensures |r| == |s|
    ensures forall i :: 0 <= i < |s| ==> r[i] == UpperChar(s[i])
  {
    seq(|s|, i requires 0 <= i < |s| => UpperChar(s[i]))
  }

  /** Upper-casing an upper-cased string changes nothing. */
  lemma UppercaseIdempotent(s: string)
    ensures Uppercase(Uppercase(s)) == Uppercase(s)
  {
    var u := Uppercase(s);
    assert forall i :: 0 <= i < |u| ==> UpperChar(u[i]) == u[i];
  }
}
