/**
 * The string operations the pages use: `toLowerCase`, `includes`, `split`, `join` and
 * `trim`, on strings as sequences of characters.
 */
module Strings {
  import opened Wrappers

  /** Lower-casing of one character, for the ASCII letters only. */
  function LowerChar(c: char): char {
    if 'A' <= c <= 'Z' then (c as int - 'A' as int + 'a' as int) as char else c
  }

  /** `s.toLowerCase()`, restricted to ASCII case mapping; it keeps the length. */
  function Lower(s: string): (r: string)
    ensures |r| == |s|
    ensures forall i :: 0 <= i < |s| ==> r[i] == LowerChar(s[i])
    ensures forall i :: 0 <= i < |r| ==> !('A' <= r[i] <= 'Z')
  {
    seq(|s|, i requires 0 <= i < |s| => LowerChar(s[i]))
  }

  /** Lower-casing twice is lower-casing once. */
  lemma LowerIdempotent(s: string)
    ensures Lower(Lower(s)) == Lower(s)
  {
  }

  /** `t` occurs in `s` starting at position `i`. */
  ghost predicate OccursAt(s: string, t: string, i: int) {
    0 <= i && i + |t| <= |s| && s[i..i + |t|] == t
  }

  predicate IsPrefix(t: string, s: string) {
    |t| <= |s| && s[..|t|] == t
  }

  /** `s.includes(t)`: some position of `s` starts an occurrence of `t`. */
  function Contains(s: string, t: string): (r: bool)
    ensures r <==> exists i :: OccursAt(s, t, i)
    decreases |s|
  {
    if IsPrefix(t, s) then
      assert OccursAt(s, t, 0);
      true
    else if |s| == 0 then
      assert forall i :: !OccursAt(s, t, i);
      false
    else
      var r := Contains(s[1..], t);
      assert r ==> exists i :: OccursAt(s, t, i) by {
        if r {
          var i :| OccursAt(s[1..], t, i);
          assert s[1..][i..i + |t|] == s[i + 1..i + 1 + |t|];
          assert OccursAt(s, t, i + 1);
        }
      }
      assert (exists i :: OccursAt(s, t, i)) ==> r by {
        if exists i :: OccursAt(s, t, i) {
          var i :| OccursAt(s, t, i);
          assert i != 0;
          assert s[1..][i - 1..i - 1 + |t|] == s[i..i + |t|];
          assert OccursAt(s[1..], t, i - 1);
        }
      }
      r
  }

  /** The empty string occurs in every string, lower-cased or not. */
  lemma ContainsEmpty(s: string)
    ensures Contains(s, "") && Contains(Lower(s), Lower(""))
  {
    assert OccursAt(s, "", 0);
    assert OccursAt(Lower(s), Lower(""), 0);
  }

  /** Number of occurrences of `c` in `s`. */
  function Occurrences(s: string, c: char): nat {
    if s == [] then 0 else (if s[0] == c then 1 else 0) + Occurrences(s[1..], c)
  }

  /** `s.split(sep)` for a one-character separator: the pieces between separators, empty ones kept. */
  function Split(s: string, sep: char): (parts: seq<string>)
    ensures |parts| >= 1
    decreases |s|
  {
    if s == [] then [[]]
    else if s[0] == sep then [[]] + Split(s[1..], sep)
    else
      var rest := Split(s[1..], sep);
      [[s[0]] + rest[0]] + rest[1..]
  }

  /** The total length of the pieces. */
  function Lengths(parts: seq<string>): nat {
    if parts == [] then 0 else |parts[0]| + Lengths(parts[1..])
  }

  /** `parts.join(sep)`: the pieces in order with one separator between each two of them. */
  function Join(parts: seq<string>, sep: string): (r: string)
    ensures parts == [] ==> r == []
  {
    if |parts| == 0 then []
    else if |parts| == 1 then parts[0]
    else parts[0] + sep + Join(parts[1..], sep)
  }

  /** A join is as long as its pieces together plus one separator between each two of them. */
  lemma {:induction false} JoinLength(parts: seq<string>, sep: string)
    requires |parts| >= 1
    ensures |Join(parts, sep)| == Lengths(parts) + (|parts| - 1) * |sep|
  {
    if |parts| > 1 {
      JoinLength(parts[1..], sep);
    }
  }

  /** Joining two non-empty lists one after the other puts one separator between their joins. */
  lemma {:induction false} JoinAppend(a: seq<string>, b: seq<string>, sep: string)
    requires |a| >= 1 && |b| >= 1
    ensures Join(a + b, sep) == Join(a, sep) + sep + Join(b, sep)
    decreases |a|
  {
    if |a| == 1 {
      JoinCons(a[0], b, sep);
      assert [a[0]] + b == a + b;
    } else {
      JoinAppend(a[1..], b, sep);
      assert (a + b)[1..] == a[1..] + b;
      assert (a + b)[0] == a[0];
      ConcatAssoc(a[0] + sep, Join(a[1..], sep) + sep, Join(b, sep));
    }
  }

  /** A text without the separator is one piece. */
  lemma SplitOfFree(s: string, sep: char)
    requires FreeOf(s, sep)
    ensures Split(s, sep) == [s]
  {
    SplitFreePrefix(s, [], sep);
    assert s + [] == s;
  }

  /** Every character of a piece of a split is a character of the text. */
  lemma {:induction false} SplitPiecesFrom(s: string, sep: char)
    ensures forall i, j :: 0 <= i < |Split(s, sep)| && 0 <= j < |Split(s, sep)[i]| ==> Split(s, sep)[i][j] in s
    decreases |s|
  {
    if s != [] {
      SplitPiecesFrom(s[1..], sep);
      assert forall c :: c in s[1..] ==> c in s;
    }
  }

  /** Joining a non-empty list behind a first piece puts one separator between them. */
  lemma JoinCons(first: string, rest: seq<string>, sep: string)
    requires |rest| >= 1
    ensures Join([first] + rest, sep) == first + sep + Join(rest, sep)
  {
    assert ([first] + rest)[1..] == rest;
  }

  lemma JoinTwo(a: string, b: string, sep: string)
    ensures Join([a, b], sep) == a + sep + b
  {
    assert [a, b][1..] == [b];
  }

  lemma JoinThree(a: string, b: string, c: string, sep: string)
    ensures Join([a, b, c], sep) == a + sep + b + sep + c
  {
    assert [a, b, c][1..] == [b, c];
    JoinTwo(b, c, sep);
  }

  /** A string splits into one more piece than it has separators. */
  lemma {:induction false} SplitCount(s: string, sep: char)
    ensures |Split(s, sep)| == Occurrences(s, sep) + 1
    decreases |s|
  {
    if s != [] {
      SplitCount(s[1..], sep);
    }
  }

  /** No piece of a split contains the separator. */
  lemma {:induction false} SplitPiecesAreFree(s: string, sep: char)
    ensures forall i, j :: 0 <= i < |Split(s, sep)| && 0 <= j < |Split(s, sep)[i]| ==> Split(s, sep)[i][j] != sep
    decreases |s|
  {
    if s != [] {
      SplitPiecesAreFree(s[1..], sep);
    }
  }

  /** Joining the pieces with the separator gives back the string. */
  lemma {:induction false} SplitJoin(s: string, sep: char)
    ensures Join(Split(s, sep), [sep]) == s
    decreases |s|
  {
    if s != [] {
      var rest := Split(s[1..], sep);
      SplitJoin(s[1..], sep);
      if s[0] == sep {
        assert Split(s, sep) == [[]] + rest;
        assert ([[]] + rest)[1..] == rest;
      } else {
        var parts := Split(s, sep);
        assert parts == [[s[0]] + rest[0]] + rest[1..];
        if |rest| == 1 {
          assert s == [s[0]] + s[1..];
        } else {
          assert parts[1..] == rest[1..];
          assert Join(rest, [sep]) == rest[0] + [sep] + Join(rest[1..], [sep]);
          assert s == [s[0]] + s[1..];
        }
      }
    }
  }

  /** `sep` does not occur in `s`. */
  predicate FreeOf(s: string, sep: char) {
    forall j :: 0 <= j < |s| ==> s[j] != sep
  }

  lemma ConcatAssoc(a: string, b: string, c: string)
    ensures a + b + c == a + (b + c)
  {
  }

  /** Splitting a text that starts with a character other than the separator. */
  lemma SplitCons(c: char, rest: string, sep: char)
    requires c != sep
    ensures Split([c] + rest, sep) == [[c] + Split(rest, sep)[0]] + Split(rest, sep)[1..]
  {
    assert ([c] + rest)[0] == c && ([c] + rest)[1..] == rest;
  }

  /** A separator-free start stays in one piece with whatever the split of the rest begins with. */
  lemma {:induction false} SplitFreePrefix(a: string, t: string, sep: char)
    requires FreeOf(a, sep)
    ensures Split(a + t, sep) == [a + Split(t, sep)[0]] + Split(t, sep)[1..]
    decreases |a|
  {
    var rest := Split(t, sep);
    if a == [] {
      assert a + t == t;
      assert a + rest[0] == rest[0];
      assert [rest[0]] + rest[1..] == rest;
    } else {
      assert FreeOf(a[1..], sep);
      SplitFreePrefix(a[1..], t, sep);
      assert a == [a[0]] + a[1..];
      ConcatAssoc([a[0]], a[1..], t);
      SplitCons(a[0], a[1..] + t, sep);
      ConcatAssoc([a[0]], a[1..], rest[0]);
    }
  }

  /** Splitting separator-free pieces joined by the separator gives the pieces back. */
  lemma {:induction false} JoinSplit(parts: seq<string>, sep: char)
    requires |parts| >= 1
    requires forall i :: 0 <= i < |parts| ==> FreeOf(parts[i], sep)
    ensures Split(Join(parts, [sep]), sep) == parts
    decreases |parts|
  {
    if |parts| == 1 {
      SplitFreePrefix(parts[0], [], sep);
      assert parts[0] + [] == parts[0];
    } else {
      var rest := Join(parts[1..], [sep]);
      assert Join(parts, [sep]) == parts[0] + ([sep] + rest);
      SplitFreePrefix(parts[0], [sep] + rest, sep);
      assert ([sep] + rest)[1..] == rest;
      assert Split([sep] + rest, sep) == [[]] + Split(rest, sep);
      JoinSplit(parts[1..], sep);
      assert parts[0] + [] == parts[0];
      assert [parts[0]] + parts[1..] == parts;
    }
  }

  /**
   * The characters `String.prototype.trim` removes: ECMAScript's WhiteSpace (tab, vertical tab,
   * form feed, the byte order mark and the Unicode space separators) and LineTerminator.
   */
  predicate IsWhitespace(c: char) {
    || '\t' <= c <= '\r'
    || c == ' ' || c == '\U{00A0}' || c == '\U{1680}'
    || '\U{2000}' <= c <= '\U{200A}'
    || c == '\U{2028}' || c == '\U{2029}' || c == '\U{202F}' || c == '\U{205F}'
    || c == '\U{3000}' || c == '\U{FEFF}'
  }

  /** Every character of `s` is whitespace. */
  predicate AllWhitespace(s: string) {
    forall i :: 0 <= i < |s| ==> IsWhitespace(s[i])
  }

  /** Length of the whitespace run at the start of `s`. */
  function LeadingWhitespace(s: string): (n: nat)
    ensures n <= |s|
    ensures forall i :: 0 <= i < n ==> IsWhitespace(s[i])
    ensures n < |s| ==> !IsWhitespace(s[n])
  {
    if s == [] || !IsWhitespace(s[0]) then 0 else 1 + LeadingWhitespace(s[1..])
  }

  /** Length of the whitespace run at the end of `s`. */
  function TrailingWhitespace(s: string): (n: nat)
    ensures n <= |s|
    ensures forall i :: |s| - n <= i < |s| ==> IsWhitespace(s[i])
    ensures n < |s| ==> !IsWhitespace(s[|s| - 1 - n])
  {
    if s == [] || !IsWhitespace(s[|s| - 1]) then 0 else 1 + TrailingWhitespace(s[..|s| - 1])
  }

  /**
   * `s.trim()`: the piece of `s` left after dropping the whitespace at both ends. It starts where
   * the leading run ends, everything after it is whitespace, and it neither starts nor ends with
   * whitespace.
   */
  function Trim(s: string): (r: string)
    ensures var lo := LeadingWhitespace(s);
      && lo + |r| <= |s| && r == s[lo..lo + |r|]
      && (forall i :: lo + |r| <= i < |s| ==> IsWhitespace(s[i]))
    ensures r == [] || (!IsWhitespace(r[0]) && !IsWhitespace(r[|r| - 1]))
  {
    var lo := LeadingWhitespace(s);
    var rest := s[lo..];
    var n := TrailingWhitespace(rest);
    var r := rest[..|rest| - n];
    TrimmedPiece(s, lo, n);
    r
  }

  /** The piece between a leading run of length `lo` and a trailing run of length `n` of `s[lo..]`. */
  lemma TrimmedPiece(s: string, lo: nat, n: nat)
    requires lo == LeadingWhitespace(s) && n == TrailingWhitespace(s[lo..])
    ensures var r := s[lo..][..|s| - lo - n];
      && lo + |r| <= |s| && r == s[lo..lo + |r|]
      && (forall i :: lo + |r| <= i < |s| ==> IsWhitespace(s[i]))
      && (r == [] || (!IsWhitespace(r[0]) && !IsWhitespace(r[|r| - 1])))
  {
    TrimmedTail(s, lo, n);
    TrimmedEnds(s, lo, n);
  }

  lemma TrimmedTail(s: string, lo: nat, n: nat)
    requires lo <= |s| && n <= |s| - lo
    requires forall i :: |s| - lo - n <= i < |s| - lo ==> IsWhitespace(s[lo..][i])
    ensures forall i :: |s| - n <= i < |s| ==> IsWhitespace(s[i])
  {
    forall i | |s| - n <= i < |s|
      ensures IsWhitespace(s[i])
    {
      assert s[i] == s[lo..][i - lo];
    }
  }

  lemma TrimmedEnds(s: string, lo: nat, n: nat)
    requires lo == LeadingWhitespace(s) && n == TrailingWhitespace(s[lo..])
    ensures var r := s[lo..][..|s| - lo - n];
      r == [] || (!IsWhitespace(r[0]) && !IsWhitespace(r[|r| - 1]))
  {
    var rest := s[lo..];
    var r := rest[..|rest| - n];
    if r != [] {
      assert r[0] == s[lo];
      assert r[|r| - 1] == rest[|rest| - 1 - n];
    }
  }

  /** A string that neither starts nor ends with whitespace is its own trim. */
  lemma TrimOfTrimmed(s: string)
    requires s == [] || (!IsWhitespace(s[0]) && !IsWhitespace(s[|s| - 1]))
    ensures Trim(s) == s
  {
    var r := Trim(s);
    if s != [] {
      assert LeadingWhitespace(s) == 0;
      assert |r| == |s|;
    }
  }

  /** `text || undefined`: the empty text is absent, any other text is kept as it is. */
  function OptionalText(text: string): (r: Option<string>)
    ensures r.None? <==> text == []
    ensures r.GetOr([]) == text
  {
    if text == [] then None else Some(text)
  }

  /** Trimming a piece padded with whitespace on both sides gives the piece back. */
  lemma TrimPadded(pre: string, p: string, post: string)
    requires AllWhitespace(pre) && AllWhitespace(post)
    requires p == [] || (!IsWhitespace(p[0]) && !IsWhitespace(p[|p| - 1]))
    ensures Trim(pre + p + post) == p
  {
    var s := pre + p + post;
    var lo, r := LeadingWhitespace(s), Trim(s);
    assert forall i :: 0 <= i < |pre| ==> s[i] == pre[i];
    assert forall i :: 0 <= i < |p| ==> s[|pre| + i] == p[i];
    assert forall i :: |pre| + |p| <= i < |s| ==> s[i] == post[i - |pre| - |p|];
    if p == [] {
      assert forall i :: 0 <= i < |s| ==> IsWhitespace(s[i]);
      assert lo == |s|;
    } else {
      assert !IsWhitespace(s[|pre|]) && !IsWhitespace(s[|pre| + |p| - 1]);
      assert lo == |pre|;
      assert |r| == |p|;
      assert r == s[|pre|..|pre| + |p|];
    }
  }
}
