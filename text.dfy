/**
  The ordinal string operations of .NET that the converter relies on:
  `String.Split(char[], StringSplitOptions.None)` with one separator,
  `String.Contains(string)` and `String.Replace(string, string)`.
  Strings are `seq<char>`, sequences of Unicode scalar values. The
  separator ',', the token "POWER ON" and the patterns "-" and ".output"
  are ASCII, so these operations agree with .NET's code-unit versions;
  lone surrogates and UTF-16 lengths are not represented.
 */
module Text {

  /** Number of occurrences of the character `c` in `s`. */
  function CountChar(s: string, c: char): nat
  {
    if s == [] then 0 else (if s[0] == c then 1 else 0) + CountChar(s[1..], c)
  }

  /**
    The pieces of `s` between separators, keeping empty pieces
    (`StringSplitOptions.None`): always one more piece than separators,
    and no piece contains the separator.
   */
  function Split(s: string, sep: char): (r: seq<string>)
    ensures |r| == CountChar(s, sep) + 1
    ensures forall i :: 0 <= i < |r| ==> sep !in r[i]
  {
    if s == [] then [[]]
    else
      var rest := Split(s[1..], sep);
      if s[0] == sep then [[]] + rest
      else [[s[0]] + rest[0]] + rest[1..]
  }

  /** The pieces glued back together with the separator between them. */
  function Join(parts: seq<string>, sep: char): string
    requires |parts| > 0
  {
    if |parts| == 1 then parts[0] else parts[0] + [sep] + Join(parts[1..], sep)
  }

  /** Joining the pieces of a split gives back the original line. */
  lemma {:induction false} JoinSplit(s: string, sep: char)
    ensures Join(Split(s, sep), sep) == s
  {
    if s != [] {
      var rest := Split(s[1..], sep);
      JoinSplit(s[1..], sep);
      if s[0] == sep {
        assert Split(s, sep) == [[]] + rest;
        assert ([[]] + rest)[1..] == rest;
      } else {
        var r := [[s[0]] + rest[0]] + rest[1..];
        assert Split(s, sep) == r;
        if |rest| == 1 {
          assert Join(r, sep) == [s[0]] + rest[0];
        } else {
          assert r[1..] == rest[1..];
          assert Join(rest, sep) == rest[0] + [sep] + Join(rest[1..], sep);
        }
      }
    }
  }

  /** A piece without the separator splits to itself. */
  lemma {:induction false} SplitPiece(p: string, sep: char)
    requires sep !in p
    ensures Split(p, sep) == [p]
  {
    if p != [] {
      SplitPiece(p[1..], sep);
      assert [p[0]] + p[1..] == p;
    }
  }

  /** A piece followed by the separator contributes exactly one leading part. */
  lemma {:induction false} SplitPieceThen(p: string, sep: char, rest: string)
    requires sep !in p
    ensures Split(p + [sep] + rest, sep) == [p] + Split(rest, sep)
  {
    if p == [] {
      assert p + [sep] + rest == [sep] + rest;
      assert ([sep] + rest)[1..] == rest;
    } else {
      assert (p + [sep] + rest)[1..] == p[1..] + [sep] + rest;
      SplitPieceThen(p[1..], sep, rest);
      assert [p[0]] + p[1..] == p;
      assert (p + [sep] + rest)[0] == p[0];
    }
  }

  /** Splitting a join of separator-free pieces gives back the pieces. */
  lemma {:induction false} SplitJoin(parts: seq<string>, sep: char)
    requires |parts| > 0
    requires forall i :: 0 <= i < |parts| ==> sep !in parts[i]
    ensures Split(Join(parts, sep), sep) == parts
  {
    if |parts| == 1 {
      SplitPiece(parts[0], sep);
    } else {
      SplitJoin(parts[1..], sep);
      SplitPieceThen(parts[0], sep, Join(parts[1..], sep));
      assert [parts[0]] + parts[1..] == parts;
    }
  }

  /** `s` begins with `prefix`. */
  predicate StartsWith(s: string, prefix: string)
  {
    |prefix| <= |s| && s[..|prefix|] == prefix
  }

  /** `t` occurs in `s` starting at position `i`. */
  predicate OccursAt(s: string, t: string, i: int)
  {
    0 <= i && i + |t| <= |s| && s[i..i + |t|] == t
  }

  /** Ordinal substring test, scanning left to right. */
  function Contains(s: string, t: string): bool
  {
    if StartsWith(s, t) then true
    else if s == [] then false
    else Contains(s[1..], t)
  }

  /** The scan finds `t` exactly when `t` occurs somewhere in `s`. */
  lemma {:induction false} ContainsIff(s: string, t: string)
    ensures Contains(s, t) <==> exists i :: OccursAt(s, t, i)
  {
    if StartsWith(s, t) {
      assert OccursAt(s, t, 0);
    } else if s == [] {
    } else {
      ContainsIff(s[1..], t);
      if exists i :: OccursAt(s[1..], t, i) {
        var i :| OccursAt(s[1..], t, i);
        assert s[1..][i..i + |t|] == s[i + 1..i + 1 + |t|];
        assert OccursAt(s, t, i + 1);
      }
      if exists i :: OccursAt(s, t, i) {
        var i :| OccursAt(s, t, i);
        assert s[1..][i - 1..i - 1 + |t|] == s[i..i + |t|];
        assert OccursAt(s[1..], t, i - 1);
      }
    }
  }

  /** A string shorter than `t` cannot contain it. */
  lemma {:induction false} ShorterNotContains(s: string, t: string)
    requires |s| < |t|
    ensures !Contains(s, t)
  {
    if s != [] {
      ShorterNotContains(s[1..], t);
    }
  }

  /**
    If no character of `b` occurs in the non-empty `t`, then `t` occurs in
    `a + b` only if it occurs in `a`.
   */
  lemma {:induction false} ContainsAppendForeign(a: string, b: string, t: string)
    requires |t| > 0
    requires forall k :: 0 <= k < |b| ==> b[k] !in t
    requires !Contains(a, t)
    ensures !Contains(a + b, t)
  {
    if a == [] {
      assert a + b == b;
      ForeignNotContains(b, t);
    } else {
      if |t| <= |a| {
        assert (a + b)[..|t|] == a[..|t|];
      } else if |t| <= |a + b| {
        assert (a + b)[..|t|][|a|] == b[0];
      }
      assert (a + b)[1..] == a[1..] + b;
      ContainsAppendForeign(a[1..], b, t);
    }
  }

  /** A string none of whose characters occurs in the non-empty `t` does not contain `t`. */
  lemma {:induction false} ForeignNotContains(b: string, t: string)
    requires |t| > 0
    requires forall k :: 0 <= k < |b| ==> b[k] !in t
    ensures !Contains(b, t)
  {
    if b != [] {
      assert b[0] !in t;
      assert |t| <= |b| ==> b[..|t|][0] == b[0];
      ForeignNotContains(b[1..], t);
    }
  }

  /**
    Ordinal `String.Replace(pattern, replacement)`: every non-overlapping
    occurrence of `pattern`, found left to right, is replaced. .NET's
    `String.Replace` throws `ArgumentException` for an empty pattern (the
    converter's own patterns "-" and ".output" are not empty), hence the
    precondition.
   */
  function Replace(s: string, pattern: string, replacement: string): string
    requires |pattern| > 0
    decreases |s|
  {
    if |s| < |pattern| then s
    else if s[..|pattern|] == pattern then replacement + Replace(s[|pattern|..], pattern, replacement)
    else [s[0]] + Replace(s[1..], pattern, replacement)
  }

  /** A string without an occurrence of the pattern is left as it is. */
  lemma {:induction false} ReplaceAbsent(s: string, pattern: string, replacement: string)
    requires |pattern| > 0
    requires !Contains(s, pattern)
    ensures Replace(s, pattern, replacement) == s
    decreases |s|
  {
    if |s| >= |pattern| {
      assert !StartsWith(s, pattern);
      ReplaceAbsent(s[1..], pattern, replacement);
    }
  }

  /** Replacing a one-character pattern works piecewise on a concatenation. */
  lemma {:induction false} ReplaceCharConcat(a: string, b: string, pattern: string, replacement: string)
    requires |pattern| == 1
    ensures Replace(a + b, pattern, replacement)
         == Replace(a, pattern, replacement) + Replace(b, pattern, replacement)
    decreases |a|
  {
    if a == [] {
      assert a + b == b;
    } else {
      assert (a + b)[..1] == a[..1];
      assert (a + b)[1..] == a[1..] + b;
      ReplaceCharConcat(a[1..], b, pattern, replacement);
    }
  }
}
