/** The JavaScript string operations the original code relies on, over
    `string` (a sequence of Unicode scalar values): `split`, `join`,
    `includes`, `startsWith`, `toLowerCase` and a total order standing in
    for `localeCompare`. */
module Strings {

  /** `s.split(sep)` for a one-character separator: never empty, and an
      empty string splits into `[""]`. */
  function Split(s: string, sep: char): (r: seq<string>)
    ensures |r| >= 1
    ensures forall i :: 0 <= i < |r| ==> sep !in r[i]
  {
    if |s| == 0 then [""]
    else
      var rest := Split(s[1..], sep);
      if s[0] == sep then [""] + rest
      else [[s[0]] + rest[0]] + rest[1..]
  }

  /** `parts.join(sep)`. */
  function Join(parts: seq<string>, sep: char): string {
    if |parts| == 0 then ""
    else if |parts| == 1 then parts[0]
    else parts[0] + [sep] + Join(parts[1..], sep)
  }

  /** Joining the pieces of a split restores the original string. */
  lemma {:induction false} JoinSplit(s: string, sep: char)
    ensures Join(Split(s, sep), sep) == s
  {
    if |s| > 0 {
      var rest := Split(s[1..], sep);
      JoinSplit(s[1..], sep);
      if s[0] == sep {
        assert Split(s, sep) == [""] + rest;
        assert Join([""] + rest, sep) == "" + [sep] + Join(rest, sep);
        assert [s[0]] + s[1..] == s;
      } else {
        var parts := Split(s, sep);
        assert parts == [[s[0]] + rest[0]] + rest[1..];
        if |rest| == 1 {
          assert Join(parts, sep) == [s[0]] + rest[0];
        } else {
          assert parts[1..] == rest[1..];
          assert Join(parts, sep) == [s[0]] + rest[0] + [sep] + Join(rest[1..], sep);
          assert Join(rest, sep) == rest[0] + [sep] + Join(rest[1..], sep);
        }
        assert [s[0]] + s[1..] == s;
      }
    }
  }

  /** A string without the separator splits into itself alone. */
  lemma {:induction false} SplitNoSeparator(p: string, sep: char)
    ensures sep !in p ==> Split(p, sep) == [p]
  {
    if |p| > 0 && sep !in p {
      SplitNoSeparator(p[1..], sep);
      assert [p[0]] + p[1..] == p;
    }
  }

  /** Splitting distributes over a separator placed between two strings. */
  lemma {:induction false} SplitAround(a: string, b: string, sep: char)
    ensures Split(a + [sep] + b, sep) == Split(a, sep) + Split(b, sep)
  {
    var s := a + [sep] + b;
    if |a| == 0 {
      assert s[1..] == b;
    } else {
      var tail := a[1..] + [sep] + b;
      assert s[1..] == tail;
      assert s[0] == a[0];
      SplitAround(a[1..], b, sep);
      var x := Split(tail, sep);
      var y := Split(a[1..], sep);
      assert x == y + Split(b, sep);
      if a[0] == sep {
        assert Split(s, sep) == [""] + x;
        assert Split(a, sep) == [""] + y;
      } else {
        assert Split(s, sep) == [[a[0]] + x[0]] + x[1..];
        assert Split(a, sep) == [[a[0]] + y[0]] + y[1..];
        assert x[0] == y[0];
        assert x[1..] == y[1..] + Split(b, sep);
      }
    }
  }

  /** Splitting a join of separator-free pieces gives the pieces back. */
  lemma {:induction false} SplitJoin(parts: seq<string>, sep: char)
    requires |parts| >= 1
    requires forall i :: 0 <= i < |parts| ==> sep !in parts[i]
    ensures Split(Join(parts, sep), sep) == parts
  {
    if |parts| == 1 {
      SplitNoSeparator(parts[0], sep);
    } else {
      SplitJoin(parts[1..], sep);
      SplitNoSeparator(parts[0], sep);
      SplitAround(parts[0], Join(parts[1..], sep), sep);
      assert [parts[0]] + parts[1..] == parts;
    }
  }

  /** The last piece of a split is the text after the last separator: a
      suffix of the string, preceded by the separator unless it is the
      whole string. */
  lemma {:induction false} SplitLastIsTail(s: string, sep: char)
    ensures var r := Split(s, sep); var l := r[|r| - 1];
      && |l| <= |s| && s[|s| - |l|..] == l
      && (|l| < |s| ==> s[|s| - |l| - 1] == sep)
      && (|l| == |s| ==> |r| == 1)
      && (|r| == 1 ==> l == s)
  {
    if |s| > 0 {
      SplitLastIsTail(s[1..], sep);
      var rest := Split(s[1..], sep);
      var r := Split(s, sep);
      if s[0] == sep {
        assert r == [""] + rest;
      } else {
        assert r == [[s[0]] + rest[0]] + rest[1..];
        if |rest| == 1 {
          assert r[|r| - 1] == [s[0]] + s[1..];
          assert [s[0]] + s[1..] == s;
        } else {
          assert r[|r| - 1] == rest[|rest| - 1];
        }
      }
    }
  }

  /** The substring `sub` occurs in `s` starting at index `i`. */
  predicate OccursAt(s: string, sub: string, i: nat) {
    i + |sub| <= |s| && s[i..i + |sub|] == sub
  }

  /** `s.includes(sub)`. */
  function Includes(s: string, sub: string): (r: bool)
    ensures r <==> exists i: nat :: i <= |s| && OccursAt(s, sub, i)
  {
    if |sub| > |s| then false
    else if s[..|sub|] == sub then (assert OccursAt(s, sub, 0); true)
    else
      OccursShift(s, sub);
      Includes(s[1..], sub)
  }

  /** Occurrences past the first position are the occurrences in the tail. */
  lemma OccursShift(s: string, sub: string)
    requires |s| > 0
    requires !OccursAt(s, sub, 0)
    ensures (exists i: nat :: i <= |s| && OccursAt(s, sub, i))
        <==> (exists j: nat :: j <= |s[1..]| && OccursAt(s[1..], sub, j))
  {
    forall i: nat | 1 <= i <= |s| && OccursAt(s, sub, i)
      ensures OccursAt(s[1..], sub, i - 1)
    {
      assert s[1..][i - 1..i - 1 + |sub|] == s[i..i + |sub|];
    }
    forall j: nat | j <= |s[1..]| && OccursAt(s[1..], sub, j)
      ensures OccursAt(s, sub, j + 1)
    {
      assert s[1..][j..j + |sub|] == s[j + 1..j + 1 + |sub|];
    }
  }

  /** `s.startsWith(prefix)`. */
  predicate StartsWith(s: string, prefix: string) {
    |prefix| <= |s| && s[..|prefix|] == prefix
  }

  /** Lower-casing of one character; only the ASCII letters are mapped. */
  function LowerChar(c: char): char {
    if 'A' <= c <= 'Z' then (c as int + 32) as char else c
  }

  /** `s.toLowerCase()`, restricted to ASCII letters. */
  function ToLower(s: string): (r: string)
    ensures |r| == |s|
    ensures forall i :: 0 <= i < |s| ==> r[i] == LowerChar(s[i])
  {
    seq(|s|, i requires 0 <= i < |s| => LowerChar(s[i]))
  }

  /** Lower-casing twice is lower-casing once. */
  lemma ToLowerIdempotent(s: string)
    ensures ToLower(ToLower(s)) == ToLower(s)
  {
  }

  /** Lower-casing commutes with splitting on a separator that is not a
      letter. */
  lemma {:induction false} ToLowerSplit(s: string, sep: char)
    requires !('A' <= sep <= 'Z') && !('a' <= sep <= 'z')
    ensures var p := Split(s, sep); var q := Split(ToLower(s), sep);
      |p| == |q| && forall i :: 0 <= i < |p| ==> q[i] == ToLower(p[i])
  {
    if |s| > 0 {
      ToLowerSplit(s[1..], sep);
      assert ToLower(s)[1..] == ToLower(s[1..]);
      assert ToLower(s)[0] == LowerChar(s[0]);
      assert LowerChar(s[0]) == sep <==> s[0] == sep;
      var rest := Split(s[1..], sep);
      if s[0] != sep {
        assert ToLower([s[0]] + rest[0]) == [LowerChar(s[0])] + ToLower(rest[0]);
      }
    }
  }

  /** Lexicographic order on characters (code points), standing in for `localeCompare`:
      `LexLe(a, b)` when `a` sorts before `b` or equals it. */
  predicate LexLe(a: string, b: string) {
    if |a| == 0 then true
    else if |b| == 0 then false
    else if a[0] < b[0] then true
    else if b[0] < a[0] then false
    else LexLe(a[1..], b[1..])
  }

  /** Any two strings are comparable. */
  lemma {:induction false} LexLeTotal(a: string, b: string)
    ensures LexLe(a, b) || LexLe(b, a)
  {
    if |a| > 0 && |b| > 0 && a[0] == b[0] {
      LexLeTotal(a[1..], b[1..]);
    }
  }

  /** The order is transitive. */
  lemma {:induction false} LexLeTransitive(a: string, b: string, c: string)
    requires LexLe(a, b) && LexLe(b, c)
    ensures LexLe(a, c)
  {
    if |a| > 0 && |b| > 0 && |c| > 0 && a[0] == b[0] && b[0] == c[0] {
      LexLeTransitive(a[1..], b[1..], c[1..]);
    }
  }

  /** The order is antisymmetric, so it is a total order on strings. */
  lemma {:induction false} LexLeAntisymmetric(a: string, b: string)
    requires LexLe(a, b) && LexLe(b, a)
    ensures a == b
  {
    if |a| > 0 && |b| > 0 {
      LexLeAntisymmetric(a[1..], b[1..]);
      assert a == [a[0]] + a[1..];
      assert b == [b[0]] + b[1..];
    }
  }
}
