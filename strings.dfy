/** The few Python string operations the two core files rely on: case mapping,
    character removal (`str.replace(c, "")`), `str.split` / `str.join` on one
    separator character, substring search, the "letter followed by a digit
    1-9" regular expressions, and Python's ordering of strings. Case mapping
    covers ASCII letters only. */
module Strings {

  // ---------------------------------------------------------------------------
  // Case mapping
  // ---------------------------------------------------------------------------

  function LowerChar(ch: char): char {
    if 'A' <= ch <= 'Z' then (ch as int - 'A' as int + 'a' as int) as char else ch
  }

  function UpperChar(ch: char): char {
    if 'a' <= ch <= 'z' then (ch as int - 'a' as int + 'A' as int) as char else ch
  }

  /** `s.lower()` */
  function Lower(s: string): (r: string)
    ensures |r| == |s|
  {
    seq(|s|, i requires 0 <= i < |s| => LowerChar(s[i]))
  }

  /** `s.upper()` */
  function Upper(s: string): (r: string)
    ensures |r| == |s|
  {
    seq(|s|, i requires 0 <= i < |s| => UpperChar(s[i]))
  }

  // ---------------------------------------------------------------------------
  // Removing every occurrence of one character: `s.replace(c, "")`
  // ---------------------------------------------------------------------------

  function Without(s: string, c: char): (r: string)
    ensures c !in r
    ensures |r| <= |s|
    ensures forall x :: x in r <==> x in s && x != c
    ensures c !in s ==> r == s
    decreases |s|
  {
    if s == [] then []
    else if s[0] == c then Without(s[1..], c)
    else [s[0]] + Without(s[1..], c)
  }

  /** Removing a character from a concatenation removes it from each part. */
  lemma {:induction false} WithoutConcat(a: string, b: string, c: char)
    ensures Without(a + b, c) == Without(a, c) + Without(b, c)
    decreases |a|
  {
    if a == [] {
      assert a + b == b;
    } else {
      WithoutConcat(a[1..], b, c);
      assert (a + b)[0] == a[0] && (a + b)[1..] == a[1..] + b;
      if a[0] != c {
        assert Without(a + b, c) == [a[0]] + Without(a[1..] + b, c);
        assert Without(a, c) == [a[0]] + Without(a[1..], c);
      }
    }
  }

  /** On one character, the character is dropped when it is `c` and kept
      otherwise; with `WithoutConcat` this pins the result down: the other
      characters are kept, each as often as it occurs, in their order. */
  lemma WithoutSingle(x: char, c: char)
    ensures Without([x], c) == if x == c then [] else [x]
  {
  }

  // ---------------------------------------------------------------------------
  // Splitting on one separator character and joining back: `s.split(c)`,
  // `c.join(parts)`
  // ---------------------------------------------------------------------------

  /** Python's `s.split(c)`: always at least one part, one more part than
      there are separators, and no part contains the separator. */
  function Split(s: string, c: char): (parts: seq<string>)
    ensures |parts| >= 1
    ensures |parts| == 1 <==> c !in s
    decreases |s|
  {
    if s == [] then [""]
    else
      var rest := Split(s[1..], c);
      if s[0] == c then [""] + rest
      else [[s[0]] + rest[0]] + rest[1..]
  }

  /** No part of a split contains the separator. */
  lemma {:induction false} SplitPartsOmitSeparator(s: string, c: char)
    ensures forall k | 0 <= k < |Split(s, c)| :: c !in Split(s, c)[k]
    decreases |s|
  {
    if s != [] {
      SplitPartsOmitSeparator(s[1..], c);
      var rest := Split(s[1..], c);
      if s[0] != c {
        assert Split(s, c)[0] == [s[0]] + rest[0];
        assert forall k | 1 <= k < |Split(s, c)| :: Split(s, c)[k] == rest[k];
      }
    }
  }

  /** Python's `c.join(parts)` for a non-empty list. */
  function Join(parts: seq<string>, c: char): string
    requires |parts| >= 1
    decreases |parts|
  {
    if |parts| == 1 then parts[0] else parts[0] + [c] + Join(parts[1..], c)
  }

  /** Prefixing the first part prefixes the joined string. */
  lemma JoinPrefixFirst(ch: char, parts: seq<string>, c: char)
    requires |parts| >= 1
    ensures Join([[ch] + parts[0]] + parts[1..], c) == [ch] + Join(parts, c)
  {
    var parts' := [[ch] + parts[0]] + parts[1..];
    assert parts'[0] == [ch] + parts[0] && parts'[1..] == parts[1..];
    if |parts| > 1 {
      calc {
        Join(parts', c);
        parts'[0] + [c] + Join(parts'[1..], c);
        ([ch] + parts[0]) + [c] + Join(parts[1..], c);
        [ch] + (parts[0] + [c] + Join(parts[1..], c));
      }
    }
  }

  /** Joining the parts of a split gives back the string. */
  lemma {:induction false} JoinSplit(s: string, c: char)
    ensures Join(Split(s, c), c) == s
    decreases |s|
  {
    if s != [] {
      var rest := Split(s[1..], c);
      JoinSplit(s[1..], c);
      assert s == [s[0]] + s[1..];
      if s[0] == c {
        assert Split(s, c) == [""] + rest;
        assert ([""] + rest)[1..] == rest;
      } else {
        assert Split(s, c) == [[s[0]] + rest[0]] + rest[1..];
        JoinPrefixFirst(s[0], rest, c);
      }
    }
  }

  /** A string without the separator splits into itself alone. */
  lemma {:induction false} SplitWithoutSeparator(a: string, c: char)
    requires c !in a
    ensures Split(a, c) == [a]
    decreases |a|
  {
    if a != [] {
      SplitWithoutSeparator(a[1..], c);
      assert [a[0]] + a[1..] == a;
    }
  }

  /** A part free of the separator, followed by the separator, splits off
      as the first part. */
  lemma {:induction false} SplitPartThenSeparator(a: string, b: string, c: char)
    requires c !in a
    ensures Split(a + [c] + b, c) == [a] + Split(b, c)
    decreases |a|
  {
    var s := a + [c] + b;
    if a == [] {
      assert s[0] == c && s[1..] == b;
    } else {
      assert s[0] == a[0] && s[1..] == a[1..] + [c] + b;
      SplitPartThenSeparator(a[1..], b, c);
      assert [a[0]] + a[1..] == a;
    }
  }

  /** Splitting undoes joining parts that do not contain the separator. */
  lemma {:induction false} SplitJoin(parts: seq<string>, c: char)
    requires |parts| >= 1
    requires forall k | 0 <= k < |parts| :: c !in parts[k]
    ensures Split(Join(parts, c), c) == parts
    decreases |parts|
  {
    if |parts| == 1 {
      SplitWithoutSeparator(parts[0], c);
    } else {
      SplitJoin(parts[1..], c);
      SplitPartThenSeparator(parts[0], Join(parts[1..], c), c);
      assert parts == [parts[0]] + parts[1..];
    }
  }

  /** Index of the first occurrence of `c` in `s`. */
  function IndexOf(s: string, c: char): (i: nat)
    requires c in s
    ensures i < |s| && s[i] == c && c !in s[..i]
    decreases |s|
  {
    if s[0] == c then 0
    else
      var j := IndexOf(s[1..], c);
      assert s[..j + 1] == [s[0]] + s[1..][..j];
      j + 1
  }

  /** When the separator occurs, the first part of a split is the text before
      its first occurrence, and the remaining parts joined back with the
      separator are exactly the text after that occurrence. */
  lemma {:induction false} SplitAtFirst(s: string, c: char)
    requires c in s
    ensures |Split(s, c)| >= 2
    ensures Split(s, c)[0] == s[..IndexOf(s, c)]
    ensures Join(Split(s, c)[1..], c) == s[IndexOf(s, c) + 1..]
    decreases |s|
  {
    var rest := Split(s[1..], c);
    if s[0] == c {
      assert Split(s, c) == [""] + rest;
      assert Split(s, c)[1..] == rest;
      JoinSplit(s[1..], c);
    } else {
      SplitAtFirst(s[1..], c);
      var j := IndexOf(s[1..], c);
      assert IndexOf(s, c) == j + 1;
      assert Split(s, c) == [[s[0]] + rest[0]] + rest[1..];
      assert Split(s, c)[1..] == rest[1..];
      assert s[..j + 1] == [s[0]] + s[1..][..j];
      assert s[j + 2..] == s[1..][j + 1..];
    }
  }

  // ---------------------------------------------------------------------------
  // Substrings and suffixes
  // ---------------------------------------------------------------------------

  /** `sub` occurs in `s` starting at position `i`. */
  predicate OccursAt(s: string, sub: string, i: int) {
    0 <= i <= |s| - |sub| && s[i..i + |sub|] == sub
  }

  /** `s.find(sub) >= 0` */
  predicate Contains(s: string, sub: string) {
    exists i | 0 <= i <= |s| - |sub| :: OccursAt(s, sub, i)
  }

  /** A string occurs in any string that ends with it. */
  lemma ContainsSuffix(s: string, sub: string)
    ensures Contains(s + sub, sub)
  {
    assert OccursAt(s + sub, sub, |s|);
  }

  /** A string still occurs after something is appended. */
  lemma ContainsExtended(s: string, sub: string, t: string)
    requires Contains(s, sub)
    ensures Contains(s + t, sub)
  {
    var i :| 0 <= i <= |s| - |sub| && OccursAt(s, sub, i);
    assert (s + t)[i..i + |sub|] == s[i..i + |sub|];
    assert OccursAt(s + t, sub, i);
  }

  /** A string whose first character does not occur in `s` does not occur
      in `s`. */
  lemma AbsentFirstChar(s: string, sub: string)
    requires |sub| > 0 && sub[0] !in s
    ensures !Contains(s, sub)
  {
    forall i | 0 <= i <= |s| - |sub|
      ensures !OccursAt(s, sub, i)
    {
      assert s[i] in s;
      assert s[i..i + |sub|][0] == s[i];
    }
  }

  /** Python's `s[-4:]`: the last four characters, or the whole string when
      it is shorter. */
  function LastFour(s: string): (r: string)
    ensures |r| == if |s| >= 4 then 4 else |s|
    ensures s == s[..|s| - |r|] + r
  {
    if |s| >= 4 then s[|s| - 4..] else s
  }

  // ---------------------------------------------------------------------------
  // "Letter followed by a digit 1-9": re.search('D[1-9]', s), re.search('T[1-9]', s)
  // ---------------------------------------------------------------------------

  /** `letter` at position `i`, followed by a digit from 1 to 9. */
  predicate TagAt(s: string, letter: char, i: int) {
    0 <= i < |s| - 1 && s[i] == letter && '1' <= s[i + 1] <= '9'
  }

  /** `re.search(letter + '[1-9]', s) != None` */
  function HasTag(s: string, letter: char): (found: bool)
    ensures found <==> exists i :: TagAt(s, letter, i)
    decreases |s|
  {
    if |s| < 2 then false
    else if s[0] == letter && '1' <= s[1] <= '9' then
      assert TagAt(s, letter, 0);
      true
    else
      var found := HasTag(s[1..], letter);
      assert forall i :: TagAt(s[1..], letter, i) <==> TagAt(s, letter, i + 1);
      assert found ==> exists i :: TagAt(s, letter, i) by {
        if found {
          var i :| TagAt(s[1..], letter, i);
          assert TagAt(s, letter, i + 1);
        }
      }
      assert (exists i :: TagAt(s, letter, i)) ==> found by {
        if exists i :: TagAt(s, letter, i) {
          var i :| TagAt(s, letter, i);
          assert i != 0;
          assert TagAt(s[1..], letter, i - 1);
        }
      }
      found
  }

  // ---------------------------------------------------------------------------
  // Python's ordering of strings (code point by code point; a proper prefix
  // sorts first)
  // ---------------------------------------------------------------------------

  predicate StrLess(a: string, b: string)
    decreases |a|
  {
    if a == [] then b != []
    else if b == [] then false
    else if a[0] != b[0] then a[0] < b[0]
    else StrLess(a[1..], b[1..])
  }

  lemma {:induction false} StrLessIrreflexive(a: string)
    ensures !StrLess(a, a)
    decreases |a|
  {
    if a != [] {
      StrLessIrreflexive(a[1..]);
    }
  }

  lemma {:induction false} StrLessTransitive(a: string, b: string, c: string)
    requires StrLess(a, b) && StrLess(b, c)
    ensures StrLess(a, c)
    decreases |a|
  {
    if a != [] && a[0] == b[0] && b[0] == c[0] {
      StrLessTransitive(a[1..], b[1..], c[1..]);
    }
  }

  /** Any two different strings are ordered one way or the other. */
  lemma {:induction false} StrLessTotal(a: string, b: string)
    requires a != b
    ensures StrLess(a, b) || StrLess(b, a)
    decreases |a|
  {
    if a != [] && b != [] && a[0] == b[0] {
      assert a == [a[0]] + a[1..] && b == [b[0]] + b[1..];
      StrLessTotal(a[1..], b[1..]);
    }
  }

  lemma {:induction false} StrLessAsymmetric(a: string, b: string)
    requires StrLess(a, b)
    ensures !StrLess(b, a)
    decreases |a|
  {
    if a != [] && b != [] && a[0] == b[0] {
      StrLessAsymmetric(a[1..], b[1..]);
    }
  }
}
