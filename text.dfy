/**
 The Python string operations the ingestion handlers rely on, with Python's
 semantics: `str.lower` (restricted to ASCII), the substring test `k in s`,
 `str.endswith`, `str.split(sep)` with a one-character separator and
 `sep.join(parts)`.
 */
module Text {

  predicate IsAsciiUpper(ch: char) {
    'A' <= ch <= 'Z'
  }

  function AsciiLower(ch: char): char {
    if IsAsciiUpper(ch) then (ch as int - 'A' as int + 'a' as int) as char else ch
  }

  /** `s.lower()`, on the ASCII letters only. */
  function Lower(s: string): string {
    seq(|s|, i requires 0 <= i < |s| => AsciiLower(s[i]))
  }

  /** `k in s` for two strings: `k` occurs in `s` at some offset (the empty string occurs everywhere). */
  function Contains(s: string, k: string): bool
    decreases |s|
  {
    k <= s || (|s| > 0 && Contains(s[1..], k))
  }

  /** `s.endswith(suffix)`. */
  predicate EndsWith(s: string, suffix: string) {
    |suffix| <= |s| && s[|s| - |suffix|..] == suffix
  }

  /** `s.split(sep)`: the maximal runs of `s` between occurrences of `sep`; never empty. */
  function Split(s: string, sep: char): (parts: seq<string>)
    ensures |parts| >= 1
    decreases |s|
  {
    if s == [] then [""] else ConsParts(s[0], sep, Split(s[1..], sep))
  }

  /**
   The parts of `[c] + t`, from the parts `ps` of `t`: a separator starts a
   new empty part, any other character joins the front of the first part.
   */
  function ConsParts(c: char, sep: char, ps: seq<string>): seq<string>
    requires |ps| >= 1
  {
    if c == sep then [""] + ps else [[c] + ps[0]] + ps[1..]
  }

  /** `sep.join(parts)`. */
  function Join(sep: char, parts: seq<string>): string
    decreases |parts|
  {
    if |parts| == 0 then ""
    else if |parts| == 1 then parts[0]
    else parts[0] + [sep] + Join(sep, parts[1..])
  }

  /** `ch` occurs at most once in `s`. */
  predicate AtMostOnce(s: string, ch: char) {
    forall i, j :: 0 <= i < j < |s| && s[i] == ch ==> s[j] != ch
  }

  // ---------------------------------------------------------------------------
  // Lower-casing

  lemma LowerHasNoUpper(s: string)
    ensures forall ch :: ch in Lower(s) ==> !IsAsciiUpper(ch)
  {
  }

  lemma LowerAppend(a: string, b: string)
    ensures Lower(a + b) == Lower(a) + Lower(b)
  {
    assert forall i :: 0 <= i < |a + b| ==> Lower(a + b)[i] == (Lower(a) + Lower(b))[i];
  }

  predicate IsAsciiLetter(ch: char) {
    'A' <= ch <= 'Z' || 'a' <= ch <= 'z'
  }

  /**
   Lower-casing keeps every character that is not an ASCII letter where it
   was, '.' and '_' among them, and neither adds nor removes one.
   */
  lemma LowerKeeps(s: string, ch: char)
    requires !IsAsciiLetter(ch)
    ensures forall i :: 0 <= i < |s| ==> (Lower(s)[i] == ch <==> s[i] == ch)
    ensures ch in Lower(s) <==> ch in s
  {
    if ch in s {
      var i :| 0 <= i < |s| && s[i] == ch;
      assert Lower(s)[i] == ch;
    }
  }

  /** A prefix holds no character its whole does not hold. */
  lemma PrefixOmits(c: string, b: string, ch: char)
    requires c <= b && ch !in b
    ensures ch !in c
  {
    forall i | 0 <= i < |c| ensures c[i] != ch {
      assert c[i] == b[i];
    }
  }

  // ---------------------------------------------------------------------------
  // Substring test

  /** `k` occurs in `s` starting at offset `i`. */
  predicate OccursAt(s: string, k: string, i: int) {
    0 <= i && i + |k| <= |s| && s[i..i + |k|] == k
  }

  /** The recursive substring test agrees with "some slice of `s` equals `k`". */
  lemma {:induction false} ContainsIff(s: string, k: string)
    ensures Contains(s, k) <==> exists i :: OccursAt(s, k, i)
    decreases |s|
  {
    if k <= s {
      assert OccursAt(s, k, 0);
    }
    if |s| > 0 {
      ContainsIff(s[1..], k);
      if Contains(s[1..], k) {
        var i :| OccursAt(s[1..], k, i);
        assert s[i + 1..i + 1 + |k|] == s[1..][i..i + |k|];
        assert OccursAt(s, k, i + 1);
      }
      if exists i :: OccursAt(s, k, i) {
        var i :| OccursAt(s, k, i);
        if i > 0 {
          assert s[1..][i - 1..i - 1 + |k|] == s[i..i + |k|];
          assert OccursAt(s[1..], k, i - 1);
        } else {
          assert k <= s;
        }
      }
    } else {
      if exists i :: OccursAt(s, k, i) {
        var i :| OccursAt(s, k, i);
        assert |k| == 0;
        assert k <= s;
      }
    }
  }

  /** Every character of a substring occurs in the string. */
  lemma {:induction false} ContainsChars(s: string, k: string)
    requires Contains(s, k)
    ensures forall ch :: ch in k ==> ch in s
    decreases |s|
  {
    if !(k <= s) {
      ContainsChars(s[1..], k);
    } else {
      assert forall ch :: ch in k ==> ch in s by {
        forall ch | ch in k ensures ch in s {
          var j :| 0 <= j < |k| && k[j] == ch;
          assert s[j] == ch;
        }
      }
    }
  }

  // ---------------------------------------------------------------------------
  // split and join

  /** Joining the parts of `[c] + t` puts `c` in front of the joined parts of `t`. */
  lemma JoinConsParts(c: char, sep: char, ps: seq<string>)
    requires |ps| >= 1
    ensures Join(sep, ConsParts(c, sep, ps)) == [c] + Join(sep, ps)
  {
    var parts := ConsParts(c, sep, ps);
    if c == sep {
      assert parts[1..] == ps;
      assert Join(sep, parts) == "" + [sep] + Join(sep, ps);
    } else if |ps| == 1 {
      assert parts == [[c] + ps[0]];
    } else {
      assert parts[1..] == ps[1..];
      assert Join(sep, parts) == [c] + ps[0] + [sep] + Join(sep, ps[1..]);
    }
  }

  /** `sep.join(s.split(sep)) == s`. */
  lemma {:induction false} SplitJoin(s: string, sep: char)
    ensures Join(sep, Split(s, sep)) == s
    decreases |s|
  {
    if s != [] {
      SplitJoin(s[1..], sep);
      SplitCons(s[0], s[1..], sep);
      JoinConsParts(s[0], sep, Split(s[1..], sep));
      assert s == [s[0]] + s[1..];
    }
  }

  /** Every part of `s.split(sep)` is free of `sep` and is made of characters of `s`. */
  lemma {:induction false} SplitPart(s: string, sep: char, i: int)
    requires 0 <= i < |Split(s, sep)|
    ensures sep !in Split(s, sep)[i]
    ensures forall ch :: ch in Split(s, sep)[i] ==> ch in s
    decreases |s|
  {
    if s != [] {
      var rest := Split(s[1..], sep);
      var part := Split(s, sep)[i];
      if s[0] == sep {
        if i > 0 {
          SplitPart(s[1..], sep, i - 1);
          assert part == rest[i - 1];
        }
      } else if i == 0 {
        SplitPart(s[1..], sep, 0);
        assert part == [s[0]] + rest[0];
      } else {
        SplitPart(s[1..], sep, i);
        assert part == rest[i];
      }
      forall ch | ch in part ensures ch in s {
        if ch != s[0] {
          assert ch in s[1..];
        }
      }
    }
  }

  /** Without a separator in `s`, `s.split(sep)` is `[s]`. */
  lemma {:induction false} SplitWithoutSep(s: string, sep: char)
    requires sep !in s
    ensures Split(s, sep) == [s]
    decreases |s|
  {
    if s != [] {
      SplitWithoutSep(s[1..], sep);
      assert s == [s[0]] + s[1..];
    }
  }

  /** `s.split(sep)` for a string with first character `c` and tail `t`. */
  lemma SplitCons(c: char, t: string, sep: char)
    ensures Split([c] + t, sep) == ConsParts(c, sep, Split(t, sep))
  {
    assert ([c] + t)[1..] == t;
  }

  /** Putting a character in front commutes with appending more parts. */
  lemma ConsPartsAppend(c: char, sep: char, left: seq<string>, right: seq<string>)
    requires |left| >= 1
    ensures ConsParts(c, sep, left + right) == ConsParts(c, sep, left) + right
  {
    assert (left + right)[0] == left[0];
    assert (left + right)[1..] == left[1..] + right;
  }

  /** The step of `SplitAround`: one more character in front of `x`. */
  lemma SplitAroundStep(c: char, tail: string, y: string, sep: char)
    requires Split(tail + [sep] + y, sep) == Split(tail, sep) + Split(y, sep)
    ensures Split([c] + tail + [sep] + y, sep) == Split([c] + tail, sep) + Split(y, sep)
  {
    var t := tail + [sep] + y;
    var left, right := Split(tail, sep), Split(y, sep);
    calc {
      Split([c] + tail + [sep] + y, sep);
      { assert [c] + tail + [sep] + y == [c] + t; }
      Split([c] + t, sep);
      { SplitCons(c, t, sep); }
      ConsParts(c, sep, left + right);
      { ConsPartsAppend(c, sep, left, right); }
      ConsParts(c, sep, left) + right;
      { SplitCons(c, tail, sep); }
      Split([c] + tail, sep) + right;
    }
  }

  /** Splitting at one separator splits the two sides independently. */
  lemma {:induction false} SplitAround(x: string, y: string, sep: char)
    ensures Split(x + [sep] + y, sep) == Split(x, sep) + Split(y, sep)
    decreases |x|
  {
    if x == [] {
      assert x + [sep] + y == [sep] + y;
      SplitCons(sep, y, sep);
    } else {
      SplitAround(x[1..], y, sep);
      SplitAroundStep(x[0], x[1..], y, sep);
      assert x == [x[0]] + x[1..];
    }
  }

  /** A separator-free prefix stays at the head of the first part. */
  lemma {:induction false} SplitFirstKeepsPrefix(t: string, u: string, sep: char)
    requires sep !in t
    ensures Split(t + u, sep)[0] == t + Split(u, sep)[0]
    decreases |t|
  {
    if t != [] {
      assert (t + u)[1..] == t[1..] + u;
      SplitFirstKeepsPrefix(t[1..], u, sep);
      assert t == [t[0]] + t[1..];
    } else {
      assert t + u == u;
    }
  }

  /** The first part of `s.split(sep)` is a prefix of `s`, followed in `s` by `sep` unless it is all of `s`. */
  lemma {:induction false} SplitFirstIsPrefix(s: string, sep: char)
    ensures Split(s, sep)[0] <= s
    ensures |Split(s, sep)[0]| < |s| ==> s[|Split(s, sep)[0]|] == sep
    decreases |s|
  {
    if s != [] {
      SplitFirstIsPrefix(s[1..], sep);
    }
  }
}
