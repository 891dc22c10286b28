/**
 The `determine_table_name` resolver shared by the three handlers. The
 keyword-to-table mapping is an ordered sequence of pairs, in the order
 `json.loads` gives the configured object's keys. The handlers differ only
 in how many underscore-separated segments of the base name the fallback
 candidate keeps.
 */
module TableResolver {
  import opened Wrappers
  import opened Text

  /**
   The items of `TABLE_MAPPING`, in the dict's order. A mapping that comes
   from a real dict satisfies `DistinctKeywords`.
   */
  type Mapping = seq<(string, string)>

  /**
   Each keyword occurs once, as in a dict: `json.loads` keeps a repeated key
   at its first position with its last value.
   */
  predicate DistinctKeywords(m: Mapping) {
    forall i, j :: 0 <= i < j < |m| ==> m[i].0 != m[j].0
  }

  /** `split('_')[0]` (contributor, quality audit) or `'_'.join(split('_')[:2])` (program ops). */
  datatype Fallback = FirstSegment | FirstTwoSegments

  /** `TABLE_MAPPING.values()`. */
  function Values(m: Mapping): set<string> {
    set e | e in m :: e.1
  }

  /** The table of the first entry whose keyword occurs in `lowered`, scanning in mapping order. */
  function FirstKeywordMatch(m: Mapping, lowered: string): Option<string>
    decreases |m|
  {
    if m == [] then None
    else if Contains(lowered, m[0].0) then Some(m[0].1)
    else FirstKeywordMatch(m[1..], lowered)
  }

  /** Entry `i` is the first entry whose keyword occurs in `lowered`. */
  predicate IsFirstMatch(m: Mapping, lowered: string, i: int) {
    && 0 <= i < |m|
    && Contains(lowered, m[i].0)
    && forall j :: 0 <= j < i ==> !Contains(lowered, m[j].0)
  }

  /** No keyword of the mapping occurs in `lowered`. */
  predicate NoKeywordMatches(m: Mapping, lowered: string) {
    forall i :: 0 <= i < |m| ==> !Contains(lowered, m[i].0)
  }

  /** The text before the first '.': `file_name.split('.')[0]`. */
  function BaseName(fileName: string): string {
    Split(fileName, '.')[0]
  }

  /** The candidate table name derived from the original-case file name. */
  function FallbackCandidate(fileName: string, fallback: Fallback): string {
    var baseName := BaseName(fileName);
    match fallback
    case FirstSegment => Split(baseName, '_')[0]
    case FirstTwoSegments =>
      var parts := Split(baseName, '_');
      Join('_', parts[..if |parts| < 2 then |parts| else 2])
  }

  /** `determine_table_name(file_name)` against `TABLE_MAPPING == m`. */
  function Resolve(m: Mapping, fileName: string, fallback: Fallback): Option<string> {
    match FirstKeywordMatch(m, Lower(fileName))
    case Some(table) => Some(table)
    case None =>
      var candidate := FallbackCandidate(fileName, fallback);
      if candidate in Values(m) then Some(candidate) else None
  }

  /**
   The resolver as the source writes it: a scan of the mapping with an early
   return, then the split-based fallback.
   */
  method DetermineTableName(m: Mapping, fileName: string, fallback: Fallback) returns (table: Option<string>)
    ensures table == Resolve(m, fileName, fallback)
    ensures forall i :: IsFirstMatch(m, Lower(fileName), i) ==> table == Some(m[i].1)
    ensures NoKeywordMatches(m, Lower(fileName)) ==>
              table == (if FallbackCandidate(fileName, fallback) in Values(m)
                        then Some(FallbackCandidate(fileName, fallback)) else None)
  {
    var lowered := Lower(fileName);
    var i := 0;
    while i < |m|
      invariant 0 <= i <= |m|
      invariant forall j :: 0 <= j < i ==> !Contains(lowered, m[j].0)
    {
      var (keyword, tableName) := m[i];
      if Contains(lowered, keyword) {
        FirstMatchWins(m, lowered, i);
        FirstMatchUnique(m, lowered, i);
        return Some(tableName);
      }
      i := i + 1;
    }
    NoMatchIff(m, lowered);
    var baseName := Split(fileName, '.')[0];
    match fallback {
      case FirstSegment =>
        baseName := Split(baseName, '_')[0];
      case FirstTwoSegments =>
        var parts := Split(baseName, '_');
        baseName := Join('_', parts[..if |parts| < 2 then |parts| else 2]);
    }
    if baseName in Values(m) {
      return Some(baseName);
    }
    return None;
  }

  // ---------------------------------------------------------------------------
  // The keyword scan

  /** The first matching keyword, in mapping order, decides; later matches are ignored. */
  lemma {:induction false} FirstMatchWins(m: Mapping, lowered: string, i: int)
    requires IsFirstMatch(m, lowered, i)
    ensures FirstKeywordMatch(m, lowered) == Some(m[i].1)
    decreases |m|
  {
    if i > 0 {
      assert IsFirstMatch(m[1..], lowered, i - 1) by {
        forall j | 0 <= j < i - 1 ensures !Contains(lowered, m[1..][j].0) {
          assert m[1..][j] == m[j + 1];
        }
      }
      FirstMatchWins(m[1..], lowered, i - 1);
    }
  }

  /** At most one entry is the first match. */
  lemma FirstMatchUnique(m: Mapping, lowered: string, i: int)
    requires IsFirstMatch(m, lowered, i)
    ensures forall j :: IsFirstMatch(m, lowered, j) ==> j == i
  {
  }

  /** The scan finds nothing exactly when no keyword occurs. */
  lemma {:induction false} NoMatchIff(m: Mapping, lowered: string)
    ensures FirstKeywordMatch(m, lowered) == None <==> NoKeywordMatches(m, lowered)
    decreases |m|
  {
    if m != [] {
      NoMatchIff(m[1..], lowered);
      if NoKeywordMatches(m[1..], lowered) && !Contains(lowered, m[0].0) {
        forall i | 0 <= i < |m| ensures !Contains(lowered, m[i].0) {
          if i > 0 {
            assert m[i] == m[1..][i - 1];
          }
        }
      }
      if NoKeywordMatches(m, lowered) {
        forall i | 0 <= i < |m[1..]| ensures !Contains(lowered, m[1..][i].0) {
          assert m[1..][i] == m[i + 1];
        }
      }
    }
  }

  /** Whatever the scan returns is the table of the first matching entry. */
  lemma {:induction false} FirstMatchFound(m: Mapping, lowered: string)
    requires FirstKeywordMatch(m, lowered).Some?
    ensures exists i :: IsFirstMatch(m, lowered, i) && FirstKeywordMatch(m, lowered) == Some(m[i].1)
    decreases |m|
  {
    if Contains(lowered, m[0].0) {
      assert IsFirstMatch(m, lowered, 0);
    } else {
      FirstMatchFound(m[1..], lowered);
      var i :| IsFirstMatch(m[1..], lowered, i) && FirstKeywordMatch(m[1..], lowered) == Some(m[1..][i].1);
      assert m[1..][i] == m[i + 1];
      assert IsFirstMatch(m, lowered, i + 1) by {
        forall j | 0 <= j < i + 1 ensures !Contains(lowered, m[j].0) {
          if j > 0 {
            assert m[j] == m[1..][j - 1];
          }
        }
      }
    }
  }

  /** A keyword holding an ASCII capital never occurs in a lower-cased name. */
  lemma UpperCaseKeywordNeverMatches(keyword: string, fileName: string, j: int)
    requires 0 <= j < |keyword| && IsAsciiUpper(keyword[j])
    ensures !Contains(Lower(fileName), keyword)
  {
    LowerHasNoUpper(fileName);
    assert keyword[j] !in Lower(fileName);
    if Contains(Lower(fileName), keyword) {
      ContainsChars(Lower(fileName), keyword);
      assert false;
    }
  }

  // ---------------------------------------------------------------------------
  // The whole resolver

  /** The result is never an arbitrary string: it is one of the mapping's tables. */
  lemma ResolveIsMappedValue(m: Mapping, fileName: string, fallback: Fallback)
    ensures Resolve(m, fileName, fallback).Some? ==> Resolve(m, fileName, fallback).value in Values(m)
  {
    if FirstKeywordMatch(m, Lower(fileName)).Some? {
      FirstMatchFound(m, Lower(fileName));
      var i :| IsFirstMatch(m, Lower(fileName), i) && FirstKeywordMatch(m, Lower(fileName)) == Some(m[i].1);
      assert m[i] in m;
    }
  }

  /** An empty mapping resolves no file name. */
  lemma EmptyMappingResolvesNothing(fileName: string, fallback: Fallback)
    ensures Resolve([], fileName, fallback) == None
  {
    assert Values([]) == {};
  }

  // ---------------------------------------------------------------------------
  // The fallback candidate

  /** The base name has no '.' and is a prefix of the file name. */
  lemma BaseNameShape(fileName: string)
    ensures '.' !in BaseName(fileName) && BaseName(fileName) <= fileName
  {
    SplitPart(fileName, '.', 0);
    SplitFirstIsPrefix(fileName, '.');
  }

  /** `t` followed by '.' has base name `t`; followed by '_', a base name that starts with `t` and '_'. */
  lemma BaseNameAfter(t: string, sep: char, rest: string)
    requires '.' !in t && (sep == '.' || sep == '_')
    ensures BaseName(t + [sep] + rest) == t + (if sep == '.' then "" else [sep] + BaseName(rest))
  {
    var f := t + [sep] + rest;
    if sep == '.' {
      SplitAround(t, rest, '.');
      SplitWithoutSep(t, '.');
    } else {
      assert f == t + ([sep] + rest);
      SplitFirstKeepsPrefix(t, [sep] + rest, '.');
      assert ([sep] + rest)[1..] == rest;
    }
  }

  /**
   First-segment candidate: the original-case text before the first '.' and
   then before the first '_'. It holds neither character, is a prefix of the
   name, and is the whole name when the name holds neither.
   */
  lemma FirstSegmentCandidateShape(fileName: string)
    ensures var c := FallbackCandidate(fileName, FirstSegment);
            '.' !in c && '_' !in c && c <= fileName
    ensures '.' !in fileName && '_' !in fileName ==> FallbackCandidate(fileName, FirstSegment) == fileName
  {
    var b := BaseName(fileName);
    var c := FallbackCandidate(fileName, FirstSegment);
    BaseNameShape(fileName);
    SplitPart(b, '_', 0);
    SplitFirstIsPrefix(b, '_');
    PrefixOmits(c, b, '.');
    if '.' !in fileName && '_' !in fileName {
      SplitWithoutSep(fileName, '.');
      SplitWithoutSep(fileName, '_');
    }
  }

  /** `t` followed by '.' or '_' yields the candidate `t` when `t` holds neither character. */
  lemma FirstSegmentOfName(t: string, sep: char, rest: string)
    requires '.' !in t && '_' !in t && (sep == '.' || sep == '_')
    ensures FallbackCandidate(t + [sep] + rest, FirstSegment) == t
  {
    var b := BaseName(t + [sep] + rest);
    BaseNameAfter(t, sep, rest);
    SplitWithoutSep(t, '_');
    assert FallbackCandidate(t + [sep] + rest, FirstSegment) == Split(b, '_')[0];
    if sep == '_' {
      assert b == t + ['_'] + BaseName(rest);
      SplitAround(t, BaseName(rest), '_');
      assert Split(b, '_') == [t] + Split(BaseName(rest), '_');
    } else {
      assert b == t + "";
      assert t + "" == t;
    }
  }

  /**
   Two-segment candidate: no '.', at most one '_', and a prefix of the file
   name.
   */
  lemma FirstTwoSegmentsCandidateShape(fileName: string)
    ensures var c := FallbackCandidate(fileName, FirstTwoSegments);
            '.' !in c && AtMostOnce(c, '_') && c <= fileName
  {
    var b := BaseName(fileName);
    BaseNameShape(fileName);
    var parts := Split(b, '_');
    SplitJoin(b, '_');
    SplitPart(b, '_', 0);
    var c := FallbackCandidate(fileName, FirstTwoSegments);
    if |parts| < 2 {
      assert parts == [parts[0]];
      assert parts[..1] == parts;
      assert c == b;
    } else {
      var p0, p1 := parts[0], parts[1];
      SplitPart(b, '_', 1);
      assert parts[..2] == [p0, p1];
      assert [p0, p1][1..] == [p1];
      assert Join('_', [p1]) == p1;
      assert Join('_', [p0, p1]) == p0 + "_" + Join('_', [p1]);
      assert c == p0 + "_" + p1;
      var tail := parts[1..];
      assert b == p0 + "_" + Join('_', tail);
      assert p1 <= Join('_', tail) by {
        if |tail| > 1 {
          assert Join('_', tail) == tail[0] + "_" + Join('_', tail[1..]);
        }
      }
      assert c <= b;
      forall k | 0 <= k < |c| ensures c[k] == '_' <==> k == |p0| {
        if k < |p0| {
          assert c[k] == p0[k];
          assert p0[k] in p0;
        } else if k > |p0| {
          assert c[k] == p1[k - |p0| - 1];
          assert c[k] in p1;
        }
      }
    }
    PrefixOmits(c, b, '.');
  }

  /** `t1 + "_" + t2` followed by '.' or '_' yields the candidate `t1 + "_" + t2`. */
  lemma FirstTwoSegmentsOfName(t1: string, t2: string, sep: char, rest: string)
    requires '.' !in t1 && '_' !in t1 && '.' !in t2 && '_' !in t2 && (sep == '.' || sep == '_')
    ensures FallbackCandidate(t1 + "_" + t2 + [sep] + rest, FirstTwoSegments) == t1 + "_" + t2
  {
    var t := t1 + "_" + t2;
    assert '.' !in t;
    var f := t + [sep] + rest;
    BaseNameAfter(t, sep, rest);
    var u: string := if sep == '.' then "" else [sep] + BaseName(rest);
    var b := BaseName(f);
    assert b == t1 + ['_'] + (t2 + u);
    SplitAround(t1, t2 + u, '_');
    SplitWithoutSep(t1, '_');
    SplitFirstKeepsPrefix(t2, u, '_');
    assert Split(u, '_')[0] == "" by {
      if sep == '_' {
        assert u == [] + ['_'] + BaseName(rest);
        SplitAround([], BaseName(rest), '_');
      }
    }
    var parts := Split(b, '_');
    assert parts == [t1] + Split(t2 + u, '_');
    assert Split(t2 + u, '_')[0] == t2;
    assert parts[1] == t2;
    assert parts[..2] == [t1, t2];
    assert [t1, t2][1..] == [t2];
    assert Join('_', [t2]) == t2;
    assert Join('_', [t1, t2]) == t1 + "_" + Join('_', [t2]);
  }
}
