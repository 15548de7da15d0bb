/**
 * The string primitives the cleaner uses, with Python's semantics:
 * `str.strip()`, `str.split(sep)` for a one-character separator,
 * `sep.join(parts)`, `str.startswith` and the substring test `k in s`.
 */
module Text {

  /** Python's `str.isspace()`: the characters `str.strip()` removes. */
  predicate IsSpace(c: char)
  {
    || ('\t' <= c <= '\r')
    || ('\U{1C}' <= c <= '\U{1F}')
    || c == ' ' || c == '\U{85}' || c == '\U{A0}' || c == '\U{1680}'
    || ('\U{2000}' <= c <= '\U{200A}')
    || c == '\U{2028}' || c == '\U{2029}' || c == '\U{202F}' || c == '\U{205F}' || c == '\U{3000}'
  }

  ghost predicate AllSpace(s: string)
  {
    forall i :: 0 <= i < |s| ==> IsSpace(s[i])
  }

  lemma AllSpaceCons(c: char, s: string)
    ensures AllSpace([c] + s) <==> IsSpace(c) && AllSpace(s)
  {
    var cs := [c] + s;
    assert cs[0] == c;
    assert forall i :: 0 <= i < |s| ==> cs[i + 1] == s[i];
    if IsSpace(c) && AllSpace(s) {
      assert forall i :: 1 <= i < |cs| ==> cs[i] == s[i - 1];
    }
  }

  /** A string holding no whitespace at all: one token. */
  ghost predicate NoSpace(s: string)
  {
    forall i :: 0 <= i < |s| ==> !IsSpace(s[i])
  }

  /** A string with no whitespace at either end. */
  ghost predicate IsStripped(s: string)
  {
    s == [] || (!IsSpace(s[0]) && !IsSpace(s[|s| - 1]))
  }

  /** `s.lstrip()`. */
  function TrimLeft(s: string): string
    decreases |s|
  {
    if |s| > 0 && IsSpace(s[0]) then TrimLeft(s[1..]) else s
  }

  /** `s.rstrip()`. */
  function TrimRight(s: string): string
    decreases |s|
  {
    if |s| > 0 && IsSpace(s[|s| - 1]) then TrimRight(s[..|s| - 1]) else s
  }

  /** `s.strip()`. */
  function Strip(s: string): string
  {
    TrimRight(TrimLeft(s))
  }

  /**
   * `lstrip()` keeps the longest suffix that does not start with whitespace:
   * what it drops is whitespace.
   */
  lemma {:induction false} TrimLeftSpec(s: string)
    ensures |TrimLeft(s)| <= |s| && TrimLeft(s) == s[|s| - |TrimLeft(s)|..]
    ensures AllSpace(s[..|s| - |TrimLeft(s)|])
    ensures TrimLeft(s) == [] || !IsSpace(TrimLeft(s)[0])
    decreases |s|
  {
    if |s| > 0 && IsSpace(s[0]) {
      TrimLeftSpec(s[1..]);
      var k := |s| - |TrimLeft(s)|;
      assert forall i :: 1 <= i < k ==> s[i] == s[1..][..k - 1][i - 1];
    }
  }

  /**
   * `rstrip()` keeps the longest prefix that does not end with whitespace:
   * what it drops is whitespace.
   */
  lemma {:induction false} TrimRightSpec(s: string)
    ensures |TrimRight(s)| <= |s| && TrimRight(s) == s[..|TrimRight(s)|]
    ensures AllSpace(s[|TrimRight(s)|..])
    ensures TrimRight(s) == [] || !IsSpace(TrimRight(s)[|TrimRight(s)| - 1])
    decreases |s|
  {
    if |s| > 0 && IsSpace(s[|s| - 1]) {
      var init := s[..|s| - 1];
      TrimRightSpec(init);
      var k := |TrimRight(s)|;
      assert forall i :: k <= i < |s| - 1 ==> s[i] == init[k..][i - k];
    }
  }

  /**
   * `strip()` leaves no whitespace at either end, and what it removes is
   * whitespace around one contiguous part of the string that it keeps.
   */
  lemma StripSpec(s: string)
    ensures IsStripped(Strip(s))
    ensures exists lo :: 0 <= lo <= |s| - |Strip(s)| && Strip(s) == s[lo..][..|Strip(s)|]
                         && AllSpace(s[..lo]) && AllSpace(s[lo..][|Strip(s)|..])
  {
    var t := TrimLeft(s);
    var lo := |s| - |t|;
    TrimLeftSpec(s);
    TrimRightSpec(t);
    assert s[lo..] == t;
    assert Strip(s) != [] ==> Strip(s)[0] == t[0];
  }

  /** A string strips to nothing exactly when it is all whitespace. */
  lemma StripEmptyIffSpace(s: string)
    ensures Strip(s) == "" <==> AllSpace(s)
  {
    var t := TrimLeft(s);
    var k := |s| - |t|;
    TrimLeftSpec(s);
    TrimRightSpec(t);
    if Strip(s) == "" {
      assert s == s[..k] + t;
    }
  }

  /** Stripping a string that has no surrounding whitespace leaves it as it is. */
  lemma StripStripped(s: string)
    requires IsStripped(s)
    ensures Strip(s) == s
  {
  }

  /** `sep.join(parts)`. */
  function Join(sep: string, parts: seq<string>): string
    decreases |parts|
  {
    if |parts| == 0 then ""
    else if |parts| == 1 then parts[0]
    else parts[0] + sep + Join(sep, parts[1..])
  }

  /**
   * `s.split(sep)` for a single-character separator: the pieces between
   * consecutive separators, empty ones included; there is always at least one.
   */
  function Split(s: string, sep: char): (r: seq<string>)
    ensures |r| >= 1
    ensures forall i :: 0 <= i < |r| ==> sep !in r[i]
    decreases |s|
  {
    if |s| == 0 then [""]
    else
      var rest := Split(s[1..], sep);
      if s[0] == sep then [""] + rest
      else [[s[0]] + rest[0]] + rest[1..]
  }

  lemma JoinCons(sep: string, a: string, parts: seq<string>)
    requires |parts| >= 1
    ensures Join(sep, [a] + parts) == a + sep + Join(sep, parts)
  {
    assert ([a] + parts)[1..] == parts;
  }

  /** Prepending to the first piece prepends to the joined string. */
  lemma {:induction false} JoinPrependFirst(sep: string, x: string, parts: seq<string>)
    requires |parts| >= 1
    ensures Join(sep, [x + parts[0]] + parts[1..]) == x + Join(sep, parts)
  {
    if |parts| > 1 {
      JoinCons(sep, x + parts[0], parts[1..]);
      JoinCons(sep, parts[0], parts[1..]);
      assert [parts[0]] + parts[1..] == parts;
    }
  }

  /** A character in neither the separator nor any part is not in the join. */
  lemma {:induction false} NotInJoin(c: char, sep: string, parts: seq<string>)
    requires c !in sep && forall i :: 0 <= i < |parts| ==> c !in parts[i]
    ensures c !in Join(sep, parts)
    decreases |parts|
  {
    if |parts| > 1 {
      NotInJoin(c, sep, parts[1..]);
    }
  }

  /** A join of non-empty parts starts like its first part and ends like its last. */
  lemma {:induction false} JoinEnds(sep: string, parts: seq<string>)
    requires |parts| >= 1 && forall i :: 0 <= i < |parts| ==> parts[i] != ""
    ensures var j := Join(sep, parts);
            j != "" && j[0] == parts[0][0] && j[|j| - 1] == parts[|parts| - 1][|parts[|parts| - 1]| - 1]
    decreases |parts|
  {
    if |parts| > 1 {
      JoinEnds(sep, parts[1..]);
      JoinCons(sep, parts[0], parts[1..]);
      assert [parts[0]] + parts[1..] == parts;
    }
  }

  /** Tokens joined by any separator make a string with no whitespace at either end. */
  lemma JoinTokensStripped(sep: string, parts: seq<string>)
    requires |parts| >= 1 && forall i :: 0 <= i < |parts| ==> parts[i] != "" && NoSpace(parts[i])
    ensures Join(sep, parts) != "" && IsStripped(Join(sep, parts))
    ensures Strip(Join(sep, parts)) == Join(sep, parts)
  {
    JoinEnds(sep, parts);
    var first, last := parts[0], parts[|parts| - 1];
    assert !IsSpace(first[0]) && !IsSpace(last[|last| - 1]);
    StripStripped(Join(sep, parts));
  }

  /** Joining the pieces of a split with the separator gives the string back. */
  lemma {:induction false} JoinSplit(s: string, sep: char)
    ensures Join([sep], Split(s, sep)) == s
    decreases |s|
  {
    if |s| > 0 {
      var rest := Split(s[1..], sep);
      JoinSplit(s[1..], sep);
      if s[0] == sep {
        JoinCons([sep], "", rest);
      } else {
        JoinPrependFirst([sep], [s[0]], rest);
      }
      assert s == [s[0]] + s[1..];
    }
  }

  /** A string without the separator splits into itself alone. */
  lemma {:induction false} SplitWithoutSeparator(s: string, sep: char)
    requires sep !in s
    ensures Split(s, sep) == [s]
    decreases |s|
  {
    if |s| > 0 {
      SplitWithoutSeparator(s[1..], sep);
      assert [s[0]] + s[1..] == s;
    }
  }

  /** A string holding the separator splits into two pieces or more. */
  lemma {:induction false} SplitWithSeparator(s: string, sep: char)
    requires sep in s
    ensures |Split(s, sep)| >= 2
    decreases |s|
  {
    if s[0] != sep {
      SplitWithSeparator(s[1..], sep);
    }
  }

  /** The text before the first separator is the first piece. */
  lemma {:induction false} SplitAtFirstSeparator(a: string, sep: char, t: string)
    requires sep !in a
    ensures Split(a + [sep] + t, sep) == [a] + Split(t, sep)
    decreases |a|
  {
    var s := a + [sep] + t;
    if |a| == 0 {
      assert s[1..] == t;
    } else {
      assert s[1..] == a[1..] + [sep] + t;
      SplitAtFirstSeparator(a[1..], sep, t);
      assert [a[0]] + a[1..] == a;
    }
  }

  /** Splitting a join of separator-free pieces gives the pieces back. */
  lemma {:induction false} SplitJoin(parts: seq<string>, sep: char)
    requires |parts| >= 1
    requires forall i :: 0 <= i < |parts| ==> sep !in parts[i]
    ensures Split(Join([sep], parts), sep) == parts
    decreases |parts|
  {
    if |parts| == 1 {
      SplitWithoutSeparator(parts[0], sep);
    } else {
      SplitJoin(parts[1..], sep);
      SplitAtFirstSeparator(parts[0], sep, Join([sep], parts[1..]));
      assert [parts[0]] + parts[1..] == parts;
    }
  }

  /** `s.startswith(prefix)`. */
  predicate StartsWith(s: string, prefix: string)
  {
    prefix <= s
  }

  ghost predicate OccursAt(sub: string, s: string, i: nat)
  {
    i <= |s| && sub <= s[i..]
  }

  /** `sub` occurs somewhere in `s`. */
  ghost predicate IsSubstring(sub: string, s: string)
  {
    exists i: nat :: OccursAt(sub, s, i)
  }

  /** Python's `sub in s`. */
  function Contains(s: string, sub: string): (r: bool)
    ensures r <==> IsSubstring(sub, s)
    decreases |s|
  {
    if sub <= s then
      assert OccursAt(sub, s, 0);
      true
    else if |s| == 0 then
      assert forall i: nat :: !OccursAt(sub, s, i);
      false
    else
      var r := Contains(s[1..], sub);
      assert forall i: nat :: OccursAt(sub, s[1..], i) <==> OccursAt(sub, s, i + 1) by {
        forall i: nat ensures OccursAt(sub, s[1..], i) <==> OccursAt(sub, s, i + 1) {
          if i + 1 <= |s| { assert s[1..][i..] == s[i + 1..]; }
        }
      }
      assert !OccursAt(sub, s, 0);
      assert IsSubstring(sub, s) ==> IsSubstring(sub, s[1..]) by {
        if IsSubstring(sub, s) {
          var i: nat :| OccursAt(sub, s, i);
          assert i != 0;
          assert OccursAt(sub, s[1..], i - 1);
        }
      }
      r
  }

  /** The empty string occurs in every string. */
  lemma EmptyIsSubstring(s: string)
    ensures Contains(s, "")
  {
    assert OccursAt("", s, 0);
  }
}
