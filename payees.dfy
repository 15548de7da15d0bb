/**
 * The alias table built from the payees file: a Python dict from alias to
 * canonical payee name. A dict iterates in insertion order and assigning to an
 * existing key keeps that key where it is, so the table is an association list
 * in insertion order whose update replaces in place or appends.
 */
module Payees {
  import opened Common
  import opened Text

  datatype Alias = Alias(alias: string, payee: string)

  type Table = seq<Alias>

  /** No alias appears twice, as with the keys of a dict. */
  ghost predicate Distinct(t: Table)
  {
    forall i, j :: 0 <= i < j < |t| ==> t[i].alias != t[j].alias
  }

  /** The position of key `a` in the table, if it is a key. */
  function IndexOf(t: Table, a: string): (r: Option<nat>)
    ensures r.Some? ==> r.value < |t| && t[r.value].alias == a
                        && forall j :: 0 <= j < r.value ==> t[j].alias != a
    ensures r.None? ==> forall j :: 0 <= j < |t| ==> t[j].alias != a
    decreases |t|
  {
    if |t| == 0 then None
    else if t[0].alias == a then Some(0)
    else
      match IndexOf(t[1..], a)
      case Some(k) => Some(k + 1)
      case None => None
  }

  /** The first position holding `a` is the one IndexOf reports. */
  lemma IndexOfFirst(t: Table, a: string, i: nat)
    requires i < |t| && t[i].alias == a
    requires forall j :: 0 <= j < i ==> t[j].alias != a
    ensures IndexOf(t, a) == Some(i)
  {
  }

  /** Tables with the same keys in the same positions find every key at the same place. */
  lemma IndexOfSameKeys(t: Table, u: Table, a: string)
    requires |t| == |u| && forall j :: 0 <= j < |t| ==> t[j].alias == u[j].alias
    ensures IndexOf(t, a) == IndexOf(u, a)
  {
    if IndexOf(t, a).Some? {
      IndexOfFirst(u, a, IndexOf(t, a).value);
    } else if IndexOf(u, a).Some? {
      IndexOfFirst(t, a, IndexOf(u, a).value);
    }
  }

  /** `payees[a]`, or None when `a` is not a key. */
  function Lookup(t: Table, a: string): Option<string>
  {
    match IndexOf(t, a)
    case Some(i) => Some(t[i].payee)
    case None => None
  }

  /** `payees[a] = v`. */
  function Put(t: Table, a: string, v: string): (r: Table)
    ensures Lookup(r, a) == Some(v)
    ensures forall b :: b != a ==> Lookup(r, b) == Lookup(t, b)
    ensures |r| >= |t| && forall i :: 0 <= i < |t| ==> r[i].alias == t[i].alias
    ensures IndexOf(t, a).Some? ==> |r| == |t|
    ensures IndexOf(t, a).None? ==> r == t + [Alias(a, v)]
    ensures Distinct(t) ==> Distinct(r)
  {
    match IndexOf(t, a)
    case Some(i) =>
      var r := t[i := Alias(a, v)];
      assert forall b :: IndexOf(r, b) == IndexOf(t, b) by {
        forall b ensures IndexOf(r, b) == IndexOf(t, b) { IndexOfSameKeys(r, t, b); }
      }
      r
    case None =>
      var r := t + [Alias(a, v)];
      IndexOfFirst(r, a, |t|);
      assert forall b :: b != a ==> IndexOf(r, b) == IndexOf(t, b) by {
        forall b | b != a ensures IndexOf(r, b) == IndexOf(t, b) {
          if IndexOf(t, b).Some? { IndexOfFirst(r, b, IndexOf(t, b).value); }
        }
      }
      r
  }

  /** `for alias in aliases: payees[alias] = name`. */
  function PutAll(t: Table, name: string, aliases: seq<string>): (r: Table)
    ensures forall a :: a in aliases ==> Lookup(r, a) == Some(name)
    ensures forall b :: b !in aliases ==> Lookup(r, b) == Lookup(t, b)
    ensures |r| >= |t| && forall i :: 0 <= i < |t| ==> r[i].alias == t[i].alias
    ensures Distinct(t) ==> Distinct(r)
    decreases |aliases|
  {
    if |aliases| == 0 then t
    else
      var init := aliases[..|aliases| - 1];
      var last := aliases[|aliases| - 1];
      assert aliases == init + [last];
      Put(PutAll(t, name, init), last, name)
  }

  /** A key found in a table is found at the same place in any table that extends its keys. */
  lemma IndexOfPrefix(t: Table, u: Table, a: string)
    requires |t| <= |u| && forall j :: 0 <= j < |t| ==> u[j].alias == t[j].alias
    requires IndexOf(t, a).Some?
    ensures IndexOf(u, a) == IndexOf(t, a)
  {
    IndexOfFirst(u, a, IndexOf(t, a).value);
  }

  /** The last alias of a list, new to the table and to the list, lands after every earlier one. */
  lemma PutAllOrderLast(t: Table, name: string, aliases: seq<string>, p: nat)
    requires p < |aliases| - 1
    requires aliases[|aliases| - 1] !in aliases[..|aliases| - 1]
    requires IndexOf(t, aliases[|aliases| - 1]).None?
    ensures var r := PutAll(t, name, aliases);
            IndexOf(r, aliases[p]).Some? && IndexOf(r, aliases[|aliases| - 1]).Some?
            && IndexOf(r, aliases[p]).value < IndexOf(r, aliases[|aliases| - 1]).value
  {
    var init, last := aliases[..|aliases| - 1], aliases[|aliases| - 1];
    var u := PutAll(t, name, init);
    assert IndexOf(u, aliases[p]).Some? by {
      assert aliases[p] in init;
      assert Lookup(u, aliases[p]) == Some(name);
    }
    assert IndexOf(u, last).None? by {
      assert Lookup(u, last) == Lookup(t, last);
    }
    IndexOfFirst(Put(u, last, name), last, |u|);
    IndexOfPrefix(u, Put(u, last, name), aliases[p]);
  }

  /**
   * Aliases new to the table are inserted in the order they are listed: an
   * alias listed before another new one ends up at an earlier position, so
   * the alias scan tries it first.
   */
  lemma {:induction false} PutAllOrder(t: Table, name: string, aliases: seq<string>, p: nat, q: nat)
    requires p < q < |aliases|
    requires aliases[q] !in aliases[..q]
    requires IndexOf(t, aliases[p]).None? && IndexOf(t, aliases[q]).None?
    ensures var r := PutAll(t, name, aliases);
            IndexOf(r, aliases[p]).Some? && IndexOf(r, aliases[q]).Some?
            && IndexOf(r, aliases[p]).value < IndexOf(r, aliases[q]).value
    decreases |aliases|
  {
    if q == |aliases| - 1 {
      PutAllOrderLast(t, name, aliases, p);
    } else {
      var init := aliases[..|aliases| - 1];
      var u := PutAll(t, name, init);
      assert init[..q] == aliases[..q];
      PutAllOrder(t, name, init, p, q);
      IndexOfPrefix(u, PutAll(t, name, aliases), aliases[p]);
      IndexOfPrefix(u, PutAll(t, name, aliases), aliases[q]);
    }
  }

  /** What one line of the payees file is. */
  datatype LineKind =
    | Ignored                                          // blank, or a '#' comment
    | Malformed                                        // no ',' in it
    | Definition(name: string, aliases: seq<string>)   // name,alias1,alias2,...

  /** How the loader reads one line of the payees file. */
  function ClassifyAliasLine(raw: string): LineKind
  {
    var entry := Strip(raw);
    if StartsWith(entry, "#") then Ignored
    else if |entry| == 0 then Ignored
    else
      var data := Split(entry, ',');
      if |data| < 2 then Malformed
      else Definition(data[0], data[1..])
  }

  /** The table after the loader has read one line of the given kind. */
  function LoadLine(t: Table, kind: LineKind): Table
  {
    match kind
    case Definition(name, aliases) => PutAll(t, name, aliases)
    case _ => t
  }

  /** The table after the loader has read `lines`, starting from `t`. */
  function LoadTable(t: Table, lines: seq<string>): Table
    decreases |lines|
  {
    if |lines| == 0 then t
    else LoadLine(LoadTable(t, lines[..|lines| - 1]), ClassifyAliasLine(lines[|lines| - 1]))
  }

  /** The number of lines the loader rejects. */
  function RejectedLines(lines: seq<string>): nat
    decreases |lines|
  {
    if |lines| == 0 then 0
    else
      RejectedLines(lines[..|lines| - 1])
      + (if ClassifyAliasLine(lines[|lines| - 1]) == Malformed then 1 else 0)
  }

  /** A line is skipped exactly when, once stripped, it is blank or starts with '#'. */
  lemma IgnoredIffBlankOrComment(raw: string)
    ensures ClassifyAliasLine(raw) == Ignored <==> (var e := Strip(raw); e == "" || e[0] == '#')
  {
    var e := Strip(raw);
    if e != "" && e[0] == '#' {
      assert e[..1] == "#";
    }
  }

  /**
   * A line is rejected exactly when, once stripped, it is neither blank nor
   * a comment and holds no comma.
   */
  lemma MalformedIffNoComma(raw: string)
    ensures ClassifyAliasLine(raw) == Malformed
            <==> (var e := Strip(raw); e != "" && e[0] != '#' && ',' !in e)
  {
    var e := Strip(raw);
    if e != "" && e[0] != '#' {
      assert !StartsWith(e, "#");
      if ',' in e {
        SplitWithSeparator(e, ',');
      } else {
        SplitWithoutSeparator(e, ',');
      }
    }
  }

  /**
   * A definition line is its name and aliases joined back with commas; no
   * part holds a comma and there is at least one alias.
   */
  lemma DefinitionRoundTrip(raw: string, name: string, aliases: seq<string>)
    requires ClassifyAliasLine(raw) == Definition(name, aliases)
    ensures Join(",", [name] + aliases) == Strip(raw)
    ensures |aliases| >= 1 && ',' !in name
    ensures forall i :: 0 <= i < |aliases| ==> ',' !in aliases[i]
  {
    var data := Split(Strip(raw), ',');
    JoinSplit(Strip(raw), ',');
    assert [name] + aliases == data;
  }

  /**
   * Loading never moves a key of the starting table; keys inserted by the
   * file itself stay put too (InsertedKeysStay).
   */
  lemma {:induction false} LoadKeepsPositions(t: Table, lines: seq<string>)
    ensures |LoadTable(t, lines)| >= |t|
    ensures forall i :: 0 <= i < |t| ==> LoadTable(t, lines)[i].alias == t[i].alias
    ensures Distinct(t) ==> Distinct(LoadTable(t, lines))
    decreases |lines|
  {
    if |lines| > 0 {
      LoadKeepsPositions(t, lines[..|lines| - 1]);
    }
  }

  /**
   * The line read last decides: every alias it lists maps to its name, and
   * every other alias keeps the value it had before.
   */
  lemma LastDefinitionWins(t: Table, lines: seq<string>, line: string, name: string, aliases: seq<string>)
    requires ClassifyAliasLine(line) == Definition(name, aliases)
    ensures forall a :: a in aliases ==> Lookup(LoadTable(t, lines + [line]), a) == Some(name)
    ensures forall b :: b !in aliases ==>
              Lookup(LoadTable(t, lines + [line]), b) == Lookup(LoadTable(t, lines), b)
  {
    assert (lines + [line])[..|lines|] == lines;
  }

  /** A line that does not list alias `a` leaves its lookup alone. */
  lemma LoadLineKeepsUnlisted(u: Table, line: string, a: string)
    requires !(ClassifyAliasLine(line).Definition? && a in ClassifyAliasLine(line).aliases)
    ensures Lookup(LoadLine(u, ClassifyAliasLine(line)), a) == Lookup(u, a)
  {
  }

  /**
   * The last line that lists an alias decides it, whatever lines follow:
   * later lines that do not list it leave its value alone.
   */
  lemma {:induction false} LastListingWins(t: Table, pre: seq<string>, line: string, post: seq<string>, a: string)
    requires ClassifyAliasLine(line).Definition? && a in ClassifyAliasLine(line).aliases
    requires forall k :: 0 <= k < |post| ==>
               !(ClassifyAliasLine(post[k]).Definition? && a in ClassifyAliasLine(post[k]).aliases)
    ensures Lookup(LoadTable(t, pre + [line] + post), a) == Some(ClassifyAliasLine(line).name)
    decreases |post|
  {
    if |post| == 0 {
      var kind := ClassifyAliasLine(line);
      assert pre + [line] + post == pre + [line];
      LastDefinitionWins(t, pre, line, kind.name, kind.aliases);
    } else {
      var init, last := post[..|post| - 1], post[|post| - 1];
      var prev := pre + [line] + init;
      assert LoadTable(t, pre + [line] + post) == LoadLine(LoadTable(t, prev), ClassifyAliasLine(last)) by {
        assert pre + [line] + post == prev + [last];
        assert (prev + [last])[..|prev|] == prev;
      }
      LoadLineKeepsUnlisted(LoadTable(t, prev), last, a);
      assert forall k :: 0 <= k < |init| ==> init[k] == post[k];
      LastListingWins(t, pre, line, init, a);
    }
  }

  /** Blank lines, comments and rejected lines leave the table as it was. */
  lemma NonDefinitionKeepsTable(t: Table, lines: seq<string>, line: string)
    requires !ClassifyAliasLine(line).Definition?
    ensures LoadTable(t, lines + [line]) == LoadTable(t, lines)
    ensures RejectedLines(lines + [line])
            == RejectedLines(lines) + (if ClassifyAliasLine(line) == Malformed then 1 else 0)
  {
    assert (lines + [line])[..|lines|] == lines;
  }

  /**
   * Two lines with no alias in common can be read in either order: every
   * alias then resolves to the same name.
   */
  lemma DisjointLinesCommute(t: Table, l1: string, l2: string, a: string)
    requires ClassifyAliasLine(l1).Definition? && ClassifyAliasLine(l2).Definition?
    requires forall x :: x in ClassifyAliasLine(l1).aliases ==> x !in ClassifyAliasLine(l2).aliases
    ensures Lookup(LoadTable(t, [l1, l2]), a) == Lookup(LoadTable(t, [l2, l1]), a)
  {
    var k1, k2 := ClassifyAliasLine(l1), ClassifyAliasLine(l2);
    LoadTwoLines(t, l1, l2);
    LoadTwoLines(t, l2, l1);
    PutAllCommute(t, k1.name, k1.aliases, k2.name, k2.aliases, a);
  }

  /** Reading two lines is reading the first, then the second. */
  lemma LoadTwoLines(t: Table, l1: string, l2: string)
    ensures LoadTable(t, [l1, l2]) == LoadLine(LoadLine(t, ClassifyAliasLine(l1)), ClassifyAliasLine(l2))
  {
    assert [l1, l2][..1] == [l1];
    assert [l1][..0] == [];
    assert LoadTable(t, [l1]) == LoadLine(t, ClassifyAliasLine(l1));
  }

  /** Two definitions with no alias in common can be loaded in either order. */
  lemma PutAllCommute(t: Table, n1: string, a1: seq<string>, n2: string, a2: seq<string>, a: string)
    requires forall x :: x in a1 ==> x !in a2
    ensures Lookup(PutAll(PutAll(t, n1, a1), n2, a2), a) == Lookup(PutAll(PutAll(t, n2, a2), n1, a1), a)
  {
  }

  /** Reading `a` then `b` is reading `b` into the table `a` left. */
  lemma {:induction false} LoadTableAppend(t: Table, a: seq<string>, b: seq<string>)
    ensures LoadTable(t, a + b) == LoadTable(LoadTable(t, a), b)
    decreases |b|
  {
    if |b| == 0 {
      assert a + b == a;
    } else {
      var init := b[..|b| - 1];
      assert (a + b)[..|a + b| - 1] == a + init;
      assert (a + b)[|a + b| - 1] == b[|b| - 1];
      LoadTableAppend(t, a, init);
    }
  }

  /**
   * A key the file inserts at some point keeps that position to the end of
   * the file, and keys stay unique.
   */
  lemma InsertedKeysStay(t: Table, a: seq<string>, b: seq<string>)
    ensures |LoadTable(t, a + b)| >= |LoadTable(t, a)|
    ensures forall i :: 0 <= i < |LoadTable(t, a)| ==> LoadTable(t, a + b)[i].alias == LoadTable(t, a)[i].alias
    ensures Distinct(t) ==> Distinct(LoadTable(t, a + b))
  {
    LoadTableAppend(t, a, b);
    LoadKeepsPositions(t, a);
    LoadKeepsPositions(LoadTable(t, a), b);
  }

  /** Tables that agree on every lookup still agree after reading the same lines. */
  lemma {:induction false} LoadTableCongruent(u: Table, v: Table, lines: seq<string>)
    requires forall x :: Lookup(u, x) == Lookup(v, x)
    ensures forall x :: Lookup(LoadTable(u, lines), x) == Lookup(LoadTable(v, lines), x)
    decreases |lines|
  {
    if |lines| > 0 {
      var init := lines[..|lines| - 1];
      LoadTableCongruent(u, v, init);
      match ClassifyAliasLine(lines[|lines| - 1])
      case Definition(name, aliases) =>
        var pu, pv := PutAll(LoadTable(u, init), name, aliases), PutAll(LoadTable(v, init), name, aliases);
        assert forall x :: Lookup(pu, x) == Lookup(pv, x) by {
          forall x ensures Lookup(pu, x) == Lookup(pv, x) {
            if x !in aliases {
              assert Lookup(pu, x) == Lookup(LoadTable(u, init), x);
            }
          }
        }
      case _ =>
    }
  }

  /**
   * Anywhere in the file, two adjacent definition lines with no alias in
   * common can be swapped without changing any lookup.
   */
  lemma SwapDisjointLines(t: Table, pre: seq<string>, l1: string, l2: string, post: seq<string>)
    requires ClassifyAliasLine(l1).Definition? && ClassifyAliasLine(l2).Definition?
    requires forall x :: x in ClassifyAliasLine(l1).aliases ==> x !in ClassifyAliasLine(l2).aliases
    ensures forall a :: Lookup(LoadTable(t, pre + [l1, l2] + post), a) == Lookup(LoadTable(t, pre + [l2, l1] + post), a)
  {
    var s := LoadTable(t, pre);
    LoadTableAppend(t, pre, [l1, l2]);
    LoadTableAppend(t, pre, [l2, l1]);
    LoadTableAppend(t, pre + [l1, l2], post);
    LoadTableAppend(t, pre + [l2, l1], post);
    forall a ensures Lookup(LoadTable(s, [l1, l2]), a) == Lookup(LoadTable(s, [l2, l1]), a) {
      DisjointLinesCommute(s, l1, l2, a);
    }
    LoadTableCongruent(LoadTable(s, [l1, l2]), LoadTable(s, [l2, l1]), post);
  }

}
