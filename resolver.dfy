/**
 * Payee resolution for one transaction description: the description is cut
 * into trimmed non-empty lines; a card payment takes its payee from the second
 * line; otherwise the first alias, in table order, found anywhere in the raw
 * description gives the payee; failing both, the description itself is the
 * payee and the transaction is unresolved.
 */
module Resolver {
  import opened Common
  import opened Text
  import opened Payees

  /** The first description line of a card payment. */
  const CardHeader: string := "PAIEMENT PAR CARTE"

  datatype Resolution = Resolution(payee: string, found: bool)

  /** The two inputs on which the resolver indexes past the end of its line list. */
  datatype ResolveError =
    | NoDescriptionLines   // the description has no non-blank line
    | NoCardDetailLine     // a card payment header with no line after it

  /** The pieces, each stripped, with those left empty removed, in order. */
  function CleanLines(pieces: seq<string>): (r: seq<string>)
    ensures |r| <= |pieces|
    decreases |pieces|
  {
    if |pieces| == 0 then []
    else
      var line := Strip(pieces[|pieces| - 1]);
      CleanLines(pieces[..|pieces| - 1]) + (if line == "" then [] else [line])
  }

  /** The description's lines as the resolver sees them. */
  function DescriptionLines(desc: string): seq<string>
  {
    CleanLines(Split(desc, '\n'))
  }

  /** Cleaning distributes over concatenation of the pieces. */
  lemma {:induction false} CleanLinesAppend(a: seq<string>, b: seq<string>)
    ensures CleanLines(a + b) == CleanLines(a) + CleanLines(b)
    decreases |b|
  {
    if |b| == 0 {
      assert a + b == a;
    } else {
      var init := b[..|b| - 1];
      var line := Strip(b[|b| - 1]);
      var tail := if line == "" then [] else [line];
      assert (a + b)[..|a + b| - 1] == a + init;
      assert (a + b)[|a + b| - 1] == b[|b| - 1];
      CleanLinesAppend(a, init);
      calc {
        CleanLines(a + b);
        CleanLines(a + init) + tail;
        CleanLines(a) + CleanLines(init) + tail;
        CleanLines(a) + (CleanLines(init) + tail);
        CleanLines(a) + CleanLines(b);
      }
    }
  }

  /** Every cleaned line is non-empty and has no surrounding whitespace. */
  lemma {:induction false} CleanLinesWellFormed(pieces: seq<string>)
    ensures forall i :: 0 <= i < |CleanLines(pieces)| ==>
              CleanLines(pieces)[i] != "" && IsStripped(CleanLines(pieces)[i])
    decreases |pieces|
  {
    if |pieces| > 0 {
      CleanLinesWellFormed(pieces[..|pieces| - 1]);
      StripSpec(pieces[|pieces| - 1]);
    }
  }

  /** Lines already stripped and non-empty are left as they are. */
  lemma {:induction false} CleanLinesOfClean(lines: seq<string>)
    requires forall i :: 0 <= i < |lines| ==> lines[i] != "" && IsStripped(lines[i])
    ensures CleanLines(lines) == lines
    decreases |lines|
  {
    if |lines| > 0 {
      var init := lines[..|lines| - 1];
      var last := lines[|lines| - 1];
      assert forall i :: 0 <= i < |init| ==> init[i] == lines[i];
      CleanLinesOfClean(init);
      StripStripped(last);
      assert CleanLines(lines) == CleanLines(init) + [last];
      assert init + [last] == lines;
    }
  }

  /** Normalising twice is normalising once. */
  lemma CleanLinesIdempotent(pieces: seq<string>)
    ensures CleanLines(CleanLines(pieces)) == CleanLines(pieces)
  {
    CleanLinesWellFormed(pieces);
    CleanLinesOfClean(CleanLines(pieces));
  }

  /** Every piece is whitespace only. */
  ghost predicate AllBlank(pieces: seq<string>)
  {
    forall i :: 0 <= i < |pieces| ==> AllSpace(pieces[i])
  }

  /** Cleaning removes every piece exactly when every piece is blank. */
  lemma {:induction false} CleanLinesEmptyIffBlank(pieces: seq<string>)
    ensures CleanLines(pieces) == [] <==> AllBlank(pieces)
    decreases |pieces|
  {
    if |pieces| > 0 {
      var init := pieces[..|pieces| - 1];
      CleanLinesEmptyIffBlank(init);
      StripEmptyIffSpace(pieces[|pieces| - 1]);
      assert forall i :: 0 <= i < |init| ==> init[i] == pieces[i];
    }
  }

  /** The pieces of a split are all blank exactly when the whole string is. */
  lemma {:induction false} SplitBlankIffBlank(s: string, sep: char)
    requires IsSpace(sep)
    ensures AllBlank(Split(s, sep)) <==> AllSpace(s)
    decreases |s|
  {
    if |s| > 0 {
      SplitBlankIffBlank(s[1..], sep);
      var rest := Split(s[1..], sep);
      var pieces := Split(s, sep);
      AllSpaceCons(s[0], s[1..]);
      assert [s[0]] + s[1..] == s;
      if s[0] != sep {
        AllSpaceCons(s[0], rest[0]);
        assert pieces[0] == [s[0]] + rest[0];
        assert forall i :: 1 <= i < |rest| ==> pieces[i] == rest[i];
      } else {
        assert pieces == [""] + rest;
        assert pieces[0] == "";
        assert forall i :: 1 <= i <= |rest| ==> pieces[i] == rest[i - 1];
        assert forall i :: 0 <= i < |rest| ==> rest[i] == pieces[i + 1];
      }
    }
  }

  /** A description has no line at all exactly when it is blank. */
  lemma NoLinesIffBlank(desc: string)
    ensures DescriptionLines(desc) == [] <==> AllSpace(desc)
  {
    CleanLinesEmptyIffBlank(Split(desc, '\n'));
    SplitBlankIffBlank(desc, '\n');
  }

  /** Cleaning one more piece adds its stripped form, unless that is empty. */
  lemma CleanLinesStep(pieces: seq<string>, j: nat)
    requires j < |pieces|
    ensures var line := Strip(pieces[j]);
            CleanLines(pieces[..j + 1]) == CleanLines(pieces[..j]) + (if line == "" then [] else [line])
  {
    assert pieces[..j + 1][..j] == pieces[..j];
  }

  /**
   * One pass of the normaliser's loop keeps the buffer as the cleaned pieces
   * read so far followed by the pieces not yet read.
   */
  lemma NormaliseStep(buffer: seq<string>, i: nat, pieces: seq<string>, j: nat)
    requires i < |buffer| && j < |pieces|
    requires buffer[..i] == CleanLines(pieces[..j]) && buffer[i..] == pieces[j..]
    ensures var line := Strip(buffer[i]);
            var next := buffer[i := line];
            if line == "" then
              (next[..i] + next[i + 1..])[..i] == CleanLines(pieces[..j + 1])
              && (next[..i] + next[i + 1..])[i..] == pieces[j + 1..]
            else
              next[..i + 1] == CleanLines(pieces[..j + 1]) && next[i + 1..] == pieces[j + 1..]
  {
    var line := Strip(buffer[i]);
    var next := buffer[i := line];
    assert buffer[i] == pieces[j] by { assert buffer[i..][0] == pieces[j..][0]; }
    assert buffer[i + 1..] == pieces[j + 1..] by { assert buffer[i + 1..] == buffer[i..][1..]; }
    CleanLinesStep(pieces, j);
    assert next[..i] == buffer[..i] && next[i + 1..] == buffer[i + 1..];
    if line != "" {
      assert next[..i + 1] == next[..i] + [line];
    }
  }

  /**
   * The description normaliser: split on newlines, then strip each piece in
   * place and delete those left empty.
   */
  method NormaliseDescription(desc: string) returns (buffer: seq<string>)
    ensures buffer == DescriptionLines(desc)
  {
    buffer := Split(desc, '\n');
    ghost var pieces := buffer;
    ghost var j := 0;
    var i := 0;
    while i < |buffer|
      invariant 0 <= i <= |buffer| && 0 <= j <= |pieces|
      invariant buffer[..i] == CleanLines(pieces[..j])
      invariant buffer[i..] == pieces[j..]
      decreases |buffer| - i
    {
      NormaliseStep(buffer, i, pieces, j);
      buffer := buffer[i := Strip(buffer[i])];
      if |buffer[i]| == 0 {
        buffer := buffer[..i] + buffer[i + 1..];
      } else {
        i := i + 1;
      }
      j := j + 1;
    }
    assert buffer == buffer[..i];
    assert pieces == pieces[..j];
  }

  /** Python's `data[1:len(data) - 1]`: every token but the first and the last. */
  function InnerTokens(tokens: seq<string>): seq<string>
  {
    if |tokens| <= 2 then [] else tokens[1..|tokens| - 1]
  }

  /** The merchant named on a card payment's detail line. */
  function CardPayee(detail: string): string
  {
    Strip(Join(" ", InnerTokens(Split(detail, ' '))))
  }

  /** The position of the first alias, in table order, that occurs in `desc`. */
  function FirstMatch(t: Table, desc: string): (r: Option<nat>)
    ensures r.Some? ==> r.value < |t| && Contains(desc, t[r.value].alias)
                        && forall j :: 0 <= j < r.value ==> !Contains(desc, t[j].alias)
    ensures r.None? ==> forall j :: 0 <= j < |t| ==> !Contains(desc, t[j].alias)
    decreases |t|
  {
    if |t| == 0 then None
    else if Contains(desc, t[0].alias) then Some(0)
    else
      match FirstMatch(t[1..], desc)
      case Some(k) => Some(k + 1)
      case None => None
  }

  /** What the resolver decides for `desc`, or the input on which it fails. */
  function Payee(desc: string, t: Table): Result<Resolution, ResolveError>
  {
    var lines := DescriptionLines(desc);
    if |lines| == 0 then Err(NoDescriptionLines)
    else if lines[0] == CardHeader then
      if |lines| < 2 then Err(NoCardDetailLine)
      else Ok(Resolution(CardPayee(lines[1]), true))
    else
      match FirstMatch(t, desc)
      case Some(i) => Ok(Resolution(t[i].payee, true))
      case None => Ok(Resolution(desc, false))
  }

  /** The resolver: the normaliser, the card rule, then the alias scan. */
  method ResolvePayee(desc: string, t: Table) returns (r: Result<Resolution, ResolveError>)
    ensures r == Payee(desc, t)
  {
    var buffer := NormaliseDescription(desc);
    var payee := desc;
    var found := false;
    if |buffer| == 0 {
      return Err(NoDescriptionLines);
    }
    if buffer[0] == CardHeader {
      if |buffer| < 2 {
        return Err(NoCardDetailLine);
      }
      var data := Split(buffer[1], ' ');
      payee := Strip(Join(" ", if |data| - 1 <= 1 then [] else data[1..|data| - 1]));
      found := true;
    } else {
      var k := 0;
      while k < |t|
        invariant 0 <= k <= |t|
        invariant forall j :: 0 <= j < k ==> !Contains(desc, t[j].alias)
        invariant payee == desc && !found
      {
        if Contains(desc, t[k].alias) {
          payee := t[k].payee;
          found := true;
          break;
        }
        k := k + 1;
      }
      assert found ==> FirstMatch(t, desc) == Some(k);
    }
    return Ok(Resolution(payee, found));
  }

  /**
   * The card rule: the payee comes from the second line alone, the table is
   * not consulted, the transaction counts as resolved, and a detail line of
   * fewer than three tokens gives the empty payee.
   */
  lemma CardRule(desc: string, t: Table)
    requires |DescriptionLines(desc)| >= 2 && DescriptionLines(desc)[0] == CardHeader
    ensures var tokens := Split(DescriptionLines(desc)[1], ' ');
            && Payee(desc, t).Ok? && Payee(desc, t).value.found
            && Payee(desc, t) == Payee(desc, [])
            && (|tokens| >= 3 ==> Payee(desc, t).value.payee == Strip(Join(" ", tokens[1..|tokens| - 1])))
            && (|tokens| < 3 ==> Payee(desc, t).value.payee == "")
  {
  }

  /** The alias rule: the first alias in table order found in the raw description wins. */
  lemma AliasRule(desc: string, t: Table, i: nat)
    requires |DescriptionLines(desc)| >= 1 && DescriptionLines(desc)[0] != CardHeader
    requires i < |t| && Contains(desc, t[i].alias)
    requires forall j :: 0 <= j < i ==> !Contains(desc, t[j].alias)
    ensures Payee(desc, t) == Ok(Resolution(t[i].payee, true))
  {
  }

  /** The default: with no card header and no alias found, the description is the payee. */
  lemma DefaultRule(desc: string, t: Table)
    requires |DescriptionLines(desc)| >= 1 && DescriptionLines(desc)[0] != CardHeader
    requires forall j :: 0 <= j < |t| ==> !Contains(desc, t[j].alias)
    ensures Payee(desc, t) == Ok(Resolution(desc, false))
  {
  }

  /**
   * The resolver fails exactly on a blank description and on a card header
   * standing alone; otherwise it resolves, and an unresolved payee is the
   * description itself.
   */
  lemma ResolveErrors(desc: string, t: Table)
    ensures Payee(desc, t) == Err(NoDescriptionLines) <==> AllSpace(desc)
    ensures Payee(desc, t) == Err(NoCardDetailLine) <==> DescriptionLines(desc) == [CardHeader]
    ensures Payee(desc, t).Ok? && !Payee(desc, t).value.found ==> Payee(desc, t).value.payee == desc
  {
    NoLinesIffBlank(desc);
  }

  /**
   * An empty alias (from a line such as `Name,`) occurs in every description,
   * so once it is in the table no description outside the card rule stays
   * unresolved.
   */
  lemma EmptyAliasResolvesAll(desc: string, t: Table)
    requires IndexOf(t, "").Some?
    requires Payee(desc, t).Ok? && DescriptionLines(desc)[0] != CardHeader
    ensures Payee(desc, t).value.found
  {
    EmptyIsSubstring(desc);
    assert t[IndexOf(t, "").value].alias == "";
  }

  /** The card header is a single non-empty line without surrounding blanks. */
  lemma CardHeaderIsOneCleanLine()
    ensures CardHeader != "" && IsStripped(CardHeader) && '\n' !in CardHeader
  {
    assert CardHeader[0] == 'P' && CardHeader[|CardHeader| - 1] == 'E';
  }

  /** A card header followed by one clean line describes exactly those two lines. */
  lemma CardDescriptionLines(detail: string)
    requires detail != "" && IsStripped(detail) && '\n' !in detail
    ensures DescriptionLines(CardHeader + "\n" + detail) == [CardHeader, detail]
  {
    CardHeaderIsOneCleanLine();
    SplitAtFirstSeparator(CardHeader, '\n', detail);
    SplitWithoutSeparator(detail, '\n');
    var lines := [CardHeader, detail];
    assert forall i :: 0 <= i < |lines| ==> lines[i] != "" && IsStripped(lines[i]) by {
      forall i | 0 <= i < |lines| ensures lines[i] != "" && IsStripped(lines[i]) {
        if i == 1 { assert lines[i] == detail; }
      }
    }
    CleanLinesOfClean(lines);
  }

  /** The merchant named by a detail line is its tokens without the first and the last. */
  lemma CardPayeeOfTokens(id: string, words: seq<string>, trail: string)
    requires |words| >= 1 && ' ' !in id && ' ' !in trail
    requires forall i :: 0 <= i < |words| ==> words[i] != "" && NoSpace(words[i])
    ensures CardPayee(Join(" ", [id] + words + [trail])) == Join(" ", words)
  {
    var tokens := [id] + words + [trail];
    SpacelessTokens(id, words, trail);
    SplitJoin(tokens, ' ');
    assert Split(Join(" ", tokens), ' ') == tokens;
    assert tokens[1..|tokens| - 1] == words;
    JoinTokensStripped(" ", words);
  }

  /** No token of the detail line holds a space. */
  lemma SpacelessTokens(id: string, words: seq<string>, trail: string)
    requires ' ' !in id && ' ' !in trail
    requires forall i :: 0 <= i < |words| ==> NoSpace(words[i])
    ensures var tokens := [id] + words + [trail];
            forall i :: 0 <= i < |tokens| ==> ' ' !in tokens[i]
  {
    var tokens := [id] + words + [trail];
    assert IsSpace(' ');
    forall i | 0 <= i < |tokens| ensures ' ' !in tokens[i] {
      if 0 < i < |tokens| - 1 {
        assert tokens[i] == words[i - 1];
      }
    }
  }

  lemma DetailTokens(id: string, words: seq<string>, trail: string)
    requires id != "" && NoSpace(id) && trail != "" && NoSpace(trail)
    requires forall i :: 0 <= i < |words| ==> words[i] != "" && NoSpace(words[i])
    ensures var tokens := [id] + words + [trail];
            forall i :: 0 <= i < |tokens| ==> tokens[i] != "" && NoSpace(tokens[i])
  {
    var tokens := [id] + words + [trail];
    forall i | 0 <= i < |tokens| ensures tokens[i] != "" && NoSpace(tokens[i]) {
      if 0 < i < |tokens| - 1 { assert tokens[i] == words[i - 1]; }
    }
  }

  /** A detail line made of blank-free tokens is one clean line. */
  lemma DetailLineIsClean(id: string, words: seq<string>, trail: string)
    requires id != "" && NoSpace(id) && trail != "" && NoSpace(trail)
    requires forall i :: 0 <= i < |words| ==> words[i] != "" && NoSpace(words[i])
    ensures var detail := Join(" ", [id] + words + [trail]);
            detail != "" && IsStripped(detail) && '\n' !in detail
  {
    var tokens := [id] + words + [trail];
    DetailTokens(id, words, trail);
    forall i | 0 <= i < |tokens| ensures '\n' !in tokens[i] {
      assert IsSpace('\n');
    }
    NotInJoin('\n', " ", tokens);
    JoinTokensStripped(" ", tokens);
  }

  /**
   * A card payment whose detail line is a card token, the merchant's words
   * and a trailing token, each a non-empty run of non-blank characters,
   * resolves to the merchant's words joined by single spaces: for instance
   * "PAIEMENT PAR CARTE\nXXXX MERCHANT NAME YYYY" names "MERCHANT NAME".
   */
  lemma CardPaymentNamesMerchant(id: string, words: seq<string>, trail: string, t: Table)
    requires |words| >= 1
    requires id != "" && NoSpace(id) && trail != "" && NoSpace(trail)
    requires forall i :: 0 <= i < |words| ==> words[i] != "" && NoSpace(words[i])
    ensures Payee(CardHeader + "\n" + Join(" ", [id] + words + [trail]), t)
            == Ok(Resolution(Join(" ", words), true))
  {
    var detail := Join(" ", [id] + words + [trail]);
    DetailLineIsClean(id, words, trail);
    CardDescriptionLines(detail);
    CardPayeeOfTokens(id, words, trail);
    assert DescriptionLines(CardHeader + "\n" + detail) == [CardHeader, detail];
  }
}
