/**
 * The cleaning run: the payees file fills the alias table, then every row
 * of the statement is routed, resolved and written to the cleaned output,
 * with the unresolved rows counted and optionally listed in a second sink.
 *
 * The rows arrive already split into fields; each output sink is the
 * sequence of records written to it, one record per row.
 */
module Cleaner {
  import opened Common
  import opened Text
  import opened Payees
  import opened Resolver
  import opened Console

  /** The record of one statement row in the cleaned output. */
  function FormatLine(date: string, payee: string, desc: string, lost: string, gained: string, unknown: string): string
  {
    date + ";" + payee + ";" + desc + ";" + lost + ";" + gained + ";" + unknown + ";" + "\n"
  }

  /** The record of one unresolved row in the missing-payees sink. */
  function MissingLine(date: string, desc: string): string
  {
    date + ";" + desc + ";" + "\n"
  }

  /** What the row loop does with one row. */
  datatype RowEffect =
    | Skip                                        // no field at all
    | Reject                                      // not five fields: a warning
    | Crash(error: ResolveError)                  // the resolver fails on the description
    | Emit(line: string, missed: Option<string>)  // the record, and the missing-payee record

  function RowEffectOf(t: Table, row: seq<string>): RowEffect
  {
    if |row| == 0 then Skip
    else if |row| != 5 then Reject
    else
      match Payee(row[1], t)
      case Err(e) => Crash(e)
      case Ok(res) =>
        Emit(FormatLine(row[0], res.payee, row[1], row[2], row[3], row[4]),
             if res.found then None else Some(MissingLine(row[0], row[1])))
  }

  /** The effect of every row, in input order. */
  function EffectsOf(t: Table, rows: seq<seq<string>>): seq<RowEffect>
  {
    seq(|rows|, k requires 0 <= k < |rows| => RowEffectOf(t, rows[k]))
  }

  /** Where the loop stops: at the first row the resolver fails on, or after the last row. */
  function Reached(effects: seq<RowEffect>): (n: nat)
    ensures n <= |effects|
    ensures forall j :: 0 <= j < n ==> !effects[j].Crash?
    ensures n < |effects| ==> effects[n].Crash?
    decreases |effects|
  {
    if |effects| == 0 || effects[0].Crash? then 0
    else 1 + Reached(effects[1..])
  }

  /** How a run over the rows ends. */
  datatype RunOutcome = Completed | Aborted(row: nat, error: ResolveError)

  function OutcomeOf(effects: seq<RowEffect>): RunOutcome
  {
    var n := Reached(effects);
    if n == |effects| then Completed else Aborted(n, effects[n].error)
  }

  /** The records the effects add to the cleaned output. */
  function Emitted(effects: seq<RowEffect>): seq<string>
    decreases |effects|
  {
    if |effects| == 0 then []
    else
      Emitted(effects[..|effects| - 1])
      + match effects[|effects| - 1]
        case Emit(line, _) => [line]
        case _ => []
  }

  /** The records the effects add to the missing-payees sink. */
  function Missed(effects: seq<RowEffect>): seq<string>
    decreases |effects|
  {
    if |effects| == 0 then []
    else
      Missed(effects[..|effects| - 1])
      + match effects[|effects| - 1]
        case Emit(_, Some(m)) => [m]
        case _ => []
  }

  /** How many rows keep an unknown payee. */
  function UnknownCount(effects: seq<RowEffect>): nat
    decreases |effects|
  {
    if |effects| == 0 then 0
    else
      UnknownCount(effects[..|effects| - 1])
      + match effects[|effects| - 1]
        case Emit(_, Some(_)) => 1
        case _ => 0
  }

  /** How many rows draw a warning. */
  function Warned(effects: seq<RowEffect>): nat
    decreases |effects|
  {
    if |effects| == 0 then 0
    else Warned(effects[..|effects| - 1]) + (if effects[|effects| - 1].Reject? then 1 else 0)
  }

  /** How many rows have a field count other than zero and five. */
  function RejectedRows(rows: seq<seq<string>>): nat
    decreases |rows|
  {
    if |rows| == 0 then 0
    else
      var last := rows[|rows| - 1];
      RejectedRows(rows[..|rows| - 1]) + (if |last| != 0 && |last| != 5 then 1 else 0)
  }

  /** A sink that exists receives the records; an absent one stays absent. */
  function Append(sink: Option<seq<string>>, records: seq<string>): (r: Option<seq<string>>)
    ensures sink.Some? ==> r == Some(sink.value + records)
    ensures sink.None? ==> r == None
    ensures records == [] ==> r == sink
  {
    match sink
    case Some(s) =>
      assert records == [] ==> s + records == s;
      Some(s + records)
    case None => None
  }

  /** The two sinks and the three counters a run updates. */
  datatype Tally = Tally(output: seq<string>, missing: Option<seq<string>>, unknownPayees: nat, warnings: nat, errors: nat)

  /** What one row's effect does to the sinks and counters. */
  function Step(e: Tally, effect: RowEffect): Tally
  {
    match effect
    case Reject => e.(warnings := e.warnings + 1)
    case Emit(line, None) => e.(output := e.output + [line])
    case Emit(line, Some(m)) =>
      e.(output := e.output + [line], missing := Append(e.missing, [m]), unknownPayees := e.unknownPayees + 1)
    case _ => e
  }

  /** The row effects, one after the other, starting from `e`. */
  function Run(e: Tally, effects: seq<RowEffect>): Tally
    decreases |effects|
  {
    if |effects| == 0 then e
    else Step(Run(e, effects[..|effects| - 1]), effects[|effects| - 1])
  }

  /** The five-field rows, in input order. */
  function Accepted(rows: seq<seq<string>>): (r: seq<seq<string>>)
    ensures forall k :: 0 <= k < |r| ==> |r[k]| == 5
    decreases |rows|
  {
    if |rows| == 0 then []
    else
      var last := rows[|rows| - 1];
      Accepted(rows[..|rows| - 1]) + (if |last| == 5 then [last] else [])
  }

  /** The five-field rows whose payee stays unknown, in input order. */
  function Unresolved(t: Table, rows: seq<seq<string>>): (r: seq<seq<string>>)
    ensures forall k :: 0 <= k < |r| ==> |r[k]| == 5
    decreases |rows|
  {
    if |rows| == 0 then []
    else
      var last := rows[|rows| - 1];
      Unresolved(t, rows[..|rows| - 1])
      + (if |last| == 5 && Payee(last[1], t).Ok? && !Payee(last[1], t).value.found then [last] else [])
  }

  /** The record an accepted row gets, read off the resolver. */
  ghost predicate RecordOf(t: Table, row: seq<string>, line: string)
    requires |row| == 5
  {
    var p := Payee(row[1], t);
    p.Ok? && line == FormatLine(row[0], p.value.payee, row[1], row[2], row[3], row[4])
  }

  /**
   * The script's state: the alias table, the two sinks, the unknown-payee
   * counter and the console whose counters the diagnostics raise.
   */
  class Cleaner {
    var payees: Table
    var output: seq<string>
    var missing: Option<seq<string>>
    var unknownPayees: nat
    const console: ConsoleOut

    /** Aliases are unique, and the sinks agree with the unknown-payee counter. */
    ghost predicate Valid()
      reads this
    {
      Distinct(payees) && SinksAgree()
    }

    /** The missing sink holds one record per unknown payee, each also in the output. */
    ghost predicate SinksAgree()
      reads this
    {
      unknownPayees <= |output| && (missing.Some? ==> |missing.value| == unknownPayees)
    }

    /** The sinks and the counters. */
    ghost function Current(): Tally
      reads this, console
    {
      Tally(output, missing, unknownPayees, console.warnings, console.errors)
    }

    /** An empty table and empty sinks; the missing sink exists when it is asked for. */
    constructor (console: ConsoleOut, storeMissing: bool)
      ensures Valid()
      ensures this.console == console
      ensures payees == [] && output == [] && unknownPayees == 0
      ensures missing == (if storeMissing then Some([]) else None)
    {
      this.console := console;
      payees := [];
      output := [];
      unknownPayees := 0;
      missing := if storeMissing then Some([]) else None;
    }

    /** Reads one line of the payees file. */
    method LoadAliasLine(raw: string)
      requires Valid()
      modifies this, console
      ensures Valid()
      ensures payees == LoadLine(old(payees), ClassifyAliasLine(raw))
      ensures console.errors == old(console.errors) + (if ClassifyAliasLine(raw) == Malformed then 1 else 0)
      ensures console.warnings == old(console.warnings)
      ensures output == old(output) && missing == old(missing) && unknownPayees == old(unknownPayees)
    {
      ghost var kind := ClassifyAliasLine(raw);
      var entry := Strip(raw);
      if StartsWith(entry, "#") {
        assert kind == Ignored;
        return;
      }
      if |entry| == 0 {
        assert kind == Ignored;
        return;
      }
      var data := Split(entry, ',');
      if |data| < 2 {
        assert kind == Malformed;
        console.Error();
        return;
      }
      assert kind == Definition(data[0], data[1..]);
      AddAliases(data[0], data[1..]);
    }

    /** `for alias in aliases: payees[alias] = name`. */
    method AddAliases(name: string, aliases: seq<string>)
      requires Valid()
      modifies this
      ensures Valid()
      ensures payees == PutAll(old(payees), name, aliases)
      ensures output == old(output) && missing == old(missing) && unknownPayees == old(unknownPayees)
    {
      ghost var t := payees;
      var k := 0;
      while k < |aliases|
        invariant 0 <= k <= |aliases|
        invariant payees == PutAll(t, name, aliases[..k])
        invariant output == old(output) && missing == old(missing) && unknownPayees == old(unknownPayees)
        decreases |aliases| - k
      {
        assert aliases[..k + 1][..k] == aliases[..k];
        payees := Put(payees, aliases[k], name);
        k := k + 1;
      }
      assert aliases[..k] == aliases;
    }

    /** Reads the payees file, line by line. */
    method LoadAliases(lines: seq<string>)
      requires Valid()
      modifies this, console
      ensures Valid()
      ensures payees == LoadTable(old(payees), lines)
      ensures console.errors == old(console.errors) + RejectedLines(lines)
      ensures console.warnings == old(console.warnings)
      ensures output == old(output) && missing == old(missing) && unknownPayees == old(unknownPayees)
    {
      var i := 0;
      while i < |lines|
        invariant 0 <= i <= |lines|
        invariant Valid()
        invariant payees == LoadTable(old(payees), lines[..i])
        invariant console.errors == old(console.errors) + RejectedLines(lines[..i])
        invariant console.warnings == old(console.warnings)
        invariant output == old(output) && missing == old(missing) && unknownPayees == old(unknownPayees)
        decreases |lines| - i
      {
        assert lines[..i + 1][..i] == lines[..i];
        LoadAliasLine(lines[i]);
        i := i + 1;
      }
      assert lines[..i] == lines;
    }

    /** Routes, resolves and writes one row; reports the failure that ends the run. */
    method ProcessRow(row: seq<string>) returns (crash: Option<ResolveError>)
      requires Valid()
      modifies this, console
      ensures Valid()
      ensures payees == old(payees)
      ensures crash == (if RowEffectOf(payees, row).Crash? then Some(RowEffectOf(payees, row).error) else None)
      ensures Current() == Step(old(Current()), RowEffectOf(payees, row))
    {
      if |row| == 0 {
        return None;
      }
      if |row| != 5 {
        console.Warning();
        return None;
      }
      var date, desc, lost, gained, unknown := row[0], row[1], row[2], row[3], row[4];
      var r := ResolvePayee(desc, payees);
      if r.Err? {
        return Some(r.error);
      }
      var payee, found := r.value.payee, r.value.found;
      assert RowEffectOf(payees, row)
             == Emit(FormatLine(date, payee, desc, lost, gained, unknown),
                     if found then None else Some(MissingLine(date, desc)));
      output := output + [FormatLine(date, payee, desc, lost, gained, unknown)];
      if !found {
        unknownPayees := unknownPayees + 1;
        if missing.Some? {
          missing := Some(missing.value + [MissingLine(date, desc)]);
        }
      }
      return None;
    }

    /** The row loop: every row in order, up to the first one the resolver fails on. */
    method ProcessRows(rows: seq<seq<string>>) returns (outcome: RunOutcome)
      requires Valid()
      modifies this, console
      ensures Valid()
      ensures payees == old(payees)
      ensures var effects := EffectsOf(payees, rows);
              outcome == OutcomeOf(effects) && Current() == Run(old(Current()), effects[..Reached(effects)])
    {
      ghost var start, t := Current(), payees;
      ghost var effects := EffectsOf(t, rows);
      var i := 0;
      while i < |rows|
        invariant 0 <= i <= |rows|
        invariant Valid()
        invariant payees == t
        invariant forall j :: 0 <= j < i ==> !effects[j].Crash?
        invariant Current() == Run(start, effects[..i])
        decreases |rows| - i
      {
        ghost var before := Current();
        var crash := ProcessRow(rows[i]);
        assert crash == (if effects[i].Crash? then Some(effects[i].error) else None)
               && Current() == Step(before, effects[i]) by {
          assert effects[i] == RowEffectOf(t, rows[i]);
        }
        if crash.Some? {
          ReachedAt(effects, i);
          return Aborted(i, crash.value);
        }
        RunSnoc(start, effects, i);
        i := i + 1;
      }
      assert Reached(effects) == |effects|;
      assert effects[..i] == effects;
      return Completed;
    }

    /** The closing warning, raised when some row kept an unknown payee. */
    method ReportUnknownPayees()
      modifies console
      ensures console.warnings == old(console.warnings) + (if unknownPayees > 0 then 1 else 0)
      ensures console.errors == old(console.errors)
    {
      if unknownPayees > 0 {
        console.Warning();
      }
    }
  }

  /** Everything a run leaves behind. */
  datatype Report = Report(
    output: seq<string>,
    missing: Option<seq<string>>,
    outcome: RunOutcome,
    unknownPayees: nat,
    errors: nat,
    warnings: nat)

  /**
   * A whole run: the payees file when there is one, the rows, and the
   * closing warning, which a failing row prevents.
   */
  method CleanStatement(aliasLines: Option<seq<string>>, rows: seq<seq<string>>, storeMissing: bool)
    returns (report: Report)
    ensures var lines := if aliasLines.Some? then aliasLines.value else [];
            var effects := EffectsOf(LoadTable([], lines), rows);
            var done := effects[..Reached(effects)];
            && report.outcome == OutcomeOf(effects)
            && report.output == Emitted(done)
            && report.missing == (if storeMissing then Some(Missed(done)) else None)
            && report.unknownPayees == UnknownCount(done)
            && report.errors == RejectedLines(lines)
            && report.warnings == Warned(done)
                                  + (if report.outcome.Completed? && report.unknownPayees > 0 then 1 else 0)
    ensures report.unknownPayees <= |report.output|
    ensures report.missing.Some? ==> |report.missing.value| == report.unknownPayees
  {
    ghost var lines := if aliasLines.Some? then aliasLines.value else [];
    assert LoadTable([], []) == [];
    var console := new ConsoleOut();
    var cleaner := new Cleaner(console, storeMissing);
    if aliasLines.Some? {
      cleaner.LoadAliases(aliasLines.value);
    }
    ghost var t, before := cleaner.payees, cleaner.Current();
    assert t == LoadTable([], lines);
    assert before == Tally([], if storeMissing then Some([]) else None, 0, 0, RejectedLines(lines));
    var outcome := cleaner.ProcessRows(rows);
    ghost var effects := EffectsOf(t, rows);
    FreshRun(effects[..Reached(effects)], storeMissing, RejectedLines(lines));
    if outcome.Completed? {
      cleaner.ReportUnknownPayees();
    }
    report := Report(cleaner.output, cleaner.missing, outcome, cleaner.unknownPayees,
                     console.errors, console.warnings);
  }

  // ---------------------------------------------------------------------
  // Lemmas
  // ---------------------------------------------------------------------

  /** Appending to a sink in two steps is appending everything at once. */
  lemma AppendTwice(sink: Option<seq<string>>, a: seq<string>, b: seq<string>)
    ensures Append(Append(sink, a), b) == Append(sink, a + b)
  {
    if sink.Some? {
      assert sink.value + a + b == sink.value + (a + b);
    }
  }

  /** Run row by row, the effects leave their records and counts in the sinks and counters. */
  lemma {:induction false} RunSinks(e: Tally, effects: seq<RowEffect>)
    ensures Run(e, effects)
            == Tally(e.output + Emitted(effects), Append(e.missing, Missed(effects)),
                     e.unknownPayees + UnknownCount(effects), e.warnings + Warned(effects), e.errors)
    decreases |effects|
  {
    if |effects| > 0 {
      var init := effects[..|effects| - 1];
      RunSinks(e, init);
      match effects[|effects| - 1]
      case Emit(line, Some(m)) =>
        AppendTwice(e.missing, Missed(init), [m]);
        assert e.output + Emitted(init) + [line] == e.output + (Emitted(init) + [line]);
      case Emit(line, None) =>
        assert e.output + Emitted(init) + [line] == e.output + (Emitted(init) + [line]);
        assert Missed(init) + [] == Missed(init);
      case _ =>
        assert Emitted(init) + [] == Emitted(init);
        assert Missed(init) + [] == Missed(init);
    }
  }

  /** From empty sinks, the effects leave exactly their own records and counts. */
  lemma FreshRun(effects: seq<RowEffect>, storeMissing: bool, errors: nat)
    ensures Run(Tally([], if storeMissing then Some([]) else None, 0, 0, errors), effects)
            == Tally(Emitted(effects), if storeMissing then Some(Missed(effects)) else None,
                     UnknownCount(effects), Warned(effects), errors)
  {
    RunSinks(Tally([], if storeMissing then Some([]) else None, 0, 0, errors), effects);
    assert [] + Emitted(effects) == Emitted(effects);
    assert [] + Missed(effects) == Missed(effects);
  }

  /** Running one more effect is one more step. */
  lemma RunSnoc(e: Tally, effects: seq<RowEffect>, i: nat)
    requires i < |effects|
    ensures Run(e, effects[..i + 1]) == Step(Run(e, effects[..i]), effects[i])
  {
    assert effects[..i + 1][..i] == effects[..i];
  }

  /** A run stops at the first crash. */
  lemma ReachedAt(effects: seq<RowEffect>, i: nat)
    requires i < |effects| && effects[i].Crash?
    requires forall j :: 0 <= j < i ==> !effects[j].Crash?
    ensures Reached(effects) == i && OutcomeOf(effects) == Aborted(i, effects[i].error)
  {
  }

  /** The effects of a longer run. */
  lemma EffectsOfSnoc(t: Table, rows: seq<seq<string>>, row: seq<string>)
    ensures EffectsOf(t, rows + [row]) == EffectsOf(t, rows) + [RowEffectOf(t, row)]
  {
    var long := rows + [row];
    assert forall k :: 0 <= k < |rows| ==> long[k] == rows[k];
  }

  /** The record's fields come back when it is split on ';'. */
  lemma FormatLineFields(date: string, payee: string, desc: string, lost: string, gained: string, unknown: string)
    requires ';' !in date && ';' !in payee && ';' !in desc
    requires ';' !in lost && ';' !in gained && ';' !in unknown
    ensures Split(FormatLine(date, payee, desc, lost, gained, unknown), ';')
            == [date, payee, desc, lost, gained, unknown, "\n"]
  {
    var tail5 := "\n";
    var tail4 := unknown + ";" + tail5;
    var tail3 := gained + ";" + tail4;
    var tail2 := lost + ";" + tail3;
    var tail1 := desc + ";" + tail2;
    var tail0 := payee + ";" + tail1;
    assert FormatLine(date, payee, desc, lost, gained, unknown) == date + ";" + tail0;
    SplitWithoutSeparator(tail5, ';');
    SplitAtFirstSeparator(unknown, ';', tail5);
    SplitAtFirstSeparator(gained, ';', tail4);
    SplitAtFirstSeparator(lost, ';', tail3);
    SplitAtFirstSeparator(desc, ';', tail2);
    SplitAtFirstSeparator(payee, ';', tail1);
    SplitAtFirstSeparator(date, ';', tail0);
  }

  /** The missing-payee record's fields come back when it is split on ';'. */
  lemma MissingLineFields(date: string, desc: string)
    requires ';' !in date && ';' !in desc
    ensures Split(MissingLine(date, desc), ';') == [date, desc, "\n"]
  {
    assert MissingLine(date, desc) == date + ";" + (desc + ";" + "\n");
    SplitWithoutSeparator("\n", ';');
    SplitAtFirstSeparator(desc, ';', "\n");
    SplitAtFirstSeparator(date, ';', desc + ";" + "\n");
  }

  /**
   * The warnings of the row loop count exactly the rows whose field count is
   * neither zero nor five; empty rows leave no trace.
   */
  lemma {:induction false} WarnedAreRejected(t: Table, rows: seq<seq<string>>)
    ensures Warned(EffectsOf(t, rows)) == RejectedRows(rows)
    decreases |rows|
  {
    if |rows| > 0 {
      var init, last := rows[..|rows| - 1], rows[|rows| - 1];
      WarnedAreRejected(t, init);
      assert rows == init + [last];
      EffectsOfSnoc(t, init, last);
      assert EffectsOf(t, rows)[..|rows| - 1] == EffectsOf(t, init);
    }
  }

  /**
   * Without a failing row, the cleaned output holds exactly one record per
   * five-field row, in input order, each formatted from the row's fields and
   * its resolved payee.
   */
  lemma {:induction false} EmittedFollowsAccepted(t: Table, rows: seq<seq<string>>)
    requires forall j :: 0 <= j < |rows| ==> !RowEffectOf(t, rows[j]).Crash?
    ensures |Emitted(EffectsOf(t, rows))| == |Accepted(rows)|
    ensures forall k :: 0 <= k < |Accepted(rows)| ==> RecordOf(t, Accepted(rows)[k], Emitted(EffectsOf(t, rows))[k])
    decreases |rows|
  {
    if |rows| > 0 {
      var init, last := rows[..|rows| - 1], rows[|rows| - 1];
      assert rows == init + [last];
      EmittedFollowsAccepted(t, init);
      EffectsOfSnoc(t, init, last);
      var effects := EffectsOf(t, rows);
      assert effects[..|rows| - 1] == EffectsOf(t, init);
      var a, e := Accepted(init), Emitted(EffectsOf(t, init));
      if |last| == 5 {
        assert !RowEffectOf(t, last).Crash?;
        assert Accepted(rows) == a + [last];
        assert Emitted(effects) == e + [RowEffectOf(t, last).line];
        assert RecordOf(t, last, Emitted(effects)[|e|]);
        assert forall k :: 0 <= k < |a| ==> Accepted(rows)[k] == a[k] && Emitted(effects)[k] == e[k];
      } else {
        assert Emitted(effects) == e;
      }
    }
  }

  /**
   * Without a failing row, the missing-payees sink receives exactly one
   * `date;desc;` record per five-field row left unresolved, in input order,
   * and the unknown-payee counter is their number.
   */
  lemma {:induction false} MissedFollowsUnresolved(t: Table, rows: seq<seq<string>>)
    requires forall j :: 0 <= j < |rows| ==> !RowEffectOf(t, rows[j]).Crash?
    ensures UnknownCount(EffectsOf(t, rows)) == |Missed(EffectsOf(t, rows))| == |Unresolved(t, rows)|
    ensures forall k :: 0 <= k < |Unresolved(t, rows)| ==>
              Missed(EffectsOf(t, rows))[k] == MissingLine(Unresolved(t, rows)[k][0], Unresolved(t, rows)[k][1])
    decreases |rows|
  {
    if |rows| > 0 {
      var init, last := rows[..|rows| - 1], rows[|rows| - 1];
      assert rows == init + [last];
      MissedFollowsUnresolved(t, init);
      EffectsOfSnoc(t, init, last);
      var effects := EffectsOf(t, rows);
      assert effects[..|rows| - 1] == EffectsOf(t, init);
      var u, m := Unresolved(t, init), Missed(EffectsOf(t, init));
      if |last| == 5 && Payee(last[1], t).Ok? && !Payee(last[1], t).value.found {
        assert Unresolved(t, rows) == u + [last];
        assert Missed(effects) == m + [MissingLine(last[0], last[1])];
        assert forall k :: 0 <= k < |u| ==> Unresolved(t, rows)[k] == u[k] && Missed(effects)[k] == m[k];
      } else {
        assert Unresolved(t, rows) == u;
        assert Missed(effects) == m;
      }
    }
  }

  /** Each unknown payee has one missing-payee record and one output record. */
  lemma {:induction false} UnknownAtMostEmitted(effects: seq<RowEffect>)
    ensures UnknownCount(effects) == |Missed(effects)| <= |Emitted(effects)|
    decreases |effects|
  {
    if |effects| > 0 {
      UnknownAtMostEmitted(effects[..|effects| - 1]);
    }
  }

  /** Rows that all name a payee leave no missing-payee record. */
  lemma {:induction false} NothingMissed(effects: seq<RowEffect>)
    requires forall k :: 0 <= k < |effects| ==> !(effects[k].Emit? && effects[k].missed.Some?)
    ensures UnknownCount(effects) == 0 && Missed(effects) == []
    decreases |effects|
  {
    if |effects| > 0 {
      NothingMissed(effects[..|effects| - 1]);
    }
  }

  /**
   * Once the table holds the empty alias (a payees line such as `Name,`),
   * every row that reaches the resolver gets a payee: nothing is unknown and
   * nothing goes to the missing-payees sink.
   */
  lemma EmptyAliasLeavesNothingUnknown(t: Table, rows: seq<seq<string>>)
    requires IndexOf(t, "").Some?
    ensures UnknownCount(EffectsOf(t, rows)) == 0 && Missed(EffectsOf(t, rows)) == []
  {
    var effects := EffectsOf(t, rows);
    forall k | 0 <= k < |effects| ensures !(effects[k].Emit? && effects[k].missed.Some?) {
      var row := rows[k];
      if |row| == 5 && Payee(row[1], t).Ok? && DescriptionLines(row[1])[0] != CardHeader {
        EmptyAliasResolvesAll(row[1], t);
      }
    }
    NothingMissed(effects);
  }

  /** The effects of the first `n` rows are the first `n` effects. */
  lemma EffectsOfPrefix(t: Table, rows: seq<seq<string>>, n: nat)
    requires n <= |rows|
    ensures EffectsOf(t, rows)[..n] == EffectsOf(t, rows[..n])
  {
    assert forall k :: 0 <= k < n ==> rows[..n][k] == rows[k];
  }

  /**
   * Whether the run completes or stops at a failing row, the records written
   * are those of the rows it got through: one output record per five-field
   * row, in input order, and one missing-payee record per unresolved row.
   */
  lemma RecordsOfRowsRun(t: Table, rows: seq<seq<string>>)
    ensures var effects := EffectsOf(t, rows);
            var n := Reached(effects);
            var done, through := effects[..n], rows[..n];
            && |Emitted(done)| == |Accepted(through)|
            && (forall k :: 0 <= k < |Accepted(through)| ==> RecordOf(t, Accepted(through)[k], Emitted(done)[k]))
            && UnknownCount(done) == |Missed(done)| == |Unresolved(t, through)|
            && (forall k :: 0 <= k < |Unresolved(t, through)| ==>
                  Missed(done)[k] == MissingLine(Unresolved(t, through)[k][0], Unresolved(t, through)[k][1]))
  {
    var effects := EffectsOf(t, rows);
    var n := Reached(effects);
    EffectsOfPrefix(t, rows, n);
    var through := rows[..n];
    assert forall j :: 0 <= j < |through| ==> !RowEffectOf(t, through[j]).Crash? by {
      forall j | 0 <= j < |through| ensures !RowEffectOf(t, through[j]).Crash? {
        assert EffectsOf(t, through)[j] == effects[j];
      }
    }
    EmittedFollowsAccepted(t, through);
    MissedFollowsUnresolved(t, through);
  }

  /**
   * A run that stops does so at a five-field row whose description the
   * resolver fails on, after the rows before it went through.
   */
  lemma AbortedAtFailingRow(t: Table, rows: seq<seq<string>>)
    requires OutcomeOf(EffectsOf(t, rows)).Aborted?
    ensures var n := OutcomeOf(EffectsOf(t, rows)).row;
            && n < |rows| && |rows[n]| == 5
            && Payee(rows[n][1], t) == Err(OutcomeOf(EffectsOf(t, rows)).error)
            && forall j :: 0 <= j < n ==> !RowEffectOf(t, rows[j]).Crash?
  {
    var effects := EffectsOf(t, rows);
    var n := Reached(effects);
    assert effects[n] == RowEffectOf(t, rows[n]);
    assert forall j :: 0 <= j < n ==> effects[j] == RowEffectOf(t, rows[j]);
  }

  /** A run without a failing row goes through every row. */
  lemma CompletedRunsAll(t: Table, rows: seq<seq<string>>)
    requires forall j :: 0 <= j < |rows| ==> !RowEffectOf(t, rows[j]).Crash?
    ensures var effects := EffectsOf(t, rows);
            OutcomeOf(effects) == Completed && effects[..Reached(effects)] == effects
  {
    var effects := EffectsOf(t, rows);
    assert forall j :: 0 <= j < |rows| ==> effects[j] == RowEffectOf(t, rows[j]);
    assert Reached(effects) == |effects|;
  }
}
