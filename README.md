# ca-csv-cleaner: payee resolution, verified

`ca-csv-cleaner.py` turns a bank's CSV statement into a cleaned CSV file.
Each transaction row gets a payee. The payee comes from the card-payment
detail line, or from a user-supplied alias file that maps substrings of the
description to a canonical name. Rows whose payee stays unknown are counted
and, optionally, listed in a second file.

This project models that core in Dafny and proves properties of the model.
It covers:

- the alias loader;
- the description normaliser;
- the payee resolver;
- the row loop with its unknown-payee counter;
- the error and warning counters of `ConsoleOut`;
- the closing warning about unknown payees.

The model keeps the script's imperative shape:

- a `Cleaner` class holds the alias table, both output sinks and the
  unknown-payee counter;
- a `ConsoleOut` class holds the two diagnostic counters;
- the loader, the normaliser, the alias scan and the row loop are `while`
  loops.

Each method is proved against a specification function. The properties the
script promises are lemmas about those functions.

Modules, one file each:

- `common.dfy` (`Common`): `Option` and `Result`.
- `text.dfy` (`Text`): Python's `str.strip()` with the whitespace set of
  `str.isspace()`, `str.split(sep)`, `sep.join(parts)`, `startswith` and the
  substring test `in`. It also proves their laws: strip gives a stripped
  slice of its input, split and join are inverses, and `Contains` is
  substring occurrence.
- `payees.dfy` (`Payees`): the alias table and the loader's specification.
  - A Python dict iterates in insertion order, and assigning to an existing
    key keeps that key's position. So the table is an association list in
    insertion order, whose update replaces a value in place or appends a new
    key.
  - `ClassifyAliasLine` says what one line of the payees file is: ignored,
    malformed, or a definition `name,alias1,...`.
  - `LoadTable` is the table after a sequence of lines.
- `console.dfy` (`Console`): `ConsoleOut` with its `errors` and `warnings`
  counters.
- `resolver.dfy` (`Resolver`): the normaliser (`NormaliseDescription`, a
  loop that strips pieces in place and deletes the empty ones) and the
  resolver (`ResolvePayee`). Both are specified by `DescriptionLines` and
  `Payee`.
- `cleaner.dfy` (`Cleaner`): the script's state (`Cleaner`), the row loop
  and one whole run (`CleanStatement`).
  - Each row has an effect (`RowEffectOf`): it is skipped, rejected with a
    warning, makes the resolver fail, or emits a record and perhaps a
    missing-payee record.
  - The loop is proved to perform these effects in order, up to the first
    failing row.

Rows arrive already split into fields. Each output file is modelled as the
sequence of records written to it, one string per record, each ending in
`"\n"`. The payees file is the sequence of its lines, and `None` when no
payees file is given.

**Two inputs make the resolver crash.** `buffer[0]` at line 290 fails when
the description has no non-blank line. `buffer[1]` at line 291 fails when a
card-payment header has no line after it.

- In the script this `IndexError` is not caught, so the run stops there.
  The rows before it have been written, and the closing warning is never
  issued.
- The model returns `Err(NoDescriptionLines)` or `Err(NoCardDetailLine)`
  from the resolver. The row loop then stops with `Aborted(row, error)`,
  keeping what was written before; `CleanStatement` gives no closing
  warning in that case.
- Skipping the failing row and going on would be gentler; the script does
  not do that, and the model follows the script.

## Model

| member | source | states |
|---|---|---|
| Text.Split | ca-csv-cleaner.py:274 | `str.split(sep)` yields at least one piece, and no piece holds the separator |
| Text.IsSpace | ca-csv-cleaner.py:279 | definition of the whitespace set of `str.isspace()` that `strip()` removes: ASCII tab to carriage return, the separators 0x1C-0x1F, space, 0x85, 0xA0 and the Unicode space characters |
| Text.Strip | ca-csv-cleaner.py:279 | definition of `str.strip()` (also used at 219 and 292), as trimming whitespace on the left then on the right; specified by StripSpec and StripEmptyIffSpace |
| Text.Join | ca-csv-cleaner.py:292 | definition of `sep.join(parts)`; specified by JoinSplit and SplitJoin |
| Text.StartsWith | ca-csv-cleaner.py:221 | definition of `startswith`, as a sequence prefix; used by ClassifyAliasLine and specified through IgnoredIffBlankOrComment |
| Text.StripSpec | ca-csv-cleaner.py:279 | `strip()` gives a contiguous slice of its input, with no whitespace at either end |
| Text.StripEmptyIffSpace | ca-csv-cleaner.py:279-281 | a piece strips to the empty string exactly when it is all whitespace |
| Text.JoinSplit | ca-csv-cleaner.py:274 | joining the pieces of a split with the separator gives back the original string |
| Text.SplitJoin | ca-csv-cleaner.py:291-292 | splitting a join of separator-free parts gives back the parts |
| Text.Contains | ca-csv-cleaner.py:296 | the substring test `k in desc` holds exactly when `k` occurs in `desc` at some position |
| Text.EmptyIsSubstring | ca-csv-cleaner.py:296 | the empty alias occurs in every description |
| Payees.IndexOf | ca-csv-cleaner.py:239 | finds the first position holding a key, or reports that no position holds it |
| Payees.Put | ca-csv-cleaner.py:239 | `payees[alias] = name`: the alias maps to the name and every other key keeps its value; an existing key stays in its position, a new key is appended; keys stay unique |
| Payees.PutAll | ca-csv-cleaner.py:238-239 | after `for alias in data[1:]`, every listed alias maps to the name and every other key keeps its value; no key moves; keys stay unique; the order of new keys is stated by PutAllOrder |
| Payees.PutAllOrder | ca-csv-cleaner.py:238-239 | aliases new to the table are appended in the order the line lists them, so an earlier-listed alias gets the earlier position and is tried first by the scan at 295-299 |
| Payees.Lookup | ca-csv-cleaner.py:297 | definition of `payees[k]`: the value at the key's position, or none; specified through the contracts of IndexOf, Put and PutAll |
| Payees.ClassifyAliasLine | ca-csv-cleaner.py:219-236 | definition of how the loader reads one line: ignored, malformed or a definition; specified by IgnoredIffBlankOrComment, MalformedIffNoComma and DefinitionRoundTrip |
| Payees.LoadLine | ca-csv-cleaner.py:221-239 | definition of one line's effect on the table: a definition puts its aliases, any other line leaves the table; specified through PutAll and NonDefinitionKeepsTable |
| Payees.LoadTable | ca-csv-cleaner.py:218-246 | definition of the table after the whole file, line by line in file order; specified by LoadTableAppend, LoadKeepsPositions, InsertedKeysStay, LastDefinitionWins, LastListingWins, NonDefinitionKeepsTable, LoadTableCongruent and SwapDisjointLines |
| Payees.RejectedLines | ca-csv-cleaner.py:229-236 | definition of the number of lines the loader reports as errors; specified by MalformedIffNoComma and NonDefinitionKeepsTable, and tied to the error counter by LoadAliases |
| Payees.IgnoredIffBlankOrComment | ca-csv-cleaner.py:219-225 | a line is skipped exactly when, once stripped, it is blank or starts with `#` |
| Payees.MalformedIffNoComma | ca-csv-cleaner.py:219-236 | a line is rejected exactly when, once stripped, it is neither blank nor a comment and holds no comma |
| Payees.DefinitionRoundTrip | ca-csv-cleaner.py:227 | a definition's name and aliases, joined back with commas, are the stripped line; there is at least one alias and no part holds a comma |
| Payees.NonDefinitionKeepsTable | ca-csv-cleaner.py:221-236 | a blank, comment or rejected line leaves the table unchanged, and only a rejected line adds one error |
| Payees.LastDefinitionWins | ca-csv-cleaner.py:238-239 | when the file's last line is a definition, its aliases map to its name, and every other alias keeps its value |
| Payees.LastListingWins | ca-csv-cleaner.py:218-239 | the last line that lists an alias decides its name, whatever lines follow that do not list it |
| Payees.LoadKeepsPositions | ca-csv-cleaner.py:218-246 | loading never moves a key of the starting table and keeps keys unique |
| Payees.LoadTableAppend | ca-csv-cleaner.py:218 | reading a file in two parts is reading the second part into the table the first part left |
| Payees.InsertedKeysStay | ca-csv-cleaner.py:238-239 | a key the file inserts at any line keeps its first-insertion position through the rest of the file, and keys stay unique |
| Payees.LoadTableCongruent | ca-csv-cleaner.py:218-246 | tables that agree on every lookup still agree after reading the same lines |
| Payees.PutAllCommute | ca-csv-cleaner.py:238-239 | two definitions with no alias in common give every alias the same value in either order |
| Payees.DisjointLinesCommute | ca-csv-cleaner.py:218-246 | a file of two definition lines with no alias in common gives the same lookups in either order |
| Payees.SwapDisjointLines | ca-csv-cleaner.py:218-246 | anywhere in a file, swapping two adjacent definition lines with no alias in common changes no lookup |
| Console.ConsoleOut.constructor | ca-csv-cleaner.py:66-67 | both counters start at zero |
| Console.ConsoleOut.Error | ca-csv-cleaner.py:104-106 | one more error, with the warnings unchanged |
| Console.ConsoleOut.Warning | ca-csv-cleaner.py:108-110 | one more warning, with the errors unchanged |
| Resolver.CleanLines | ca-csv-cleaner.py:278-284 | cleaning never yields more lines than pieces |
| Resolver.DescriptionLines | ca-csv-cleaner.py:274-284 | definition of the normalised buffer, as CleanLines of the split on newlines; specified by CleanLinesWellFormed, CleanLinesIdempotent and NoLinesIffBlank, and computed by NormaliseDescription |
| Resolver.CleanLinesAppend | ca-csv-cleaner.py:278-284 | cleaning works piece by piece: it distributes over concatenation |
| Resolver.CleanLinesWellFormed | ca-csv-cleaner.py:278-284 | every normalised line is non-empty and has no surrounding whitespace |
| Resolver.CleanLinesOfClean | ca-csv-cleaner.py:278-284 | lines that are already stripped and non-empty come through unchanged |
| Resolver.CleanLinesIdempotent | ca-csv-cleaner.py:278-284 | normalising twice is normalising once |
| Resolver.CleanLinesEmptyIffBlank | ca-csv-cleaner.py:278-284 | every piece is deleted exactly when every piece is blank |
| Resolver.SplitBlankIffBlank | ca-csv-cleaner.py:274 | the pieces of a split on a whitespace separator are all blank exactly when the string is |
| Resolver.NoLinesIffBlank | ca-csv-cleaner.py:274-284 | the normalised buffer is empty exactly when the description is all whitespace |
| Resolver.NormaliseStep | ca-csv-cleaner.py:278-284 | one pass of the loop keeps the buffer as the cleaned pieces read so far followed by the pieces still unread, whether it deletes or advances |
| Resolver.NormaliseDescription | ca-csv-cleaner.py:274-284 | the in-place strip-and-delete loop leaves exactly the stripped non-empty pieces of `desc.split('\n')`, in order |
| Resolver.FirstMatch | ca-csv-cleaner.py:295-299 | the position of the first alias, in table order, that occurs in the raw description; when there is none, no alias occurs |
| Resolver.InnerTokens | ca-csv-cleaner.py:292 | definition of Python's `data[1:len(data) - 1]`, empty below three tokens; specified through CardRule |
| Resolver.CardPayee | ca-csv-cleaner.py:291-292 | definition of the card-payment payee taken from the detail line; specified by CardRule and CardPayeeOfTokens |
| Resolver.Payee | ca-csv-cleaner.py:286-299 | definition of the resolver's decision, with its two failing inputs as errors; specified by CardRule, AliasRule, DefaultRule and ResolveErrors, and computed by ResolvePayee |
| Resolver.ResolvePayee | ca-csv-cleaner.py:274-299 | the normaliser, the card rule and the alias scan with `break` compute the resolver's decision, including its two failing inputs |
| Resolver.CardRule | ca-csv-cleaner.py:290-293 | under a card header, the payee is the stripped join of the second line's tokens without the first and last token; it is `""` for fewer than three tokens; `found` is true; the table is not consulted |
| Resolver.AliasRule | ca-csv-cleaner.py:294-299 | outside the card rule, the first alias in table order that occurs in the raw description gives the payee, with `found` true |
| Resolver.DefaultRule | ca-csv-cleaner.py:286-288 | outside the card rule, with no alias occurring, the payee is the raw description and `found` is false |
| Resolver.ResolveErrors | ca-csv-cleaner.py:290-291 | the resolver fails on a blank description, and exactly then, and on a card header standing alone, and exactly then; an unresolved payee is the description itself |
| Resolver.EmptyAliasResolvesAll | ca-csv-cleaner.py:295-298 | once a line such as `Name,` has put the empty alias in the table, every description outside the card rule is resolved |
| Resolver.CardHeaderIsOneCleanLine | ca-csv-cleaner.py:290 | the card header is one non-empty line with no surrounding whitespace |
| Resolver.CardDescriptionLines | ca-csv-cleaner.py:274-284 | a card header followed by one clean detail line normalises to exactly those two lines |
| Resolver.CardPayeeOfTokens | ca-csv-cleaner.py:291-292 | a detail line of a card token, the merchant's words and a trailing token yields the words joined by single spaces |
| Resolver.DetailLineIsClean | ca-csv-cleaner.py:291 | such a detail line is non-empty, has no surrounding whitespace and holds no newline |
| Resolver.CardPaymentNamesMerchant | ca-csv-cleaner.py:274-293 | a card payment whose detail line is `id words... trail` resolves to the merchant's words, with `found` true |
| Cleaner.Reached | ca-csv-cleaner.py:256-299 | the loop reaches the first row the resolver fails on, or the end of the rows; no row before that point fails |
| Cleaner.FormatLine | ca-csv-cleaner.py:302-314 | definition of the cleaned output record; specified by FormatLineFields |
| Cleaner.MissingLine | ca-csv-cleaner.py:320-324 | definition of the missing-payee record; specified by MissingLineFields |
| Cleaner.EffectsOf | ca-csv-cleaner.py:256 | definition of the effect of every row of `for row in reader`, in input order; every loop contract and every run lemma is stated through it |
| Cleaner.RowEffectOf | ca-csv-cleaner.py:256-324 | definition of what the loop does with one row: skip, warn, fail in the resolver, or write a record and perhaps a missing-payee record; specified by WarnedAreRejected, EmittedFollowsAccepted and MissedFollowsUnresolved, and performed by ProcessRow |
| Cleaner.OutcomeOf | ca-csv-cleaner.py:256-299 | definition of how the loop ends, completed or stopped at the first failing row; specified by AbortedAtFailingRow and CompletedRunsAll |
| Cleaner.Emitted | ca-csv-cleaner.py:302-314 | definition of the output records a run writes; specified by EmittedFollowsAccepted and RecordsOfRowsRun |
| Cleaner.Missed | ca-csv-cleaner.py:319-324 | definition of the missing-payee records a run writes; specified by MissedFollowsUnresolved and RecordsOfRowsRun |
| Cleaner.UnknownCount | ca-csv-cleaner.py:316-317 | definition of the unknown-payee count of a run; specified by UnknownAtMostEmitted and MissedFollowsUnresolved |
| Cleaner.RejectedRows | ca-csv-cleaner.py:257-259 | definition of the number of rows whose field count is neither 0 nor 5; specified by WarnedAreRejected |
| Cleaner.Warned | ca-csv-cleaner.py:259-266 | definition of the warnings the rows raise; specified by WarnedAreRejected |
| Cleaner.Step | ca-csv-cleaner.py:256-324 | definition of one row's effect on the sinks and counters; specified through RunSinks and performed by ProcessRow |
| Cleaner.Run | ca-csv-cleaner.py:256-324 | definition of the effects applied one after the other; specified by RunSinks and FreshRun, and performed by ProcessRows |
| Cleaner.Append | ca-csv-cleaner.py:319-324 | a sink that exists becomes its old records followed by the new ones; an absent sink stays absent |
| Cleaner.Accepted | ca-csv-cleaner.py:259-267 | every row kept as one that reaches the resolver has exactly five fields |
| Cleaner.Unresolved | ca-csv-cleaner.py:316 | every row kept as unresolved has exactly five fields |
| Cleaner.Cleaner.constructor | ca-csv-cleaner.py:161-254 | the state before the loops: the output file created empty (161-162), the missing sink existing, empty, exactly when it is asked for (178-196), the empty table (198) and the unknown count at zero (254) |
| Cleaner.Cleaner.LoadAliasLine | ca-csv-cleaner.py:219-246 | one line of the payees file updates the table as its kind says; a malformed line adds exactly one error; nothing else changes; keys stay unique |
| Cleaner.Cleaner.AddAliases | ca-csv-cleaner.py:238-239 | the alias loop maps every listed alias to the name, in order |
| Cleaner.Cleaner.LoadAliases | ca-csv-cleaner.py:218-246 | reading the whole file gives the loader's table, and the error count rises by the number of rejected lines |
| Cleaner.Cleaner.ProcessRow | ca-csv-cleaner.py:256-324 | one row is skipped, warned about, reported as a resolver failure, or written with its record and perhaps a missing-payee record; the table is unchanged and the class invariant (unique aliases, sinks agreeing with the counter) is kept |
| Cleaner.Cleaner.ProcessRows | ca-csv-cleaner.py:256-324 | the loop performs every row's effect in order up to the first failing row, and reports whether it completed or where it stopped; the class invariant is kept |
| Cleaner.Cleaner.ReportUnknownPayees | ca-csv-cleaner.py:329-341 | one more warning exactly when some row kept an unknown payee |
| Cleaner.CleanStatement | ca-csv-cleaner.py:198-341 | a whole run: the output, the missing sink, the unknown count, the errors and the warnings are those of the rows up to the first failing row; the closing warning is given only after a completed run with unknown payees; the unknown count never exceeds the output records and equals the missing records when that sink exists |
| Cleaner.AppendTwice | ca-csv-cleaner.py:319-324 | appending records in two steps equals appending them at once |
| Cleaner.RunSinks | ca-csv-cleaner.py:256-324 | row by row, the effects append their records to the sinks and add their counts to the counters; the errors are untouched |
| Cleaner.FreshRun | ca-csv-cleaner.py:254-324 | from empty sinks and a zero counter, a run leaves exactly its own records and counts |
| Cleaner.ReachedAt | ca-csv-cleaner.py:290-291 | the run stops at the first row the resolver fails on |
| Cleaner.EffectsOfSnoc | ca-csv-cleaner.py:256 | a longer input has the effects of the shorter one, plus that of the new row |
| Cleaner.FormatLineFields | ca-csv-cleaner.py:302-314 | a record split on `;` gives back date, payee, description, debit, credit and balance, then the newline (when no field holds `;`) |
| Cleaner.MissingLineFields | ca-csv-cleaner.py:320-324 | a missing-payee record split on `;` gives back date and description, then the newline |
| Cleaner.WarnedAreRejected | ca-csv-cleaner.py:257-266 | the warnings from the rows are exactly the rows whose field count is neither 0 nor 5 |
| Cleaner.EmittedFollowsAccepted | ca-csv-cleaner.py:267-314 | without a failing row, the output has one record per five-field row, in input order, and each is that row's fields around its resolved payee |
| Cleaner.MissedFollowsUnresolved | ca-csv-cleaner.py:316-324 | without a failing row, the unknown count and the missing sink both match the unresolved rows, in input order, and each record is that row's `date;desc;` line |
| Cleaner.UnknownAtMostEmitted | ca-csv-cleaner.py:302-324 | the unknown count is the size of the missing sink and never exceeds the size of the output |
| Cleaner.NothingMissed | ca-csv-cleaner.py:316-324 | with no unresolved row, the count is zero and the missing sink stays empty |
| Cleaner.EmptyAliasLeavesNothingUnknown | ca-csv-cleaner.py:295-317 | with the empty alias in the table, no row is unknown |
| Cleaner.AbortedAtFailingRow | ca-csv-cleaner.py:290-291 | a run that stops does so at a five-field row on whose description the resolver fails; no earlier row fails |
| Cleaner.CompletedRunsAll | ca-csv-cleaner.py:256-324 | without a failing row, the run completes and performs every row's effect |
| Cleaner.RecordsOfRowsRun | ca-csv-cleaner.py:256-324 | for every run, completed or stopped at a failing row, the output has one record per five-field row it got through, in input order and formatted from the resolved payee, and the unknown count and missing sink match the unresolved rows it got through |

## Left out

- Command-line parsing (`argparse`, lines 11-58): the model receives the inputs as parameters.
- Opening, reading, encoding and closing files, and the fatal exits when that fails (lines 127-216, 248, 326-327, 343-345). Those are operating-system I/O. `ConsoleOut.fatal` also calls `os.exit`, which does not exist.
- CSV parsing by `csv.reader` (line 250): the library's quoting rules are not part of the model, and rows arrive as sequences of fields.
- The text of console and log messages, the log file, debug messages (lines 63-102, 112-122, 240-246) and the final "Completed with" summary. Only the two counters are kept.
- Output that is buffered but not flushed when the script crashes: the model treats every record before the failing row as written.
- The unused `entries` list (line 252).
- The payees file's lines keep their line terminators when Python iterates over the file. The model's lines are the strings the file iterator yields, and `strip()` removes the terminators in both.
- Cleaner.Cleaner.ProcessRow: the resolver failure is reported to the caller as a value instead of an uncaught `IndexError`, which ends the script's row loop just as `Aborted` ends the model's.
