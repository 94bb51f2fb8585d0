# MARC 583 action-note builders

This project models the two builders that produce MARC 21 field 583
(Action Note) for shared print holdings records, and proves properties of
them in Dafny.

- `Completeness583` records a completeness review of one holdings record.
  - It reads the first `$a` of every 866, 867 and 868 field (textual
    holdings: basic unit, supplements, indexes). It strips trailing
    whitespace and commas from each with `sub(/[\s,]*$/, '')`.
  - It assembles `$3` (materials specified): the 866 statements joined by
    ", ", then "; Supplement: ..." and "; Index: ..." segments, then
    `gsub!(/^; /, '')`.
  - It decides whether the holdings have gaps (`gaps?`), which adds
    "$l missing issues".
  - It emits the field with the placeholder indicators '9','9', in a fixed
    subfield order: $3, $a, $c, one $f per program, $i, [$l], $5.
- `Retention583` emits a five-subfield field ($a, $c, $d, $f, $5) with the
  indicators '1',' '. Every value is a constant, as given.

Both builders are classes whose attributes have setters. Each `marc`
appends subfields one after another to a fresh field, and the completeness
builder does this in a loop over its programs. In the model:

- Each builder is a Dafny `class` with the same attributes, setter methods
  and a `Marc` method.
- Each `Marc` method is proved equal to a pure specification function.
- The properties are lemmas about those functions.

Module layout:

| file | module | contents |
|---|---|---|
| `marc.dfy` | `Marc` | Ruby values (nil, String, Array), subfields, data fields, records, `fields(tag)`, `f['a']` |
| `ruby_strings.dfy` | `RubyStrings` | `join`, `sub(/[\s,]*$/, '')` and `gsub(/^; /, '')` with Ruby's line anchors |
| `constants.dfy` | `Constants` | the constants hash, and `[programs].flatten` |
| `holdings.dfy` | `Holdings` | `field_to_holdings`, `gaps?`, `m583sfl` and `m583sf3` as functions |
| `holdings_examples.dfy` | `HoldingsExamples` | records built from statement texts, and the documented outputs |
| `completeness.dfy` | `Completeness` | the `Completeness583` class and the field it builds |
| `retention.dfy` | `Retention` | the `Retention583` class and the field it builds |

The two regular expressions are modelled with Ruby's own anchor meaning:
`$` matches at the end of the string or before any newline, and `^` at the
start or after any newline. Lemmas show two things:

- On single-line text these are exactly "drop the maximal trailing run of
  `[\s,]`" and "drop one leading "; "".
- On text with an embedded newline they are not. For example,
  `SubTrailingStopsAtNewline` shows that "a,\nb ," keeps its final comma.

Where the code and its documentation comments differ, the model follows
the code:

- The documentation examples show indicators `1\`, but the completeness
  builder writes '9','9' (completeness_583.rb:43).
- The "no gaps" example (completeness_583.rb:9-11) shows "$lmissing
  issues". For those statements the code finds no gap and adds no $l
  (`HoldingsExamples.DocumentedNoGaps`).
- `gaps?` joins the statements with no separator (completeness_583.rb:85-87).
  Two comma-free 866 statements therefore give a `$3` containing ", " but
  no $l. The documented gap example "v.1-v.3, v.5-6" (completeness_583.rb:12-14)
  gets its $l only when that text is a single 866 statement
  (`HoldingsExamples.DocumentedGaps`).
- The comment on `gaps?` (completeness_583.rb:81-82) speaks of
  non-trailing commas. A comma ending the second line of a multi-line
  `$a` is kept by the strip, because `$` first matches before the
  newline, and so counts as a gap
  (`HoldingsExamples.TrailingCommaAfterNewline`).
- A segment is appended when the joined text is non-empty, not merely
  when fields exist. A single 867 whose `$a` strips to "" adds nothing.
- `gsub!(/^; /, '')` also removes a "; " at the start of an 866 text and
  after any newline inside a statement, not only the separator before
  "Supplement" or "Index". `$3` therefore starts with "; " exactly when
  the raw text started with "; ; " (`Holdings.Sf3LeadingSep`).
- The constructor flattens `programs` (completeness_583.rb:27), but the
  `programs=` setter stores its argument as given. `marc` then calls
  `each` on it, so a non-Array value set afterwards makes `marc` fail.
  This is the precondition `programs.List?` of
  `Completeness.Completeness583.Marc`.

## Model

| member | source | states |
|---|---|---|
| `Marc.FieldsTagged` | completeness_583.rb:61 | `fields(tag)` returns only fields of the record carrying the tag, never more fields than the record has |
| `Marc.FieldsTaggedComplete` | completeness_583.rb:61 | every field carrying the tag is among those returned by `fields(tag)` |
| `Marc.ValuesOfSingle` | retention_583.rb:26-30 | a code carried by exactly one subfield selects exactly its value |
| `Marc.FieldsTaggedAppend` | completeness_583.rb:61 | `fields(tag)` keeps record order: selecting from a concatenation is concatenating the selections |
| `Marc.FirstValue` | completeness_583.rb:61 | `f['a']`: its meaning is stated by `Marc.FirstValueAt` and `Marc.FirstValueAbsent` |
| `Marc.FirstValueAt` | completeness_583.rb:61 | `f[code]` is the value of the first subfield carrying the code, whatever later subfields carry |
| `Marc.FirstValueAbsent` | completeness_583.rb:61 | `f[code]` is nil when no subfield carries the code |
| `Marc.DataField.Append` | completeness_583.rb:44-50 | `append` adds the subfield at the end; `Completeness.Completeness583.Marc` and `Retention.Retention583.Marc` prove that the sequence of appends builds the specified fields, in order |
| `RubyStrings.Join` | completeness_583.rb:68 | `Array#join`: stated by `RubyStrings.JoinNoSeparatorHasComma` (no separator: a comma in the result iff in some part), `RubyStrings.JoinEmpty` and `RubyStrings.JoinNewlineFree` |
| `RubyStrings.JoinNoSeparatorHasComma` | completeness_583.rb:85-87 | `join` with no separator contains a comma iff one of the joined strings does |
| `RubyStrings.JoinEmpty` | completeness_583.rb:70-74 | a ", "-join is empty iff there are no statements or a single empty one |
| `RubyStrings.JoinNewlineFree` | completeness_583.rb:68 | joining single-line statements with ", " gives single-line text |
| `RubyStrings.SubTrailing` | completeness_583.rb:61 | `sub(/[\s,]*$/, '')` with the leftmost greedy match and `$` before any newline: equal to the reference strip on single-line text (`RubyStrings.SubTrailingIsTrimRight`), never a lone "; " (`RubyStrings.SubTrailingNotSep`) |
| `RubyStrings.RunLength` | completeness_583.rb:61 | the greedy `[\s,]*` run at the start of a string: all its characters are in the class, and the next one is not |
| `RubyStrings.LastLineEnd` | completeness_583.rb:61 | backtracking of `[\s,]*$`: the largest run length at which `$` matches, or none |
| `RubyStrings.TrimRight` | completeness_583.rb:58-61 | reference strip: a prefix of the input, only `[\s,]` characters removed, result not ending in `[\s,]` |
| `RubyStrings.TrimRightIdempotent` | completeness_583.rb:61 | stripping twice is stripping once |
| `RubyStrings.SubTrailingIsTrimRight` | completeness_583.rb:61 | on single-line text `sub(/[\s,]*$/, '')` removes exactly the maximal trailing run of whitespace and commas |
| `RubyStrings.SubTrailingTrimmed` | completeness_583.rb:61 | on single-line text the stripped value is single-line, does not end in whitespace or a comma, and a second strip changes nothing |
| `RubyStrings.SubTrailingKeeps` | completeness_583.rb:61 | a single-line value not ending in whitespace or a comma is unchanged by the strip |
| `RubyStrings.SubTrailingStopsAtNewline` | completeness_583.rb:61 | with an embedded newline `$` matches before it: "a,\nb ," becomes "a\nb ," and keeps its last comma |
| `RubyStrings.SubTrailingEmpty` | completeness_583.rb:61 | the strip leaves nothing only when every character of the text was whitespace or a comma |
| `RubyStrings.SubTrailingNotSpace` | completeness_583.rb:61 | no text strips to a lone space |
| `RubyStrings.SubTrailingNotSep` | completeness_583.rb:61 | no text, multi-line text included, strips to a lone "; " |
| `RubyStrings.GsubLineStartSep` | completeness_583.rb:77 | `gsub(/^; /, '')` with `^` at the start and after every newline: on single-line text it removes one leading "; " (`RubyStrings.GsubLineStartSepIsDropLeadingSep`); it leaves "" only for "" and "; " (`RubyStrings.GsubEmpty`) |
| `RubyStrings.RemoveLineStartSepsInsideLine` | completeness_583.rb:77 | away from a line start, `gsub(/^; /, '')` leaves newline-free text alone |
| `RubyStrings.GsubLineStartSepIsDropLeadingSep` | completeness_583.rb:76-77 | on single-line text `gsub(/^; /, '')` removes only a leading "; " |
| `RubyStrings.GsubLeavesLeadingSep` | completeness_583.rb:76-77 | after the substitution the text starts with "; " iff it started with "; ; " |
| `RubyStrings.GsubEmpty` | completeness_583.rb:77 | the substitution yields "" iff the text was "" or "; " |
| `Constants.Flatten` | completeness_583.rb:27 | `Array#flatten` leaves no nested array |
| `Constants.FlattenAppend` | completeness_583.rb:27 | flattening splits over concatenation |
| `Constants.FlattenOfFlat` | completeness_583.rb:27 | a list with no nested arrays flattens to itself, order kept |
| `Constants.FlattenIdempotent` | completeness_583.rb:27 | flattening twice is flattening once |
| `Constants.NormalizePrograms` | completeness_583.rb:27 | `[programs].flatten`: stated by `Constants.NormalizeScalarOrSingleton`, `Constants.NormalizeFlatList` and `Constants.NormalizeAbsent` |
| `Constants.NormalizeScalarOrSingleton` | completeness_583.rb:27 | a scalar program and a one-element array holding it are stored alike, as a one-element list |
| `Constants.NormalizeFlatList` | completeness_583.rb:27 | an array of plain program names is stored as given, in order |
| `Constants.NormalizeAbsent` | completeness_583.rb:27 | absent programs are stored as one nil program |
| `Holdings.FieldToHoldings` | completeness_583.rb:60-62 | `field_to_holdings`: stated by `Holdings.FieldToHoldingsTrimmed`, `Holdings.FieldToHoldingsAppend` and `Holdings.FieldToHoldingsOne` |
| `Holdings.FieldToHoldingsTrimmed` | completeness_583.rb:60-62 | on single-line text: one statement per field with the tag, in record order, each the first $a with its trailing whitespace and commas removed, none ending in either, each unchanged by a second strip |
| `Holdings.FieldToHoldingsAppend` | completeness_583.rb:61 | the statements of a concatenated record are the statements of each part, in order |
| `Holdings.FieldToHoldingsOne` | completeness_583.rb:61 | a one-field record gives that field's statement when the tag matches and nothing otherwise |
| `Holdings.HasGaps` | completeness_583.rb:83-89 | `gaps?`: stated by `Holdings.GapsIffStatementHasComma` |
| `Holdings.MissingIssues` | completeness_583.rb:95-99 | `m583sfl`: "$l missing issues" exactly when `gaps?` holds, nothing otherwise; its place in the field is stated by `Completeness.MissingIssuesPlacement` |
| `Holdings.GapsIffStatementHasComma` | completeness_583.rb:83-89 | `gaps?` holds iff some single stripped 866/867/868 statement contains a comma |
| `Holdings.TrailingCommaIsNoGap` | completeness_583.rb:81-82 | a single-line statement whose only commas are trailing strips to comma-free text, so it is no gap |
| `Holdings.AssembleSf3` | completeness_583.rb:67-79 | `m583sf3` over given statement lists: stated by `Holdings.AssembleSf3SingleLine`, `Holdings.Sf3Shape`, `Holdings.Sf3LeadingSep` and `Holdings.Sf3Empty` |
| `Holdings.Sf3` | completeness_583.rb:67-79 | `m583sf3` for a record: stated by `Holdings.Sf3EmptyForRecord` and, through `Holdings.AssembleSf3`, by the shape lemmas |
| `Holdings.AssembleSf3SingleLine` | completeness_583.rb:67-79 | on single-line statements `m583sf3` is the raw layout with one leading "; " dropped |
| `Holdings.DropLeadingSepKeepsBasic` | completeness_583.rb:76-77 | with basic text that does not open with "; ", nothing is removed |
| `Holdings.DropLeadingSepOfSupplement` | completeness_583.rb:70-77 | without basic text the supplement segment opens `$3` and loses its "; " |
| `Holdings.DropLeadingSepOfIndex` | completeness_583.rb:73-77 | without basic or supplement text the index segment opens `$3` and loses its "; " |
| `Holdings.Sf3OnlyBasic` | completeness_583.rb:68-78 | with no 867 or 868 statements, single-line 866 statements whose joined text does not open with "; " give `$3` equal to that text joined by ", " (a joined text opening with "; " loses it to the `gsub!` at line 77) |
| `Holdings.Sf3Shape` | completeness_583.rb:67-79 | on single-line statements, when the joined 866 text is non-empty and does not open with "; ", `$3` is that text, then "; Supplement: ..." iff the joined 867 text is non-empty, then "; Index: ..." iff the joined 868 text is non-empty; without basic text the first segment loses its "; ", and with none at all `$3` is "" |
| `Holdings.Sf3LeadingSep` | completeness_583.rb:76-77 | `$3` starts with "; " iff the raw text started with "; ; ", and never when there is no basic text |
| `Holdings.JoinIsNotSep` | completeness_583.rb:68 | statements none of which is a lone "; " never join with ", " to a lone "; " |
| `Holdings.Sf3Empty` | completeness_583.rb:67-79 | when no 866 statement is a lone "; ", `$3` is "" iff all three joined texts are empty |
| `Holdings.Sf3EmptyForRecord` | completeness_583.rb:60-79 | for every readable record, multi-line statements included, `$3` is "" iff no statement text remains under any of the three tags |
| `HoldingsExamples.TextFieldsHoldings` | completeness_583.rb:60-62 | fields of one tag give their stripped texts, in order, under that tag |
| `HoldingsExamples.TextFieldsOtherTag` | completeness_583.rb:60-62 | fields of one tag give nothing under any other tag |
| `HoldingsExamples.SeparateStatementsNoGap` | completeness_583.rb:83-89 | two comma-free, single-line, non-empty 866 statements, neither ending in whitespace or a comma and the first not opening with "; ", give `$3` "first, second" and no gap |
| `HoldingsExamples.OneStatementGap` | completeness_583.rb:83-89 | the same text as one 866 statement gives the same `$3` and a gap |
| `HoldingsExamples.TrailingCommaAfterNewline` | completeness_583.rb:60-89 | a comma ending the second line of a statement survives the strip, because `$` first matches before the newline, so "a\nb," as one 866 statement is reported as a gap although its only comma is trailing |
| `HoldingsExamples.OneFieldPerTagHoldings` | completeness_583.rb:60-62 | a record with one 866, one 867 and one 868 gives one stripped statement under each tag |
| `HoldingsExamples.OneStatementPerTag` | completeness_583.rb:67-89 | one single-line, non-empty statement per tag, none ending in whitespace or a comma and the 866 one not opening with "; ", gives "basic; Supplement: s; Index: i", with a gap iff one of the three has a comma |
| `HoldingsExamples.DocumentedNoGaps` | completeness_583.rb:9-11 | the documented statements give `$3` "v.1-v.3; Supplement: v.1-v.3; Index: v.1/3" and no gap |
| `HoldingsExamples.DocumentedGaps` | completeness_583.rb:12-14 | "v.1-v.3, v.5-6" as one 866 statement has a gap; as two 866 statements it gives the same `$3` and no gap |
| `Completeness.CompletenessField` | completeness_583.rb:38-52 | what `marc` returns: stated by `Completeness.CompletenessLayout`, `Completeness.CompletenessValues` and `Completeness.MissingIssuesPlacement`, and built by `Completeness.Completeness583.Marc` |
| `Completeness.FromConstants` | completeness_583.rb:22-52 | `new(rec, constants).marc`: stated by `Completeness.MissingConstantsGiveNil` and `Completeness.ScalarProgramsLikeSingleton`, and built by `Completeness.BuildFromConstants` |
| `Completeness.Field583Codes` | completeness_583.rb:43-51 | the appended codes are 3, a, c, one f per program, i, l only with a missing-issues subfield, 5, and the count matches |
| `Completeness.CompletenessLayout` | completeness_583.rb:39-51 | tag 583, indicators '9','9' (never '1',' '), codes 3, a, c, f per program, i, l iff `gaps?`, 5, and 5 + programs (+1 with gaps) subfields |
| `Completeness.Field583ActionLocal` | completeness_583.rb:45 | another action changes only the second subfield, $a |
| `Completeness.ProgramSubfieldsSnoc` | completeness_583.rb:47 | each program iteration appends one $f holding that program |
| `Completeness.ProgramValues` | completeness_583.rb:47 | the $f values are the programs, in order |
| `Completeness.Field583Values` | completeness_583.rb:44-50 | each appended subfield carries its attribute, the $f values are the programs in order |
| `Completeness.CompletenessValues` | completeness_583.rb:44-50 | $3 is the assembled text, $a, $c, $i, $5 carry the attributes and the $f values are the programs, in order |
| `Completeness.MissingIssuesPlacement` | completeness_583.rb:48-50 | $l occurs only second to last, only with gaps, and then it is "missing issues" between $i and $5 |
| `Completeness.MissingConstantsGiveNil` | completeness_583.rb:24-29 | a constant missing from the hash gives a nil-valued subfield, and absent programs give one nil $f |
| `Completeness.ScalarProgramsLikeSingleton` | completeness_583.rb:27 | programs given as a scalar and as a one-element array holding it build the same field |
| `Completeness.Completeness583.constructor` | completeness_583.rb:22-30 | every attribute is read from the constants (nil when missing), programs flattened |
| `Completeness.Completeness583.SetAction` | completeness_583.rb:17 | `action=` stores the value and nothing else |
| `Completeness.Completeness583.SetActionDate` | completeness_583.rb:17 | `action_date=` stores the value and nothing else |
| `Completeness.Completeness583.SetActionInterval` | completeness_583.rb:17 | `action_interval=` stores the value and nothing else |
| `Completeness.Completeness583.SetPrograms` | completeness_583.rb:17 | `programs=` stores the value as given, unflattened, and nothing else |
| `Completeness.Completeness583.SetInstitution` | completeness_583.rb:17 | `institution=` stores the value and nothing else |
| `Completeness.Completeness583.M583Sf3` | completeness_583.rb:67-79 | the `+=` steps and the `gsub!` compute the specified `$3` of the record |
| `Completeness.Completeness583.Marc` | completeness_583.rb:38-52 | the appends, with the loop over programs, build exactly the specified field for the current attributes |
| `Completeness.BuildFromConstants` | completeness_583.rb:22-52 | a builder constructed from constants returns the field specified from those constants |
| `Completeness.MarcTwice` | completeness_583.rb:43-51 | `marc` changes nothing, so two calls give equal fields |
| `Completeness.ChangeAction` | completeness_583.rb:17 | after `action=` the next field differs from the previous one only in $a |
| `Retention.RetentionField` | retention_583.rb:23-32 | what `marc` returns: stated by `Retention.RetentionLayout`, `Retention.RetentionValues` and `Retention.RetentionAttributeLocal`, and built by `Retention.Retention583.Marc` |
| `Retention.RetentionFromConstants` | retention_583.rb:14-32 | `new(constants).marc`: stated by `Retention.RetentionMissingConstants` and `Retention.DocumentedRetentionExamples`, and built by `Retention.BuildRetention` |
| `Retention.RetentionLayout` | retention_583.rb:23-32 | tag 583, indicators '1',' ', codes exactly a, c, d, f, 5, and never $3, $i or $l |
| `Retention.RetentionValues` | retention_583.rb:26-30 | each code occurs once and carries its attribute unchanged; $f is the programs value itself, an Array included |
| `Retention.RetentionMissingConstants` | retention_583.rb:14-20 | missing constants give nil-valued subfields, always five of them |
| `Retention.RetentionAttributeLocal` | retention_583.rb:26-30 | replacing one attribute replaces only its own subfield, at its fixed position |
| `Retention.DocumentedRetentionExamples` | retention_583.rb:5-10 | the Scholars Trust and TRLN constants give the documented subfields |
| `Retention.Retention583.constructor` | retention_583.rb:14-20 | every attribute is read from the constants as given (nil when missing), programs not normalised |
| `Retention.Retention583.SetAction` | retention_583.rb:12 | `action=` stores the value and nothing else |
| `Retention.Retention583.SetActionDate` | retention_583.rb:12 | `action_date=` stores the value and nothing else |
| `Retention.Retention583.SetActionInterval` | retention_583.rb:12 | `action_interval=` stores the value and nothing else |
| `Retention.Retention583.SetPrograms` | retention_583.rb:12 | `programs=` stores the value and nothing else |
| `Retention.Retention583.SetInstitution` | retention_583.rb:12 | `institution=` stores the value and nothing else |
| `Retention.Retention583.Marc` | retention_583.rb:23-32 | the five appends build exactly the specified field for the current attributes |
| `Retention.BuildRetention` | retention_583.rb:14-32 | a builder constructed from constants returns the field specified from those constants |
| `Retention.ChangeInterval` | retention_583.rb:12 | after `action_interval=` the next field differs from the previous one only in $d |

## Left out

- `Completeness583#bib` (completeness_583.rb:33-35) is not modelled. It is a call into the Sierra database library.
- holdings_update.rb is not part of this model. It reads a list of holdings records from the database, writes text files and drives an external writer.
- ruby-marc internals and `to_mrk` serialisation are not modelled. A field is a plain value, and `append` adds a subfield at the end.
- Values are nil, String, or Arrays of these. Other Ruby objects a caller could pass as constants (numbers, symbols, dates) are not distinguished.
- A field whose first $a is missing or not a String makes `field_to_holdings` fail (nil has no `sub`). The model states this as the precondition `Holdings.StatementsReadable`.
- A non-Array programs value set through `programs=` makes `marc` fail. The model states this as the precondition `programs.List?` of `Completeness.Completeness583.Marc`.
- The constructor stores `validation_level`, which has no reader or setter. It is a `const` field.
- The constructor stores `action_interval`, which the completeness builder never writes into its field. It is kept only as an attribute.
- The holdings record is read-only here. The model does not capture aliasing of the record object or its changes elsewhere.
- `Holdings.Sf3Shape`, `Holdings.Sf3OnlyBasic`, `Holdings.AssembleSf3SingleLine`, `Holdings.FieldToHoldingsTrimmed` and `Holdings.TrailingCommaIsNoGap` are stated for single-line statements only. Ruby's line anchors make the general case irregular; `RubyStrings.SubTrailingStopsAtNewline` and `HoldingsExamples.TrailingCommaAfterNewline` show this. `Holdings.Sf3LeadingSep` and `Holdings.Sf3EmptyForRecord` hold for multi-line statements too.
