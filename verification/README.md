# A verified model of the PostgreSQL to SQLite translator

The translator turns a batch of PostgreSQL statements into SQLite ones. This
project models the parts of it whose answers depend on a whole run, a whole
tree or a whole text, and proves what those parts promise.

**Replaying committed history.** A batch mixes transaction control with
statements that create, read, write and drop TEMP objects, and a new connection
to the database file has to rebuild what the batch left in TEMP storage.
`Transactions` classifies the nesting and settles which statements survive, and
is proved against a session that takes snapshots of any store. `Statements` and
`Effects` record what each surviving statement touches and reads, following
views and trigger firing. `Retention` finds the least set of units the
surviving objects need, `Replay` writes them out in blocks, and `Connection`
puts the four together. The theorem at the end,
`Connection.ReplayRecreatesSurvivors`, compares two full runs: the batch, and
the program. What a statement does is left open, and may differ from place to
place of the batch though its text does not. A unit is only held to its recorded
frame: it changes nothing outside what it touches, and what it makes of that
depends only on what it touches and reads. Objects are known by identity, in
order of creation, in both runs. `FreeHistory` shows how much that admits: in
the freest such behaviour every object holds its whole history, and survives
with it. `CatalogueNames` and `SlicedCatalogue` say that names stand for the same
objects in both runs, in any batch in which no statement creates or renames to a
name that is held, an ALTER renames at most once, and no IF NOT EXISTS among the
kept units finds its name held. `AbortedTransactions` compares the session with
PostgreSQL's own.

What those modules share is said apart from them. `Attachments` says what a drop
takes with it, `RowEvents` which events a statement raises, by what it does to
rows, and `NameLookup` which names are the connection's, by the order SQLite
searches its schemas in.

**Dates, times and intervals.** `Calendar` is the era-based conversion between
civil dates and day numbers, for the Gregorian calendar of ISO 8601:2004
(section 3.2.1). `TemporalLiterals` is the canonical text of dates, times and
timestamps. `Interval` holds the two accumulators of exact decimal counts and
the modifiers SQLite is given, and `DateModifiers` reads a literal into them;
`IntervalText` is the printer and the parsers, with the durations of section
4.4.3.2 of ISO 8601:2004, and `IntervalStyle` compares its text with
PostgreSQL's. `IntervalUnits`, `IntervalNotations` and `IsoDurations` say what a
written interval counts, `ShiftedDates` what SQLite makes of the modifiers,
`TemporalForms` what a written date, time or timestamp reads as, and `WallClocks`
that its normal form is the time written.

**Lexical scopes.** `RelationScope` is the mutable stack of common table
expressions and `ScopedRelations` the visitor that drives it, proved against a
resolver that passes environments down the tree. `SourceOrder` says which trees
it shows every name of, and in source order.

**Lowerings that keep meaning.** `SqliteExpr` gives the emitted expressions
their values, with the truth values of section 8.12 of ISO/IEC 9075:1992.
`Idioms` is membership over delimited text (section 8.7 there), built and read
back. `BindOnce` is the lowering that names an operand more than once.
`MinorUnits` keeps NUMERIC values as integer counts. `Templates` scans date
templates both ways, and `ToChar` holds that against PostgreSQL's own reading of
a template (section 9.8 of its documentation).

**Catalogues of names and homes.** `EmittedNamespace` keeps names and is proved
against a catalogue of identities; `Placement` decides the file each object
lives in, as a least closure over view reads.

Loops, in-place updates and fields that change in the original are methods,
arrays and classes here, each proved against a function or predicate; the
functions' own properties are lemmas.

What the code does differently from its comments, or from PostgreSQL, is kept as
the code has it:

- `src/impls/scoped_relations.rs:28-38` promises source order, but a query whose
  body is a bare TABLE has that name recorded before the names in its WITH list.
  `SourceOrder.OrderIsKept` says exactly when the order is kept,
  `SourceOrder.NamesReadAlike` exactly when the names alone read the same, and
  `SourceOrder.BareComesFirst` gives an input.
- The same comment promises every name. A TABLE that is an operand of a set
  operation is not the query's own body, so no hook sees it:
  `SourceOrder.EveryNameIsShown` says exactly when nothing is missed and
  `ScopedRelations.OperandIsMissed` gives an input.
- PostgreSQL reads SSSS and SSSSS as seconds past midnight, DDD as the day of the
  year and IDDD as the ISO day of the year; the template scanner reads shorter
  codes there, and the reverse scanner spells such templates for repeated
  specifiers. `ToChar.FormatAnswersTemplate` and `ToChar.TemplateAnswersFormat`
  say exactly when the answers agree, and `ToChar.SecondsOfDay` gives an input.
- Naming a savepoint that does not exist changes nothing in the frame walk, where
  PostgreSQL aborts the transaction. `AbortedTransactions.SessionsAgree` says
  exactly when the sessions are the same after every statement,
  `AbortedTransactions.LogsDiffer` exactly when they keep different statements in
  the end, and `AbortedTransactions.UnknownSavepoint` gives an input.
- Under its default IntervalStyle (section 8.5.5 of its documentation) PostgreSQL
  writes a plus sign before a positive field that follows a negative one, and the
  translator does not: `IntervalStyle.StylesAgree` says exactly when the texts are
  the same, `IntervalStyle.MixedSigns` gives an input, and
  `IntervalStyle.ServerTextReadsBack` says that both stand for the same interval.
- Normalising is not idempotent on the last midnight of year 9999 written as
  24:00:00: `TemporalLiterals.TimestampIdempotent` says that this is the only
  exception and `TemporalLiterals.LastMidnight` gives the input.

## Model

| member | source | states |
|---|---|---|
| Connection.ReplayRecreatesSurvivors | src/history/mod.rs:68-186 | the end-to-end theorem: for every accepted batch and every behaviour of its statements, each told apart by where it stands, that keeps units within their recorded frames, running the connection program on an empty TEMP store gives each object alive at the end the value the whole transactional run, with its rollbacks, savepoints, chained and unfinished transactions, left it |
| Connection.ConnectionProgram | src/history/mod.rs:68-104 | answers the first retained unit that writes a stored table, and the program when there is none: the program emits the retained units' connection-local statements in source order, in one block per retained transaction |
| Connection.RecordEffects | src/history/mod.rs:78-89 | one footprint per unit, nothing for a unit undone or a control statement, each recorded against the catalogue the committed units before it leave; every object was created by a unit that touches it |
| Connection.KeptAreCommitted | src/history/mod.rs:80-92 | no control statement and no rolled-back unit is ever retained |
| Connection.CreatorsAreKept | src/history/mod.rs:106-133 | for every surviving object the program holds a unit that touched it |
| Connection.EmissionRuns | src/history/mod.rs:137-186 | the emitted statements do to any store what the retained units do to it, in order |
| Retention.Retain | src/history/mod.rs:112-133 | the nested scans end at the least pair: alive objects are needed, units touching a needed object are retained, what a retained unit touches or reads is needed, and every other such pair is larger, so the pair does not depend on the order of the scans |
| Retention.SliceAgrees | src/history/mod.rs:106-133 | leaving the units that are not retained out of a run changes no needed object |
| Replay.Replay | src/history/mod.rs:137-186 | every kept unit stands in the numbered block of its own transaction, or outside all blocks when it ran in none; blocks never nest and none is left open; there is one block per kept transaction |
| Replay.LeavingIsFinal | src/history/mod.rs:148-180 | once the walk leaves a transaction it never meets it again, so no second block is needed for it |
| Replay.NestedProgramRuns | src/history/mod.rs:145-186 | under the snapshotting session a program of flat blocks executes all its statements in order |
| Replay.NestedProgramIsAccepted | src/impls/transaction_blocks.rs:60-126 | the nesting rules accept the program with every statement classified as plain translation |
| FreeHistory.FreeIsFramed | src/history/mod.rs:80-133 | on every batch the frames admit the behaviour in which each object holds the whole history it was made by, so nothing about them empties an object |
| FreeHistory.SurvivorsKeepTheirHistory | src/history/mod.rs:68-186 | each surviving object has the same history in the program as in the batch, back through every object it drew on |
| FreeHistory.RecreatedSurvives | src/history/mod.rs:106-133 | CREATE, DROP and CREATE again of one TEMP table: the last unit alone is kept, and the same text makes two different objects, the second of which survives holding something |
| SlicedCatalogue.NamesResolveAlike | src/history/mod.rs:78-186 | in a batch that lands on no held name, each name a statement of a kept unit finds standing for what its unit touches or reads stands in the program for the same object, statement by statement, and a name that stood for none stands for none |
| SlicedCatalogue.SurvivorsAreNamedAlike | src/history/mod.rs:106-133 | in the end of such a batch every name stands in the program for what it stands for in the batch, and exactly the survivors are left alive |
| SlicedCatalogue.SliceIsCatalogue | src/history/mod.rs:78-186 | at every point the catalogue the kept units' connection-local statements build is the batch's, the objects the survivors do not need left out |
| SlicedCatalogue.CatalogIsSound | src/history/effects.rs:152-292 | in such a batch every name always stands for a live object, and no two names of a kind for the same |
| SlicedCatalogue.OnlyAfter | src/history/effects.rs:152-292 | one statement that keeps to a set of objects does to the catalogue of that set what it does to the whole one |
| SlicedCatalogue.OtherAfter | src/history/effects.rs:152-292 | one statement that keeps off a set of live objects, and lands on no held name, changes nothing in the catalogue of that set |
| SlicedCatalogue.LandingMatters | src/history/mod.rs:106-133 | a batch that lands on a held name, where a name ends up standing for a survivor in the program and for nothing in the batch |
| Transactions.Analyse | src/impls/transaction_blocks.rs:60-126 | accepts a batch exactly when each statement is legal with a transaction open or not as PostgreSQL has it there; classifies each statement; a refusal names the first illegal one |
| Transactions.NewOutline | src/history/transactions.rs:44-114 | the frame walk settles every statement as control, committed or undone as the snapshotting session does, and gives each the transaction it ran in |
| Transactions.RunIsLogFolded | src/history/transactions.rs:36-114 | for any store and any statement semantics, the session with snapshots is the log it records, executed in order |
| Transactions.LogInvariantHolds | src/history/transactions.rs:44-114 | over every run the working and durable logs ascend, hold no control statement, and nest: each savepoint's snapshot is a prefix of what follows |
| Transactions.FrameStartsAreSorted | src/history/transactions.rs:36-99 | frame starts are ordered and never pass the pending statements |
| Transactions.InnermostFrameIsMark | src/history/transactions.rs:127-140 | the innermost frame of a name stands for the innermost savepoint of that name |
| Transactions.SameNameIsFolded | src/history/transactions.rs:133-140 | two identifiers name the same savepoint exactly when they fold to the same string, an unquoted one to lower case and a quoted one to itself; the session keys its savepoints by that string |
| Transactions.CommittedIsDurable | src/history/transactions.rs:44-122 | the committed statements, in order, are the session's durable log |
| Transactions.CommittedStatementsSuffice | src/history/transactions.rs:44-122 | executing the committed statements alone leaves the store the whole session leaves |
| Transactions.NumbersAscend | src/history/transactions.rs:52-106 | transactions are numbered as they start and an ended one is never open again |
| Transactions.TransactionsAreContiguous | src/history/transactions.rs:52-106 | no non-control statement between two of a transaction ran outside it |
| Transactions.RollbackTo | src/history/transactions.rs:71-80 | ROLLBACK TO undoes what is pending since the innermost savepoint of that name and keeps that savepoint |
| Transactions.EndBlock | src/history/transactions.rs:81-99 | COMMIT and ROLLBACK settle every pending statement, and AND CHAIN opens the next transaction |
| AbortedTransactions.SessionsAgree | src/history/transactions.rs:63-80 | on every store, after every statement, the session is PostgreSQL's own, in which naming an unknown savepoint aborts the transaction, exactly when every savepoint named is live |
| AbortedTransactions.NeverAborted | src/history/transactions.rs:63-80 | no transaction of PostgreSQL's session is ever aborted exactly when every savepoint named is live |
| AbortedTransactions.LogsAgree | src/history/transactions.rs:63-122 | in the end the two sessions have kept the same statements exactly when every COMMIT keeps the same in both |
| AbortedTransactions.LogsDiffer | src/history/transactions.rs:63-122 | and they have not exactly when some transaction that names an unknown savepoint is committed with different statements kept |
| AbortedTransactions.AbortedToTheEnd | src/history/transactions.rs:63-99 | from its first unknown savepoint on, a transaction keeps nothing in PostgreSQL's session until it ends or goes back to a savepoint set before |
| AbortedTransactions.CommittedSufficeStrictly | src/history/transactions.rs:44-119 | executing the committed statements alone leaves what PostgreSQL's session leaves, on every store, exactly when every COMMIT keeps the same statements |
| AbortedTransactions.ReplayRecreatesStrictly | src/history/mod.rs:68-186 | so the program recreates what PostgreSQL's session leaves |
| AbortedTransactions.UnknownSavepoint | src/history/transactions.rs:71-80 | an accepted batch in which an unknown savepoint makes the two differ |
| AbortedTransactions.NothingToLose | src/history/transactions.rs:71-80 | an accepted batch in which an unknown savepoint parts the two and they leave the same |
| Effects.FiredIsReachable | src/history/effects.rs:308-358 | the trigger search, which ends whatever cycles triggers form, fires exactly the trigger and event pairs reachable from the statement |
| Effects.RowStatementMeaning | src/history/effects.rs:294-358 | from no effects, a row statement touches exactly the connection tables some running statement writes, writes persistently exactly when some running statement leaves the connection, and reads the least set that serves the run and follows view bases |
| Effects.Catalog.Reads | src/history/effects.rs:294-306 | adds the named relations and the least closure of their view bases, and nothing else |
| Effects.Catalog.Write | src/history/effects.rs:308-358 | charges the write and every firing it raises, once each, to the effects |
| Effects.Catalog.WriteTarget | src/history/effects.rs:308-330 | a table is touched, a view is read, anything else is a persistent write |
| Effects.Catalog.Retire | src/history/effects.rs:361-386 | kills the object and, transitively, every live trigger and index attached to it, touching exactly those |
| Effects.Catalog.Dependents | src/history/effects.rs:361-386 | the live triggers and indexes attached to an object, in creation order |
| Effects.Catalog.CreateRelation | src/history/effects.rs:214-228 | the name stands for the new table or view, unless IF NOT EXISTS finds it held; exactly the new object is touched |
| Effects.Catalog.CreateTableNamed | src/history/effects.rs:154-160 | CREATE TEMP TABLE AS reads what its query names and, transitively, what the views among that read |
| Effects.Catalog.CreateViewNamed | src/history/effects.rs:166-174 | OR REPLACE retires the view that holds the name before the new one takes it |
| Effects.Catalog.CreateTriggerNamed | src/history/effects.rs:262-292 | the trigger is attached to the live table or view it names, and reads that target |
| Effects.Catalog.CreateIndexNamed | src/history/effects.rs:180-187 | a named index on a connection table is attached to it, and the table is read |
| Effects.Catalog.DropOne | src/history/effects.rs:230-245 | a drop retires what the name stands for in its own kind's map, and frees the name |
| Effects.Catalog.DropTriggerNamed | src/history/effects.rs:189-194 | DROP TRIGGER retires that trigger and frees its name |
| Effects.Catalog.Alter | src/history/effects.rs:247-260 | an altered connection table is touched, a rename moves its name, and nothing is created or killed |
| Effects.Catalog.Apply | src/history/effects.rs:152-212 | one statement: the catalogue it leaves and the effects it adds, every changed object among them touched |
| Effects.Catalog.ApplyUnit | src/history/effects.rs:116-123 | one unit from no effects: its statements in order |
| Effects.Catalog.Alive | src/history/effects.rs:125-131 | exactly the objects not retired |
| Attachments.RetiredTakesAttachments | src/history/effects.rs:361-386 | dropping a live object leaves dead exactly what was dead, that object, and every trigger and index on it; nothing changes its shape |
| Attachments.RetiredFreesNames | src/history/effects.rs:361-386 | with it go exactly the trigger and index names that stood for what died, and the other names stand for what they stood for |
| Attachments.CatalogIsHung | src/history/effects.rs:152-386 | at every point of a batch that lands on no held name, the table or view every live trigger and index is on is live |
| Attachments.SurvivorsKeepTheirOwners | src/history/mod.rs:106-133 | so what a surviving trigger or index is on survives |
| Attachments.IndexGoesToo | src/history/effects.rs:361-386 | CREATE TEMP TABLE, CREATE INDEX on it, DROP TABLE: nothing is left alive and the index's name is free |
| RowEvents.EventsAreChanges | src/history/effects.rs:404-447 | a statement raises exactly the events of the changes it can make to its target's rows, a plain INSERT adding, an upsert adding or changing, an UPDATE changing and a DELETE removing; one with no target it can name is untracked, and one that writes no rows raises nothing |
| RowEvents.OverlapIsShared | src/history/effects.rs:335-341 | two sets of events overlap exactly when some change raises both |
| NameLookup.RelationIsFound | src/history/effects.rs:457-463 | a name stands for a connection relation exactly when searching temp, main and the attached files in that order, or only the schema written, finds it first in temp, letter case aside |
| NameLookup.TemporaryIsLookedUp | src/history/effects.rs:449-455 | a relation is created on the connection exactly when flagged so or when temp is the only schema its name is looked up in |
| NameLookup.DropIsFound | src/history/effects.rs:230-245 | a drop takes what that search finds first in temp, among tables and views for those and among indexes for an index |
| NameLookup.RaisedAreFound | src/history/effects.rs:326-347 | a write fires exactly the live triggers on what that search finds, or on a file's table of that name when it finds nothing in temp, for which some change raises both |
| Interval.RoundingDivIsNearest | src/impls/interval.rs:130-136 | the rounded quotient is a nearest integer, the one further from zero on a tie |
| Interval.AccumulatorsAgree | src/impls/interval.rs:144-170 | on every list of decimal counts and units the two accumulators refuse together, agree on the months, and the one's microseconds are the other's days and microseconds |
| Interval.AddAgrees | src/impls/interval.rs:370-409 | one count added keeps the two accumulators in agreement |
| Interval.ScalesCorrespond | src/impls/interval.rs:346-361 | both know the same unit words with corresponding meanings |
| IntervalUnits.UnitsCount | src/impls/interval.rs:346-361 | every spelling of a unit, from microseconds to millennia, adds to a whole count what the unit is |
| IntervalUnits.UnitsAreSpelled | src/impls/interval.rs:346-361 | no other word is a unit |
| IntervalUnits.FractionsSpill | src/impls/interval.rs:370-409 | the fraction of a month goes into days of a thirtieth and then into microseconds, that of a day or a week into microseconds, each cut off at one microsecond; longer units round to months and shorter ones cut off |
| Interval.IntervalFields.Add | src/impls/interval.rs:144-170 | the field updates compute the specification's addition |
| Interval.IntervalFields.Modifiers | src/impls/interval.rs:185-207 | the modifier list of the fields held |
| DateModifiers.Scaled | src/impls/interval.rs:238-328 | the modifiers of a literal times an integer, negated or not: none for a notation not decoded, the refusal of the first count or unit that does not read, and otherwise a shift by exactly that multiple of what was written |
| DateModifiers.TotalsAreFolded | src/impls/interval.rs:288-311 | a literal is refused exactly when some count is no plain decimal or some unit is unknown, and otherwise adds up to what its counts do |
| DateModifiers.SpelledPairsRead | src/impls/interval.rs:238-258 | a literal of counts and units written alternately is read as those pairs, the units lower-cased, and one with a unit of its own as one pair |
| Interval.ModifiersRead | src/impls/interval.rs:185-235 | the text of the emitted modifiers, read back, spells exactly the months, days and microseconds they were made of |
| Interval.ModifiersConserve | src/impls/interval.rs:185-235 | the split into days and time loses nothing, with agreeing signs and a time under one day |
| ShiftedDates.ModifiersAdd | src/impls/interval.rs:185-207 | on any instant, SQLite's own steps for the modifiers, floor included, end where PostgreSQL's addition of the interval ends: months, cut off at the last day of the month, then days, then the time |
| IntervalText.PrintedReadsBack | src/impls/interval.rs:431-533 | for every months, days and microseconds, each with its own sign, parsing the printed text gives them back |
| IntervalStyle.StylesAgree | src/impls/interval.rs:425-449 | the printed text is PostgreSQL's own, which signs a positive field after a negative one, exactly when no positive field directly follows a negative one |
| IntervalStyle.MixedSigns | src/impls/interval.rs:425-449 | an interval the two print differently |
| IntervalStyle.ServerTextReadsBack | src/impls/interval.rs:490-533 | parsing PostgreSQL's own text, plus signs included, gives the interval it was printed from |
| IntervalStyle.ServerTextNormalizes | src/impls/interval.rs:476-487 | a literal written as PostgreSQL prints it normalises to the text the translator prints |
| IntervalText.NormalizeIsIdempotent | src/impls/interval.rs:476-487 | whatever notation an accepted literal uses, normalising its normal form changes nothing |
| IntervalText.ClockReads | src/impls/interval.rs:452-595 | a printed clock adds exactly the microseconds it was printed from |
| IntervalText.IsoReadsItems | src/impls/interval.rs:620-657 | an ISO duration of any items reads as those items added one by one, M being months before the T and minutes after |
| IsoDurations.DurationCounts | src/impls/interval.rs:620-657 | PnYnMnWnDTnHnMnS, each part absent or any whole number, counts 12 months a year and the months, 7 days a week and the days, and 3600, 60 and 1 million microseconds of the hours, minutes and seconds |
| IsoDurations.DesignatorsAre | src/impls/interval.rs:634-650 | the designators are Y, M, W and D, and H and S after the T, in either case |
| IntervalNotations.BodyReads | src/impls/interval.rs:490-595 | a body of written counts and units, apart or glued, then a clock with or without days before it, or a count alone, is read as all of them added up, the count alone as seconds |
| IntervalNotations.YearMonthReads | src/impls/interval.rs:598-617 | years and months written with a hyphen are read under one sign |
| IntervalNotations.YearMonthsAre | src/impls/interval.rs:598-617 | no other text is read as those |
| IntervalNotations.LiteralReads | src/impls/interval.rs:476-487 | a leading @ changes nothing and a trailing ago negates the months, the days and the microseconds |
| IntervalNotations.DecimalReads | src/impls/interval.rs:94-121 | a sign or none, digits, and a point or none is a count exactly when it has a digit, and then it is its digits over ten to the number of those after the point |
| IntervalNotations.DecimalsAre | src/impls/interval.rs:94-121 | no other text is a count |
| IntervalText.FractionParses | src/impls/interval.rs:94-121 | a decimal count is read as its exact value over a power of ten |
| IntervalText.ParseIntervalFields | src/impls/interval.rs:490-533 | the token loop reads what the specification reads, refusals included |
| IntervalText.AddClockToken | src/impls/interval.rs:560-595 | the clock token, leading days and sign included, adds what the specification adds or refuses as it refuses |
| IntervalText.ParseIsoInterval | src/impls/interval.rs:620-657 | the designator loop reads what the specification reads |
| IntervalText.LiteralFields.Add | src/impls/interval.rs:370-409 | the field updates compute the specification's addition, fractions spilling into the smaller fields |
| Calendar.CivilThenBack | src/impls/temporal_literals.rs:163-188 | every valid date is found again from its day number |
| Calendar.DaysThenBack | src/impls/temporal_literals.rs:163-188 | every day number, before and after 1970, is the day number of the valid date it gives |
| Calendar.DaysFollowDates | src/impls/temporal_literals.rs:163-172 | day numbers are strictly increasing in date order |
| Calendar.NextDayIsOneMore | src/impls/temporal_literals.rs:474-494 | the next day of a valid date is valid and one day later |
| TemporalLiterals.OneTextPerInstant | src/impls/temporal_literals.rs:86-142 | two accepted timestamps get equal text exactly when they denote the same UTC microsecond, and the earlier one gets the text that sorts first |
| WallClocks.OffsetMovesBack | src/impls/temporal_literals.rs:112-145 | moved by the offset written, the date and clock of the normal form are to the microsecond the date and clock written, on the next day for 24:00:00, and the offset of the normal form is zero |
| WallClocks.RefusedOutsideYears | src/impls/temporal_literals.rs:112-142 | a timestamp with time zone that reads is refused exactly when, in UTC, it is before the year 1 or after the year 9999 |
| WallClocks.UnzonedIsKept | src/impls/temporal_literals.rs:86-108 | the normal form of one without is the date and the clock written, or midnight of the next day for 24:00:00 |
| TemporalForms.StampFormReads | src/impls/temporal_literals.rs:86-142 | a date, then a T or a space and a clock, or none, then a zone, with spaces before it or without, or none, are read as each of them is, or refused as the first of them at fault is |
| TemporalForms.BareSeparatorReads | src/impls/temporal_literals.rs:362-371 | a T with no time after it reads as none |
| TemporalForms.DateFormReads | src/impls/temporal_literals.rs:374-392 | three numbers, padded or not, are read as year, month and day exactly when that day is on the calendar of a year up to 9999, and are otherwise out of range |
| TemporalForms.TimeFormReads | src/impls/temporal_literals.rs:413-455 | hours, minutes, seconds and a fraction, the seconds or both left out, are read as what they write, or refused as out of range |
| TemporalForms.TimeLiteralReads | src/impls/temporal_literals.rs:311-360 | a zone written after a clock, Z or an offset of hours or of hours and minutes, with spaces before it or without, is split off exactly and refused where none is allowed |
| TemporalForms.DatesAre | src/impls/temporal_literals.rs:374-392 | no other text reads as a date |
| TemporalForms.TimesAre | src/impls/temporal_literals.rs:413-455 | no other text reads as a time |
| TemporalForms.OffsetsAre | src/impls/temporal_literals.rs:344-360 | no other text reads as an offset |
| TemporalForms.FormsAreIso | src/impls/temporal_literals.rs:237-275 | none of those is turned away as not ISO |
| TemporalForms.LettersAreRefused | src/impls/temporal_literals.rs:237-275 | a literal with a slash, with a letter other than T, Z and z, or with any letter in a date, is refused as unreadable |
| TemporalLiterals.CanonicalOrder | src/impls/temporal_literals.rs:112-142 | byte order of canonical texts is chronological order |
| TemporalLiterals.CanonicalIdempotent | src/impls/temporal_literals.rs:70-142 | a canonical text normalises to itself |
| TemporalLiterals.DateIdempotent | src/impls/temporal_literals.rs:70-80 | a normalised date normalises to itself, and is still the date written |
| TemporalLiterals.TimeIdempotent | src/impls/temporal_literals.rs:81-85 | a normalised time, zoned or not, normalises to itself, and is still the time and the offset written |
| TemporalLiterals.TimestampIdempotent | src/impls/temporal_literals.rs:86-108 | a normalised unzoned timestamp normalises to itself exactly unless it was written 9999-12-31 24:00:00 |
| TemporalLiterals.LastMidnight | src/impls/temporal_literals.rs:100-108 | that input: its normal form is in year 10000 and is refused |
| TemporalLiterals.ClockReads | src/impls/temporal_literals.rs:403-455 | every valid clock reads back from its text |
| TemporalLiterals.OffsetReads | src/impls/temporal_literals.rs:296-360 | every offset in range reads back from its text |
| TemporalLiterals.ZoneSplits | src/impls/temporal_literals.rs:311-342 | a printed offset is split off exactly what was printed before it |
| RelationScope.RelationScopes.Binding | src/impls/relation_scope.rs:66-78 | the expression found is the one lexical lookup over what is in view denotes, innermost scope and leftmost sibling first; none is found exactly when none matches |
| RelationScope.ExitUndoesEnter | src/impls/relation_scope.rs:24-60 | leaving a query restores the whole stack, the parent's count of visible siblings included |
| RelationScope.SiblingSees | src/impls/relation_scope.rs:24-51 | inside the query of a WITH item exactly the earlier siblings are in view, or all of them when the list is recursive, and then what surrounds it |
| RelationScope.EnteredSees | src/impls/relation_scope.rs:24-51 | inside a query's body all its own expressions are in view first |
| RelationScope.RelationScopes.Enter | src/impls/relation_scope.rs:24-51 | pushes the query's scope and narrows the parent's visible siblings |
| RelationScope.RelationScopes.Exit | src/impls/relation_scope.rs:53-60 | pops the scope and restores the parent's count |
| ScopedRelations.RelationCollector.Visit | src/impls/scoped_relations.rs:58-113 | on every tree, each relation met is resolved as the environment-passing resolver resolves it, stored ones are recorded in the order met, and every scope is left as it was |
| ScopedRelations.RelationOccurrences | src/impls/scoped_relations.rs:30-38 | exactly the shown names that resolve to stored relations, in the order they are met |
| ScopedRelations.RelationNames | src/impls/scoped_relations.rs:16-26 | each stored relation's folded name once, in the order first met |
| ScopedRelations.FoldedAre | src/impls/scoped_relations.rs:16-26 | each name recorded is the last part of the name met, lower-cased |
| SourceOrder.EveryNameIsShown | src/impls/scoped_relations.rs:28-79 | on every tree, no stored relation is missed exactly when every TABLE operand of a set operation names a common table expression in view where it stands |
| SourceOrder.OrderIsKept | src/impls/scoped_relations.rs:28-79 | on every tree, the relations recorded stand in source order exactly when no query has both a bare TABLE and a WITH list naming stored relations |
| SourceOrder.NamesReadAlike | src/impls/scoped_relations.rs:28-79 | on every tree, the names recorded are those in source order exactly when around each bare TABLE of a stored relation a WITH list that keeps its own order names no other, and one that does not is turned by one |
| SourceOrder.BareComesFirst | src/impls/scoped_relations.rs:66-78 | an input recorded out of order: WITH x AS (SELECT * FROM b) TABLE a |
| SourceOrder.NamesMayCoincide | src/impls/scoped_relations.rs:66-78 | an input whose places are out of order though its names are not |
| ScopedRelations.OperandIsMissed | src/impls/scoped_relations.rs:69-76 | an input with such an operand, whose relation is missed |
| Idioms.MembershipMeansAny | src/impls/idioms.rs:190-254 | for every text, left side, delimiter and negation, NULLs included, the emitted CASE expression has the truth value of x = ANY(string_to_array(a, d)) or x <> ALL of it |
| Idioms.MembershipReadsBack | src/impls/idioms.rs:256-330 | reading back undoes building, and accepts only what building emits |
| Idioms.WholeElements | src/impls/idioms.rs:194-214 | the delimited text contains the delimited value exactly when the value is one of the split elements |
| Idioms.AllIsNotAny | src/impls/idioms.rs:190-254 | the negated form is the three-valued negation of the plain one |
| BindOnce.TranslationKeepsMeaning | src/impls/bind_once.rs:31-86 | for every engine, group, row and count of draws, an accepted expression's translation evaluates to its value and draws as it draws: nothing volatile is repeated or moved and no aggregate changes its group |
| BindOnce.TranslationIsLinear | src/impls/bind_once.rs:22-59 | at any nesting depth the output is at most a constant, fixed by the forms, times the source |
| BindOnce.BoundComputes | src/impls/bind_once.rs:65-86 | the bound subquery evaluates to the form over its operands' values |
| BindOnce.RefusedExactly | src/impls/bind_once.rs:38-58 | an expression is refused exactly when it holds a repeating construct with an operand that comes out neither a column nor a literal and holds a call that does not replay, or one that repeats in turn where no subquery may stand or some operand holds an aggregate |
| BindOnce.DrawnTwice | src/impls/bind_once.rs:25-45 | a construct over a call that does not replay, which is refused, and which written out twice has another value |
| BindOnce.PlainIsKept | src/impls/bind_once.rs:88-110 | an expression with no repeating construct is its own translation |
| BindOnce.XorForm | src/impls/translator_impls/expr.rs:2765-2790 | the form for # computes exclusive or on 64-bit two's complement integers |
| BindOnce.BitwiseAtEachPlace | src/impls/translator_impls/expr.rs:2765-2790 | the bitwise operators that law is stated with give, at each place of a two's complement word, the operator on the bits there |
| MinorUnits.RescaleRounds | src/impls/shared_helpers.rs:930-972 | growing the scale is exact; shrinking rounds to a nearest count, half away from zero, under truncating division; NULL stays NULL |
| MinorUnits.ScaledLiteral | src/impls/shared_helpers.rs:974-1012 | a literal is refused exactly when finer than the scale, and otherwise becomes its value times ten to the scale, exactly unless a minus sign stands before digits carrying their own, a shape no caller builds |
| MinorUnits.BuiltKeepsItsValue | src/impls/shared_helpers.rs:1425-1442 | every literal the parser writes and every quoted decimal read back is scaled exactly, or refused as too fine |
| MinorUnits.QuotedIsSigned | src/impls/shared_helpers.rs:1425-1442 | a quoted text is read exactly when, its outer spaces aside, it is a sign or none and a decimal, and as that decimal with its minus sign |
| MinorUnits.NumbersAreScaled | src/impls/shared_helpers.rs:974-995 | exactly numbers, signed or not, are scaled, and of those exactly the ones with an exponent are refused as such |
| MinorUnits.SignTwice | src/impls/shared_helpers.rs:974-1012 | the shape set apart is none of those, and its value is lost |
| MinorUnits.RenderEvaluates | src/impls/shared_helpers.rs:1820-1874 | the printf expression prints sign, whole part and all places of every integer, and keeps NULL |
| MinorUnits.RenderedReadsBack | src/impls/shared_helpers.rs:1425-1442 | for every integer and every scale of at least one, printing and reading back into that scale gives the integer |
| Templates.TemplateReadsBack | src/impls/datetime_helpers.rs:302-339 | whenever a strftime format has a template, lowering the template gives the format back exactly |
| Templates.TemplateExists | src/impls/datetime_helpers.rs:311-339 | the formats that have one are those of known specifiers and separators |
| Templates.SeparatorsAre | src/impls/datetime_helpers.rs:190-195 | alone, exactly eight characters are separators, T among them, and each stays as it is |
| ToChar.FormatAnswersTemplate | src/impls/datetime_helpers.rs:170-272 | over all fields, strftime of the lowered format answers what to_char of the template answers, by PostgreSQL's own keywords, exactly when no three Ds or Ss stand in a row outside quotes |
| ToChar.TemplateAnswersFormat | src/impls/datetime_helpers.rs:302-339 | the template spelled for a format answers the format exactly when no two specifiers in a row spell three Ds or Ss |
| ToChar.SecondsOfDay | src/impls/datetime_helpers.rs:170-272 | SSSS, seconds of the day to PostgreSQL, is lowered as seconds twice and spelled back for seconds twice |
| Templates.PgToCharFormatToStrftime | src/impls/datetime_helpers.rs:197-272 | the scanning loop computes the specification, refusals included |
| Templates.StrftimeFormatToPgToChar | src/impls/datetime_helpers.rs:311-339 | the scanning loop computes the specification |
| EmittedNamespace.RejectNameCollisions | src/impls/emitted_namespace.rs:78-91 | over every script whose index and trigger owners are live, refuses exactly when a definition lands on a name the identity-keyed catalogue holds, naming the first collision |
| EmittedNamespace.Namespaces.Apply | src/impls/emitted_namespace.rs:161-199 | each statement moves the name maps and the catalogue together |
| EmittedNamespace.Namespaces.DropObject | src/impls/emitted_namespace.rs:246-251 | removes exactly the object and what is attached to it, in both views |
| EmittedNamespace.Namespaces.RenameObject | src/impls/emitted_namespace.rs:253-273 | moves one object's name, its attachments following it, or refuses when the new name is held |
| EmittedNamespace.Namespaces.DefineObjectKey | src/impls/emitted_namespace.rs:210-221 | refuses exactly a held name, and otherwise adds that one object |
| EmittedNamespace.Namespaces.DefineTriggerKey | src/impls/emitted_namespace.rs:232-244 | refuses exactly a held trigger name, and otherwise adds that one trigger |
| EmittedNamespace.DropFollowsRename | src/impls/emitted_namespace.rs:246-273 | dropping an object by its new name after a rename leaves what dropping it by the old name leaves |
| EmittedNamespace.IndexGoesWithTable | src/impls/emitted_namespace.rs:161-251 | an index created on a table has its name held until that table is dropped, and dropping any other relation leaves it held |
| EmittedNamespace.TriggerGoesWithTable | src/impls/emitted_namespace.rs:161-251 | and so has a trigger |
| Placement.HomesOf | src/history/placement.rs:362-426 | a view ends in TEMP exactly when its own home is TEMP or a chain of view reads leads to a relation whose own home is not the main file; every other name keeps its own; no view left elsewhere reads what is placed |
| Placement.ReadingIsCreated | src/history/placement.rs:384-389 | the views that read a name are those some statement creates over it, temporary ones too |
| Placement.CloseViews | src/history/placement.rs:415-426 | the closure loop ends, at that least closure |
| Placement.ChainIsPlaced | src/history/placement.rs:415-426 | once no view is left to move, every view on a chain leading outside has moved |
| Placement.LastCreationDecides | src/history/placement.rs:362-400 | the names with a home of their own are those some statement creates, and the last to create one decides: TEMP when made temporary, else the attached file for a table stored there, else the main file |
| Placement.IndexFollowsTable | src/history/placement.rs:402-413 | an index lives where its table does, and in the main file when its table has no home; the index names are taken to be no relation's and, before it, not its table's |

## Left out

- Connection.ReplayRecreatesSurvivors: assumes each committed unit stays within its recorded frame, and that a retained unit's statements that are not connection-local leave TEMP storage alone; names outside the catalogue are skipped by the code, so units are taken not to depend on stored rows. A behaviour is told which statement of the batch it runs; that its names stand for the same objects in the program is SlicedCatalogue.NamesResolveAlike, outside this theorem.
- Connection.ConnectionProgram: takes which emitted statements are connection-local as a parameter, and replays units as they were emitted: rebinding names to the final schema, the schema replay and the refusals they raise are not part of this model.
- Connection.ConnectionProgram: when nothing is retained the program is empty, as in the code; the text of the refusal is not modelled.
- Effects.RowStatementMeaning: is stated for one row statement; a unit that creates a trigger on a TEMP view records the view without its bases (src/history/effects.rs:264-268), so closure under view bases is not claimed across a whole unit.
- Effects.Catalog.Write: row statements are taken to name the relation they write among the relations they mention, which the collector guarantees for the statements that reach it.
- SlicedCatalogue.NamesResolveAlike: is stated for batches that land on no held name, which PostgreSQL refuses (SlicedCatalogue.LandingMatters is one that does), and takes statements that are not connection-local to leave the catalogue alone. It follows the relations a statement names; the catalogue SliceIsCatalogue compares holds the trigger and index names too.
- ScopedRelations.RelationOccurrences: gives the names shown, as they are met; the source promises every name in source order, which SourceOrder.EveryNameIsShown and SourceOrder.OrderIsKept say exactly when it keeps.
- AbortedTransactions.SessionsAgree: PostgreSQL also aborts a transaction when a statement fails; that statements succeed is taken for granted.
- ShiftedDates.ModifiersAdd: runs the modifiers as SQLite documents them, to the microsecond, where SQLite keeps times to the millisecond.
- DateModifiers.Scaled: unit words are lowered by ASCII letters alone.
- IntervalText.ParseIntervalFields: integers are unbounded; the checked 128-bit operations only add refusals.
- TemporalLiterals.OneTextPerInstant: the fraction of a second is a function from digits to microseconds, in 0..=1000000 and exact for six digits, in place of the floating-point rounding at src/impls/temporal_literals.rs:151-160.
- TemporalLiterals.DateIdempotent: letters are ASCII letters in the check for input that is not ISO; any other letter is refused one step later, when its component is read, so the same inputs are accepted.
- RelationScope.RelationScopes.Binding: identifier matching is a parameter, since it belongs to another crate.
- ScopedRelations.RelationCollector.Visit: trees keep only what the visitor is called on; addresses of different queries and different names differ, and function arguments hold no statements.
- BindOnce.TranslationKeepsMeaning: every plain construct lowers onto itself, so that the repeating ones are what is proved; whether a call replays, and whether a subquery may stand, are given.
- Idioms.MembershipMeansAny: both operands are text or NULL.
- MinorUnits.RescaleRounds: the value is an integer or NULL, and integers do not overflow.
- EmittedNamespace.RejectNameCollisions: seeding from a starting schema is the same definitions in a fixed order and has no member of its own.
- ToChar.FormatAnswersTemplate: a field is any text for each keyword, so what a field's own text is, its padding and its locale, is not modelled.
- Placement.HomesOf: covers the homes of created tables, views and indexes; the later overlay of schema tables, qualifying statements with their file, foreign keys across files and trigger homes are not modelled.
- Error wording, warnings and options are reduced to which refusal is raised.
- The syntax trees, the per-variant expression translators, function inventories and keyword quoting are tables and mechanical recursion.
- Reading files, the git loader, the C runner and the web playground are input and output.
