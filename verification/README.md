# Firebird client-side compiler, backup streams and recovery: a verified model

This project models six parts of the Firebird 1.5 client side and proves what they are for.

* **Byte code generation** (`Blr`, `BlrEval`, `Tree`, `Lowering`, `Statements`, `Request`, `Gen`): SQL trees are
  given a meaning under three-valued logic, the byte code a decoder and an evaluator, and the recursive procedures that
  append bytes to a growing buffer are proved to emit exactly a lowering that preserves the meaning; `Descriptors` reads
  the types of the emitted casts back.  `Triggers` and `ViewCheck` do the same for the foreign-key triggers, down to what
  they do to the referencing table and to what the engine's reader of definitions (`Dyn`) makes of them, and for the test
  that an updatable view generates.
* **The DSQL interface** (`Cursors`, `InfoReply`, `Describe`, `MessageLayout`, `PlanTree`, `PlanPrinter`, `PlanMeaning`,
  `PlanReport`): the bookkeeping of open cursors over all runs, replies to information requests and the exchange by which a
  client has a statement's variables described, the layout of messages on both sides of the interface, and the printer of access plans, whose joins return before they have read their last
  stream's end markers.
* **The symbol table** (`Symbols`): hash buckets of collision and homonym links, rewritten in place, against the plain
  collection of live symbols.
* **Backup streams** (`Streams`, `Volumes`, `Gsplit`): a buffered writer over several files of limited size and a reader
  that joins them, for all short writes and reads, and the stand-alone splitter with its numbered headers.
* **The canonical record codec** (`Canonical`): one routine in both directions over an expanding XDR stream.
* **Two-phase commit recovery** (`Recovery`): an in-order coordinator that may stop anywhere, any databases out of reach,
  and the tool's advice and action, as a state machine.

`Bytes`, `BlrVerbs` and `Wrappers` hold little-endian integers, the codes of the byte code and the option type.  Code that works by changing things step by step
is modelled by methods and classes proved against specification functions; the properties are then lemmas about those
functions.  What the surroundings decide (how much a system call moves, whether a reconnect works, what the engine
answers) is arbitrary.

## Findings

Where the code does not meet what it is for, the exact condition is proved.

* Towards version 3 databases an approximate literal loses the minus sign in front of it (`Lowering.LostSign`), and no
  other literal the parser builds does (`Lowering.FoldedNegation`).  The same branch would change -32768, -2147483648 and
  quads, but `src/dsql/make.cpp:84-213` and `src/dsql/parse.y:4888-4932` never build them.
* Loop labels are one byte, so the loop whose number is a multiple of 256 has the label of the body: an exit that reaches it
  ends that loop instead of the body, and nothing else in any nest is compiled wrong (`Statements.EmittedMeaning`,
  `Statements.LabelsSuffice`, `Statements.ExitFromLoop`; `Statements.DeepExit` is a body that then never ends).
* A plan that reaches the end of the caller's buffer exactly at an outermost item is cut there without notice; the places
  are given by `PlanMeaning.ReportMarks`, an example by `PlanMeaning.CutBehindName`.
* A plan is printed, given the room, iff no tree of it reads an external relation by index, which the engine reports
  without a name for the printer to find (`PlanMeaning.ReportPrintedIff`).  Such access arises only in VMS builds
  (`src/jrd/extvms.cpp:497`); elsewhere external relations are read through (`src/jrd/ext.cpp:429`), which is printed.
* The hash value -2^31 is its own negation and gives a bucket outside the table (`Symbols.BucketInRange`); the name of
  twenty-nine letters A and then UZ has it (`Symbols.UnhashableNameExists`).
* A symbol of no database joins the chain of any database's symbol of that name that it meets before its own, and is then
  not found (`Symbols.InsertionFindsItsKey`, `Symbols.ShadowedIsLost`).
* A client's message description is checked in sixteen bits: one whose layout is longer than the message by a multiple of
  65536 is accepted as well (`MessageLayout.ParseBlr`, `MessageLayout.WrappedLayout`), and its variables lie where it puts
  them exactly below 65536 (`MessageLayout.BoundInside`).
* A client that is told its variables in several replies asks again from the last complete one.  The exchange ends iff
  every two neighbours fit into one reply (`Describe.DescribedIff`), which the buffer it allots and the engine's names
  see to (`Describe.AllDescribedToClient`).  With variables numbered out of their order, in more than one reply, it can
  pass over one (`Describe.OutOfOrder`); one reply tells them in any order (`Describe.ToldInOneReply`).
* Padding of opaque strings is whatever is on the stack (`src/remote/xdr.cpp:590-606`), where section 4.9 of RFC 4506 asks
  for zeros; the model leaves it arbitrary and the round trip holds all the same.
* The offset of the null flags grows by two for every `blr_varying` field, even one that lies before the offset reached,
  and not for `blr_varying2`; in layouts that are not ascending flags may overlap a field.  The codec is insensitive to
  that (`Canonical.RestoredBytes`).
* Recovery relies on the records a reconnected commit leaves (`Recovery.ErasedRecordsWouldMislead`); these facts are taken
  from `src/jrd/tra.cpp:386-410`, `src/jrd/tra.cpp:1159-1170` and `src/jrd/met.epp:3863-3890`.

Names and comments in the source call some of this differently: the comment on `TDR_analyze` speaks of states "up to now",
but the state compared is fixed from the first entry; the model follows the code.

## Model

| member | source | states |
|---|---|---|
| `Bytes.WordRoundTrip` | src/dsql/gen.cpp:2729-2734 | the two bytes written for a word read back as its low sixteen bits, for every integer |
| `Bytes.DoubleRoundTrip` | src/dsql/gen.cpp:1337-1345 | the four bytes written for a long read back as its low thirty-two bits, for every integer |
| `Bytes.QuadRoundTrip` | src/dsql/gen.cpp:1299-1439 | the eight bytes written for a 64-bit value read back modulo 2^64, for every integer |
| `Blr.DtypeDecodes` | src/dsql/gen.cpp:1454-1540 | every descriptor reads back, and what follows it is left unread |
| `Blr.LeafDecodes` | src/dsql/gen.cpp:146-270 | every expression without operands reads back before any following bytes |
| `Blr.OpDecodes` | src/dsql/gen.cpp:510-513 | a verb and its operands read back: the number of operands need not be written |
| `Blr.DecodeEncode` | src/dsql/gen.cpp:146-561 | prefix decodability: for every well-formed expression and any bytes behind it, decoding returns exactly that expression and those bytes |
| `Blr.DecodeEncodeAll` | src/dsql/gen.cpp:510-513 | the same for a list of expressions of known length |
| `Blr.RseDecodes` | src/dsql/ddl.cpp:5813-5866 | a record selection with its condition reads back, and what follows is left |
| `Blr.DecodeEncodeStmt` | src/dsql/gen.cpp:861-1174 | prefix decodability for statements: blocks, conditionals with and without an else, labelled loops, record loops and row changes |
| `Blr.DecodeEncodeStmts` | src/dsql/gen.cpp:961-967 | a statement list ends at its own end marker whatever the statements contain |
| `Blr.DecodeEncodeRequest` | src/dsql/ddl.cpp:3927-3944 | version, one complete statement and the end-of-code byte read back as exactly that statement, with nothing left over |
| `Lowering.ConstantMeaning` | src/dsql/gen.cpp:1299-1439 | every literal accepted without a sign reads back as the constant it stands for, in all widths and both database versions; the one refused is +2^63 |
| `Lowering.FoldedNegation` | src/dsql/gen.cpp:389-402 | over every numeric constant, folding a minus sign into the literal is right exactly for those FoldsWell names; among the literals the parser builds it is right iff the literal is not an approximate one towards version 3 |
| `Lowering.LostSign` | src/dsql/gen.cpp:1321-1331 | towards version 3 every approximate literal the parser builds gives the same code with a minus sign as without, and that code does not evaluate to the negated value |
| `Lowering.Int64ReadsBack` | src/dsql/gen.cpp:1370-1400 | a 64-bit literal is narrowed to a long only when it fits, and keeps its value and scale either way |
| `Lowering.LowerWellFormed` | src/dsql/gen.cpp:146-561 | what the compiler emits is always decodable: every verb has the operands its decoder expects |
| `Lowering.CoalesceMeaning` | src/dsql/gen.cpp:1260-1284 | for lists of any length the nested conditionals of COALESCE, results in reverse, evaluate to the result at the first non-null test |
| `Lowering.CoalesceIsFirstNonNull` | src/dsql/gen.cpp:1260-1284 | COALESCE over one list evaluates, cast to its type, to the first value that is not null |
| `Lowering.CoalesceOfNullsIsNull` | src/dsql/gen.cpp:1260-1284 | COALESCE of nulls is null, cast to its type |
| `Lowering.CaseMeaning` | src/dsql/gen.cpp:2150-2170 | for lists of any length the nested conditionals of CASE evaluate to the result of the first branch that is true, else to the last result; an unknown condition is not true |
| `Lowering.EqualTestsMeaning` | src/dsql/gen.cpp:2503-2525 | the tests of a simple CASE are the three-valued comparisons of its operand with each branch |
| `Lowering.LowerMeaning` | src/dsql/gen.cpp:146-561 | compiler correctness for expressions: for every tree the parser builds and the compiler accepts, every engine and state, the emitted code evaluates to the tree's SQL meaning, unless towards version 3 an approximate literal stands directly under a minus sign; the code also names the same place to store into |
| `Lowering.AcceptedIff` | src/dsql/gen.cpp:146-561 | the compiler accepts exactly the trees with no 2^63 but right behind a minus sign, no field of a newer type for an older dialect, and no conditional of a type without a byte form |
| `Descriptors.DescriptorReads` | src/dsql/gen.cpp:1454-1540 | the descriptor of an emitted cast, read by the reader of messages, is the node's: its type, its length in memory with the count of a varying string, its scale, and its text type unless towards version 3, with nothing left over |
| `Descriptors.DescriptorExists` | src/dsql/gen.cpp:1454-1540 | a descriptor is emitted for every type but those without a byte form |
| `Lowering.OperatorMeaning` | src/dsql/gen.cpp:270-440 | every operator is given the verb with the same meaning on all operand values |
| `Statements.EmittedMeaning` | src/dsql/gen.cpp:861-1174 | what the emitted code of any accepted statement does, for every state and any number of loop turns: it ends in the same way and in the same state as the source would if labels were one byte |
| `Statements.LabelsSuffice` | src/dsql/gen.cpp:1045-1060 | one-byte labels are as good as any unless an exit stands inside a loop whose number is a multiple of 256, however deep the nest |
| `Statements.StatementMeaning` | src/dsql/gen.cpp:861-1174 | compiler correctness for statements: running the emitted code ends in the same way and in the same state as running the source, for every state and any number of loop turns, in any statement in which no exit stands inside a loop whose number is a multiple of 256 |
| `Statements.LoopMeaning` | src/dsql/gen.cpp:1150-1160 | a loop always leaves through a label: its own when the condition fails, on a break, or on an exit if its own is 0, and otherwise the body's |
| `Statements.ExitFromLoop` | src/dsql/gen.cpp:1045-1060 | the condition is exact: a run of a loop whose action passes it is compiled right iff it is not the case that the loop's number is a multiple of 256 and the run ends in an exit; if it is, the code goes on behind the loop |
| `Statements.DeepExit` | src/dsql/gen.cpp:1045-1060 | an exit inside 256 loops that do not end by themselves leaves the body at once in the source, while the emitted code never ends |
| `Statements.StatementWellFormed` | src/dsql/gen.cpp:861-1174 | what is emitted for an accepted statement is decodable |
| `Statements.StatementAcceptedIff` | src/dsql/gen.cpp:861-1174 | a statement is accepted iff every value in it is |
| `Statements.CompiledBody` | src/dsql/gen.cpp:861-1174 | end to end: the bytes of any accepted body parse back to one statement, and running it ends as one-byte labels make it, which is as the source ends where no exit stands inside a loop whose number is a multiple of 256 |
| `Request.DsqlRequest.ExpandBuffer` | src/dsql/gen.cpp:104-132 | replacing the buffer by a larger one changes nothing that was written |
| `Request.DsqlRequest.Stuff` | src/dsql/gen.cpp:104-132 | a byte is appended whatever the room left; nothing written earlier moves |
| `Request.DsqlRequest.StuffWord` | src/dsql/gen.cpp:2729-2734 | a word is appended, low byte first |
| `Request.DsqlRequest.StuffCString` | src/dsql/gen.cpp:2707-2720 | a name of at most 255 bytes is appended behind its one-byte length |
| `Request.DsqlRequest.AppendNumber` | src/dsql/ddl.cpp:5514-5520 | an attribute with its value is appended, the length of the value in front |
| `Request.DsqlRequest.AppendCString` | src/dsql/ddl.cpp:5538-5546 | a named attribute is appended with its length |
| `Request.DsqlRequest.BeginBlr` | src/dsql/ddl.cpp:699-710 | room for the length is left and its place is remembered |
| `Request.DsqlRequest.EndBlr` | src/dsql/ddl.cpp:3927-3944 | the two bytes at the remembered place become the number of bytes behind them and nothing else changes, or the definition is refused, exactly when that number exceeds 65535 |
| `Gen.GenConstant` | src/dsql/gen.cpp:1299-1439 | appends exactly the encoding of the lowered literal, or raises exactly when there is none |
| `Gen.GenField` | src/dsql/gen.cpp:1599-1650 | appends a field reference, by id or by name as the database asks |
| `Gen.GenParameter` | src/dsql/gen.cpp:1814-1840 | appends a parameter with its indicator if it has one |
| `Gen.CoalesceBytes` | src/dsql/gen.cpp:1260-1284 | all tests in order, then all results backwards, are the bytes of the nest of conditionals |
| `Gen.CaseBytes` | src/dsql/gen.cpp:2150-2170 | condition and result in turn, then the last result, are the bytes of the nest of conditionals |
| `Gen.GenCoalesce` | src/dsql/gen.cpp:1260-1284 | its two loops append exactly the encoding of the lowered COALESCE |
| `Gen.GenSearchedCase` | src/dsql/gen.cpp:2150-2170 | its loop appends exactly the encoding of the lowered searched CASE |
| `Gen.GenSimpleCase` | src/dsql/gen.cpp:2503-2525 | its loop appends exactly the encoding of the lowered simple CASE, the operand once per branch |
| `Gen.GenExpr` | src/dsql/gen.cpp:146-561 | for every tree: appends exactly the encoding of the lowered expression, or raises exactly when there is none; on an error nothing written earlier is lost |
| `Gen.GenWhile` | src/dsql/gen.cpp:1150-1160 | appends the labelled loop whose turn is the guarded action or a leave |
| `Gen.GenIf` | src/dsql/gen.cpp:951-960 | appends a conditional, with an end marker where the else is missing |
| `Gen.GenStatement` | src/dsql/gen.cpp:861-1174 | for every statement: appends exactly the encoding of the lowered statement, or raises exactly when there is none |
| `Triggers.TriggersParse` | src/dsql/ddl.cpp:1377-1436 | for any number of key columns all three kinds of trigger body are one complete statement, with balanced begin and end markers, before the end-of-code byte |
| `Triggers.EmissionIsChain` | src/dsql/ddl.cpp:5813-5866 | the loop that puts a verb before all but the last comparison emits exactly one nested chain of them |
| `Triggers.MatchingMeaning` | src/dsql/ddl.cpp:5813-5866 | the matching condition is true for a row iff all its key columns equal the referenced ones; a null makes it not true |
| `Triggers.FiringMeaning` | src/dsql/ddl.cpp:5869-5913 | the firing condition is true iff some key column compares unequal before and after; nulls do not |
| `Triggers.DeleteCascadeMeaning` | src/dsql/ddl.cpp:1377-1436 | running the delete cascade removes exactly the rows that refer to the deleted key and touches nothing else |
| `Triggers.SetNullMeaning` | src/dsql/ddl.cpp:2588-2655 | running set-null clears the key of exactly the referring rows; for an update, only when the referenced key changed |
| `Triggers.UpdateCascadeMeaning` | src/dsql/ddl.cpp:3242-3307 | running the update cascade gives exactly the referring rows the new key, when the key changed |
| `Triggers.NoOrphans` | src/dsql/ddl.cpp:1377-1436 | after a delete cascade a row that refers to the deleted key does not occur, and every other row occurs as often as before |
| `Triggers.NoneLeft` | src/dsql/ddl.cpp:2588-2655 | after set-null every row is in its place, the key columns of those that referred to the old key are null and their other columns unchanged, and no row refers to the old key |
| `Triggers.RowsFollow` | src/dsql/ddl.cpp:3242-3307 | after an update cascade every row is in its place, those that referred to the old key have the new key's values and their other columns unchanged; they refer to the new key iff no column of it is null |
| `Triggers.StuffMatchingBlr` | src/dsql/ddl.cpp:5813-5866 | its loop appends exactly the encoding of the matching condition for any number of columns |
| `Triggers.StuffTrgFiringCond` | src/dsql/ddl.cpp:5869-5913 | its loop appends exactly the encoding of the firing condition for any number of columns |
| `Triggers.AppendHeader` | src/dsql/ddl.cpp:6103-6150 | the attributes every unnamed referential trigger begins with are appended |
| `Triggers.DefineModifying` | src/dsql/ddl.cpp:2588-2655 | the two triggers that change referring rows append their definition alike, or are refused for its size |
| `Triggers.DefinitionReads` | src/jrd/dyn_def.epp:3755-3860 | the definition of a trigger of any event, relation and body is read, attribute by attribute up to the end, as exactly that trigger, with nothing left over |
| `Dyn.StringStep` | src/jrd/dyn_def.epp:3800-3856 | a reader of attributes takes a counted string for what its code says and goes on behind it |
| `Dyn.NumberStep` | src/jrd/dyn.epp:605-626 | the same for numbers, which come with their own length |
| `Triggers.DefineDelCascadeTrg` | src/dsql/ddl.cpp:1377-1436 | what is appended reads back as exactly one trigger: after erase (type 6) on the referenced relation, active, first in sequence, a referential constraint, whose code parses to the delete cascade; refused iff the body exceeds the length field |
| `Triggers.DefineSetNullTrg` | src/dsql/ddl.cpp:2588-2655 | the same for set-null: after erase on delete, after modify (type 4) on update |
| `Triggers.DefineUpdCascadeTrg` | src/dsql/ddl.cpp:3242-3307 | the same for the update cascade, after modify |
| `ViewCheck.SameColumnMeaning` | src/dsql/ddl.cpp:3174-3238 | one column's test is true iff the old and the base value compare equal or both are null; it is never unknown for two nulls |
| `ViewCheck.DefineUpdateAction` | src/dsql/ddl.cpp:3174-3238 | for every select list the grown tree has two operands at every AND iff some column is plain, and then it is true iff all plain columns agree and the WHERE condition is true |
| `InfoReply.WantedValid` | src/dsql/dsql.cpp:1659-1821 | no answer, whatever was asked, starts with a code that a client reads as the end of a reply |
| `InfoReply.ReplyIsWellFormed` | src/dsql/dsql.cpp:4530-4554 | a reply reads back as the longest run of answers that fit, in request order; it ends in the end marker iff all of them do and in the truncation marker otherwise |
| `InfoReply.Writer.PutItem` | src/dsql/dsql.cpp:4530-4554 | an answer is written whole and leaves a byte free, or the truncation marker is written in its place; bytes behind the buffer are untouched |
| `InfoReply.Writer.VarInfo` | src/dsql/dsql.cpp:4682-4850 | the variables from the wanted one on are answered code by code, each closed by its marker; one of an unknown type raises |
| `InfoReply.SqlInfo` | src/dsql/dsql.cpp:1659-1821 | for every item list and every length of at least one byte: the reply is the answers wanted as far as they fit, inside the buffer, or an error exactly when an undescribable variable is reached before the room runs out |
| `InfoReply.OneItem` | src/dsql/dsql.cpp:1674-1821 | the bytes of the reply to a request for one item that needs no message: the statement's number, whether batches are fetched, or an error item that quotes the code |
| `InfoReply.StatementReads` | src/jrd/ibase.h:1926-1939 | a client that reads a statement's number in its own list of them knows the kind of statement |
| `InfoReply.NullAnswer` | src/dsql/dsql.cpp:4782-4804 | whether a variable may be null is answered as 1 or 0, its message sequence by an empty value |
| `Describe.Sqlda.ParseSqlInfo` | src/dsql/utld.cpp:96-224 | the client fills its area from a reply's bytes as the definition of reading says; bytes that are not there and variables the area does not have are told apart from errors |
| `Describe.ParseIsPlay` | src/dsql/utld.cpp:150-220 | the client sees in a reply, whatever stands behind it in the buffer, the answers the reply reads back as |
| `Describe.DescribeStatement` | src/jrd/why.cpp:5461-5507 | asking, filling and asking again from the last complete variable leave in the area what the definition of the exchange says, for every statement, buffer and number of turns |
| `Describe.DescribedIff` | src/jrd/why.cpp:5461-5507 | for variables numbered in order and a buffer of any size: the exchange ends with every variable told iff every two neighbours fit into one reply; if not, however often it asks, it comes back to the last variable before the first that does not fit, and has told exactly those before |
| `Describe.AllDescribedToClient` | src/jrd/why.cpp:5367-5409 | with the buffer the client allots and names of at most 31 bytes, every variable of every statement is told |
| `Describe.SmallArea` | src/dsql/utld.cpp:112-145 | an area with too few variables is told their number and otherwise left as it is |
| `Describe.ToldInOneReply` | src/dsql/utld.cpp:96-224 | where one reply holds all variables each is told, whatever their order, and no other entry of the area changes |
| `Describe.ClientHasRoom` | src/jrd/why.cpp:5367-5409 | the buffer the client allots holds up to 380 variables in one reply |
| `Describe.OutOfOrder` | src/jrd/why.cpp:5461-5507 | asking again passes over a variable behind the cut that has a smaller number: of the variables 2 and 1, 1 is never told |
| `Describe.VariableRegained` | src/dsql/utld.cpp:360-470 | what the client is told gives back, by its own reading of type codes, the variable's type, nullability, length in memory, scale, subtype and names; the length reads as negative iff it exceeds 32767 |
| `Describe.DescribedIsNameable` | src/dsql/utld.cpp:380-470 | a variable as it was described can be named in the client's description of its own message, with its own length and scale |
| `MessageLayout.PlacesAreSound` | src/dsql/gen.cpp:591-639 | for any parameters the places are aligned to their types, in order, apart from each other and inside the message |
| `MessageLayout.PlaceAt` | src/dsql/gen.cpp:591-639 | each place follows from where the earlier parameters end |
| `MessageLayout.PlaceIsFirst` | src/jrd/align.h:79-104 | each parameter is on its type's boundary (2 for short and varying, 4 for long, quad, real, dates and blobs, 8 for double and 64-bit, none for text), and no place on one is free between it and the end of the one before |
| `MessageLayout.ReadWidth` | src/dsql/dsql.cpp:4135-4228 | a described variable is as long as the engine's type named by its verb (2, 4 or 8 bytes) or as its description says, a varying string two bytes longer |
| `MessageLayout.GenPort` | src/dsql/gen.cpp:576-639 | numbers, places and the message length are those of the layout, or an error is raised exactly when an older client selects a newer type |
| `MessageLayout.ReadMessageBytes` | src/dsql/dsql.cpp:4124-4240 | a well-formed description of any number of variables reads back as exactly those variables |
| `MessageLayout.OneMore` | src/dsql/dsql.cpp:4225-4245 | a further variable and its indicator leave the places of the earlier ones as they are |
| `MessageLayout.BoundInside` | src/dsql/dsql.cpp:4225-4256 | a variable and its indicator lie apart and inside the message when the layout ends below 65536, and an indicator's address is its place iff the place is below 65536 |
| `MessageLayout.WrappedLayout` | src/dsql/dsql.cpp:4225-4262 | two texts of 40000 bytes and a message of 14468 are a description that is accepted although the layout ends at 80004 |
| `MessageLayout.DescribeThenParse` | src/dsql/dsql.cpp:4088-4269 | parsing what a client describes: a well-formed description of any variables is accepted iff the message ends where its layout does, modulo 65536, and then exactly those variables are bound |
| `MessageLayout.ParseBlr` | src/dsql/dsql.cpp:4088-4269 | no description leaves everything as it was and counts the numbered parameters; any other is accepted iff it is one and its layout has the message's length modulo 65536, and then every bound parameter and its indicator are where the layout puts them |
| `Cursors.CursorTable.FlagIsOwnership` | src/dsql/dsql.cpp:571-636 | in every state reached, a request is flagged open iff it owns an entry of the list, and then exactly one, the one it points at |
| `Cursors.CursorTable.Execute` | src/dsql/dsql.cpp:533-640 | an execution is refused for a missing transaction or an open cursor, fails in the engine, or opens a cursor at the head of the list exactly for the cursor statements; the bookkeeping survives every outcome |
| `Cursors.CursorTable.ExecuteThenFetch` | src/dsql/dsql.cpp:533-640 | behind a successful execution a fetch is refused exactly of a select that was to give its one row at once |
| `Cursors.CursorTable.CloseCursor` | src/dsql/dsql.cpp:2664-2701 | flag, pointer and entry go together and the other entries keep their order |
| `Cursors.CursorTable.FreeClose` | src/dsql/dsql.cpp:1227-1241 | closing a cursor that is not open is refused and changes nothing |
| `Cursors.CursorTable.FreeDrop` | src/dsql/dsql.cpp:4602-4640 | a dropped request takes its entry along, so no entry leads to a request that is gone |
| `Cursors.CursorTable.Prepare` | src/dsql/dsql.cpp:1399-1412 | a request with an open cursor is not prepared again; otherwise a new one takes its place |
| `Cursors.CursorTable.Fetch` | src/dsql/dsql.cpp:1007-1016 | fetching is refused iff the statement is a select of any kind or reads segments and no entry of the list is the request's |
| `Cursors.CursorTable.CleanupTransaction` | src/dsql/dsql.cpp:2617-2650 | the walk that restarts after every close ends, closes exactly the cursors of that transaction and keeps the others in order |
| `Cursors.OthersHas` | src/dsql/dsql.cpp:2626-2648 | what the end of a transaction leaves is exactly the cursors of other transactions |
| `Cursors.OthersWithout` | src/dsql/dsql.cpp:2626-2648 | closing one of a transaction's cursors leaves the same cursors for its end to leave |
| `Cursors.OthersCommute` | src/dsql/dsql.cpp:2617-2650 | transactions may end in any order with the same result |
| `Cursors.EntryWithout` | src/dsql/dsql.cpp:2686-2695 | taking an entry out takes it from its owner alone |
| `PlanTree.DumpedIsEngine` | src/jrd/opt.cpp:2306-2545 | the byte form read by the printer, split where a join returns, is what the engine writes for the tree, external relations included |
| `PlanTree.TextBalanced` | src/dsql/dsql.cpp:3504-3779 | the text of every plan whose names have no parentheses has balanced parentheses |
| `PlanMeaning.IndexTextIsCommas` | src/dsql/dsql.cpp:3239-3300 | leaving out commas behind an opening parenthesis or a blank separates the index names by single commas |
| `PlanMeaning.IndicesRun` | src/dsql/dsql.cpp:3239-3300 | an index tree of any shape is read to its last byte and prints its names in order, separated by commas |
| `PlanMeaning.StreamsRun` | src/dsql/dsql.cpp:3642-3656 | a join's loop reads each stream with its end markers, except that the last one's are left unread, and prints the streams separated by commas |
| `PlanMeaning.WholeStream` | src/dsql/dsql.cpp:3747-3761 | a sort's loop reads what is sorted to its end, including end markers that an inner join left |
| `PlanMeaning.TreeRun` | src/dsql/dsql.cpp:3504-3779 | plan printing: any loop that calls for items reads a whole tree without external indices, prints exactly its pretty-printed text and goes on behind its core, with the depth the unread end markers leave |
| `PlanMeaning.TreeFails` | src/dsql/dsql.cpp:3684-3716 | any loop that calls for items fails on a tree that reads an external relation by index, at whatever depth in joins, sorts and filters, however much room it has |
| `PlanMeaning.ReportRun` | src/dsql/dsql.cpp:3376-3392 | with room to spare every tree of a report without external indices is printed in full, each on a line of its own, and the report is read to its end |
| `PlanMeaning.ReportPrintedIff` | src/dsql/dsql.cpp:3376-3392 | with room to spare a report is printed in full iff no tree of it reads an external relation by index, and otherwise the printer fails |
| `PlanPrinter.ItemRoom` | src/dsql/dsql.cpp:3504-3779 | room decides only whether an item is printed, never what: with less room an item prints the same or fails |
| `PlanMeaning.ItemExtends` | src/dsql/dsql.cpp:3504-3779 | printing only adds text, and the room left shrinks by exactly what is added |
| `PlanMeaning.ReportMarks` | src/dsql/dsql.cpp:3378-3386 | where the outermost loop may stop: behind each line's heading, behind a lone relation's name, and at each line's end |
| `PlanMeaning.AttemptIs` | src/dsql/dsql.cpp:3362-3392 | what one pass prints of a report without external indices, for any buffer size: the whole text if it is shorter than the buffer; else exactly the buffer's worth if an outermost item ends there; else nothing |
| `PlanMeaning.CutBehindName` | src/dsql/dsql.cpp:3378-3386 | a buffer that ends with a relation's name cuts the line there and the caller is not told |
| `PlanMeaning.UnprintableAttempt` | src/dsql/dsql.cpp:3362-3392 | what one pass makes of a report with an external index: it fails whenever the buffer is longer than the text, and never reports success in a shorter one without having filled it |
| `PlanReport.Report.GetIndices` | src/dsql/dsql.cpp:3239-3300 | the two cursors and their lengths move in step, and the call does what the printer's definition says |
| `PlanReport.Report.GetRsbItem` | src/dsql/dsql.cpp:3504-3779 | the same for one item of any kind, through joins and sorts of any depth |
| `PlanReport.Report.PutAll` | src/dsql/dsql.cpp:3376-3392 | one pass over the report leaves in the buffer what AttemptIs says, or fails exactly when it says so; with an external index it fails or fills the buffer |
| `PlanReport.GetPlanInfo` | src/dsql/dsql.cpp:3317-3400 | the text comes from the caller's buffer or, if that was found too small, from a larger one; without external indices it is the whole text whenever that is shorter than the caller's buffer, with one there is none unless a buffer was filled |
| `Symbols.BucketInRange` | src/dsql/hsh.cpp:436-451 | the bucket number is inside the table for every hash value but -2^31 |
| `Symbols.UnhashableNameExists` | src/dsql/hsh.cpp:436-451 | the 31-character name of twenty-nine letters A and then UZ has that hash value, and its bucket number is -131 |
| `Symbols.ComputeHash` | src/dsql/hsh.cpp:436-451 | the loop computes the wrapped hash of the name |
| `Symbols.InsertionFindsItsKey` | src/dsql/hsh.cpp:228-255 | insertion reaches the chain of the symbol's own name and database iff it is not that the symbol has no database and a root of its name and some database stands before its own |
| `Symbols.OthersUnnamed` | src/dsql/hsh.cpp:228-255 | so a symbol with a database always reaches its own chain, as does one without when no live symbol of its name has a database |
| `Symbols.ShadowedIsLost` | src/dsql/hsh.cpp:228-255 | otherwise the symbol ends up in a chain of another key, and a search for its own key never meets it |
| `Symbols.ShadowedKeyword` | src/dsql/hsh.cpp:228-255 | a relation of some database and then a keyword of the same name is such a case |
| `Symbols.InsertedIsGood` | src/dsql/hsh.cpp:228-255 | every insertion adds exactly the new symbol, and keeps one chain per name and database, all in their bucket, iff the symbol is not shadowed |
| `Symbols.RemovedIsGood` | src/dsql/hsh.cpp:465-487 | a removal, promotion included, keeps the chains and takes away exactly that symbol |
| `Symbols.RemoveUndoesInsert` | src/dsql/hsh.cpp:321-338 | removing what was just inserted into its own chain restores every chain, its order included |
| `Symbols.KeptIsGood` | src/dsql/hsh.cpp:173-216 | finishing a database leaves exactly the symbols of the others, their chains in order |
| `Symbols.FoundInItsChain` | src/dsql/hsh.cpp:271-308 | a symbol is live iff it stands in the one chain of its name and database |
| `Symbols.LookupIsInTheCollection` | src/dsql/hsh.cpp:271-308 | the walk's answer in terms of the plain collection: a live symbol of that name, database and type, or none, only if there is none or a keyword newer than the client's parser stands first |
| `Symbols.AnswerIsUnique` | src/dsql/hsh.cpp:271-308 | where at most one symbol has the name, database and type, that determines the answer |
| `Symbols.FindRoot` | src/dsql/hsh.cpp:240-248 | the walk over the collision links stops at the first root insertion accepts |
| `Symbols.InsertInBucket` | src/dsql/hsh.cpp:228-255 | the rewritten links are those of the chains with the symbol inserted, shadowed or not |
| `Symbols.UnlinkRoot` | src/dsql/hsh.cpp:465-480 | a root is unlinked and its homonym, if any, promoted into its place |
| `Symbols.RemoveFromBucket` | src/dsql/hsh.cpp:321-338 | the search by address finds a symbol iff it is in the bucket and leaves the links of the chains without it |
| `Symbols.FinishBucket` | src/dsql/hsh.cpp:185-214 | one pass over a bucket leaves the links of exactly the other databases' chains |
| `Symbols.SymbolTable.Insert` | src/dsql/hsh.cpp:228-255 | the live symbols gain exactly the new one and every other bucket is untouched; the table is valid afterwards iff the symbol was not shadowed, and surely if it has a database or no live symbol of its name has one |
| `Symbols.SymbolTable.Lookup` | src/dsql/hsh.cpp:271-308 | the table's answer equals a lookup in the plain collection of live symbols |
| `Symbols.SymbolTable.Remove` | src/dsql/hsh.cpp:321-338 | the live symbols lose exactly the one removed; it reports failure iff the symbol was not there |
| `Symbols.SymbolTable.Finish` | src/dsql/hsh.cpp:173-216 | the live symbols are afterwards exactly those of other databases, in all 211 buckets |
| `Volumes.Backup.WriteStep` | src/burp/mvol.cpp:568-725 | one system call, however little it writes, adds what it wrote to the stream; a full file or disk leads to the next file, which takes over the size left; it fails on the last file alone, and only when the system refuses; no file but the last holds more than it was granted |
| `Volumes.Backup.HandOn` | src/burp/mvol.cpp:636-665 | what a full disk leaves of a file's size is added to the next file's, modulo 2^32; the sizes granted in all stay the same |
| `Volumes.Backup.Write` | src/burp/mvol.cpp:553-740 | the pending block, padded to a multiple of 512, is added to the stream and the byte starts the next block; it fails only when the last file is refused |
| `Volumes.Backup.WriteBlock` | src/burp/mvol.cpp:748-781 | stream and pending bytes grow by exactly the block, without padding, for any sizes of buffer, files and system calls, unless the last file is refused |
| `Volumes.Split` | src/burp/mvol.cpp:553-781 | a whole backup, given up only when the last file is refused: the files hold the stream and its padding, no file but the last more than it was granted, and the sizes granted in all are those given |
| `Volumes.Backup.Finish` | src/burp/mvol.cpp:149-173 | the end flushes what is pending, with less than one block of padding behind it, unless the last file is refused |
| `Volumes.SumMove` | src/burp/mvol.cpp:659-660 | handing a size on neither adds to nor takes from the sizes granted in all |
| `Volumes.StampedReads` | src/burp/mvol.cpp:1428-1466 | a header's two numbers are read back from its bytes, although their digits have no end of their own, whatever follows the header |
| `Volumes.SplitterHeaderReads` | src/burp/mvol.cpp:1446-1458 | the headers the stand-alone splitter writes are read by the restore as the same numbers |
| `Volumes.OpenFiles` | src/burp/burp.cpp:1728-1803 | joining starts iff the first files of the list are parts 1 to total, in list order, of one backup, none of them standard input, and a database file follows; a first file that is standard input or has no header is a backup of its own; each error message names what is wrong with the list |
| `Volumes.Restore.NextVolume` | src/burp/mvol.cpp:895-906 | the next part follows until the last one, never a database file behind them, and nothing is lost in between |
| `Volumes.Restore.Read` | src/burp/mvol.cpp:295-346 | a buffer's worth is read whatever the system delivers, passing over empty parts; it fails iff nothing is left in any part |
| `Volumes.Restore.ReadBlock` | src/burp/mvol.cpp:406-440 | a read returns the next bytes of the joined parts, in order, whatever the chunks; it fails iff there are not so many |
| `Volumes.Restore.SkipBlock` | src/burp/mvol.cpp:448-475 | skipping leaves what reading would leave |
| `Volumes.JoinedIsSplit` | src/burp/mvol.cpp:1375-1466 | the files a split leaves, every one behind the bytes of its header, pass the join check that parses them, and join to the written stream and its padding |
| `Volumes.SplitThenJoin` | src/burp/mvol.cpp:553-781 | splitting a stream of blocks and joining the files by their headers returns the stream, for all block, file and buffer sizes and all short writes and reads, unless the split was given up on its last file |
| `Canonical.RestoredBytes` | src/burp/canonical.cpp:89-222 | reading a form back gives every byte of the values and null flags it covers the original's value and changes no other byte, even where slots overlap |
| `Canonical.Xdr.ExpandBuffer` | src/burp/canonical.cpp:452-490 | a larger buffer holds what the old one held |
| `Canonical.Xdr.PutBytes` | src/burp/canonical.cpp:372-406 | bytes are appended in order through any number of expansions |
| `Canonical.Xdr.GetBytes` | src/burp/canonical.cpp:276-308 | bytes are delivered in order and passed |
| `Canonical.Xdr.XdrShortWord` | src/remote/xdr.cpp:616-648 | a short travels as a long of the same sign and comes back unchanged |
| `Canonical.Xdr.XdrOpaque` | src/remote/xdr.cpp:575-613 | an opaque string travels with padding to a multiple of four and comes back unchanged, whatever the padding is |
| `Canonical.XdrDatum` | src/burp/canonical.cpp:493-594 | each type of item is written in its form or read back from it by the same call; a type that has none fails |
| `Canonical.EncodeDecode` | src/burp/canonical.cpp:89-222 | in either direction one walk visits the same items: encoding appends their form, decoding restores them from it and consumes exactly its length; it fails iff a field's type has no form |
| `Canonical.ValueIsCovered` | src/burp/canonical.cpp:115-192 | what travels of a field is its value in the engine's terms: offset to offset plus length for text and fixed widths, eight bytes for blobs and arrays, the count and its characters for varying, up to the terminating zero for cstring |
| `Canonical.RecordCovers` | src/burp/canonical.cpp:89-222 | every byte of every field's value travels with the record, wherever the field stands in it |
| `Canonical.FlagCovered` | src/burp/canonical.cpp:193-222 | the null flag of every field travels, at the place the backup keeps it, where fields ascend |
| `Canonical.FormIsXdr` | src/remote/xdr.cpp:117-613 | the form of every item is what RFC 4506 asks for: a short or long as four bytes of the same signed value, most significant first (section 4.1), a hyper as eight (4.5), a string as its count and its bytes up to a multiple of four (4.10 and 4.11), whatever the padding |
| `Canonical.EncodeThenDecode` | src/burp/canonical.cpp:89-222 | round trip: for every record whose fields that travel have a type the codec knows at the engine's width, and for no other, decoding what was encoded restores every byte of every such field's value and, where fields and flags are laid out as the backup lays them out, both bytes of its null flag; it changes nothing else, and reads exactly the bytes written, through any number of expansions |
| `Canonical.WriteSlice` | src/burp/canonical.cpp:658-736 | a slice is written as its length in bytes and its whole elements |
| `Canonical.ReadSlice` | src/burp/canonical.cpp:658-736 | a slice of any number of whole elements is read back over the storage there is, if that is long enough, leaving its end untouched, and into new storage otherwise, and exactly its bytes are consumed; an empty one touches nothing |
| `Canonical.WriteThenReadSlice` | src/burp/canonical.cpp:233-260 | round trip: a slice written and read into another, with or without storage of its own, restores every byte of the whole elements that travels, which for elements of a fixed width is every byte below the largest multiple of the element's length, and reads exactly the bytes written |
| `Gsplit.AtoiOfNtoc` | src/burp/spit.cpp:1124-1197 | a number from 0 to 9999 written into a header field reads back as itself |
| `Gsplit.AtoiOfField` | src/burp/spit.cpp:1124-1197 | it does so even when the field is read without its end being marked, if no digit follows |
| `Gsplit.NtocOfAtoi` | src/burp/spit.cpp:1124-1197 | a header field read and written back is the same field |
| `Gsplit.ConvNtoc` | src/burp/spit.cpp:1124-1197 | the loop fills the four characters with the right-aligned number and writes nowhere else |
| `Gsplit.WriteHeader` | src/burp/spit.cpp:1200-1256 | a file's header names its number and the total, and the shared header is fit for the next file afterwards |
| `Gsplit.ReadAndWrite` | src/burp/spit.cpp:796-870 | a read of any length goes whole to the file, which never gets more than its size |
| `Gsplit.GenMultiBackupFiles` | src/burp/spit.cpp:568-793 | the split ends, and fails only when a read or a write does; the input is the concatenation of the files' contents; each file followed by another that was made carries exactly its size minus the header |
| `Gsplit.JoinMultiBackupFiles` | src/burp/spit.cpp:950-1121 | the join writes the contents in list order; it fails only when a read does, and rejects a list only when some file is no split file, is out of sequence, or has a number beyond the first one's total |
| `Gsplit.MadeFits` | src/burp/spit.cpp:1045-1085 | files a split made pass the check of a join |
| `Gsplit.SplitThenJoin` | src/burp/spit.cpp:568-793 | for every input and up to 9999 valid sizes, with reads as short as the system likes, joining the files made passes the check and returns the input, unless a read or a write failed |
| `Recovery.Analyze` | src/alice/tdr.cpp:82-169 | the loop over the list computes the advice from the states in order, with the first state fixed |
| `Recovery.GetStates` | src/alice/tdr.cpp:255-269 | each database reports what it remembers, one that does not answer nothing |
| `Recovery.FinishLimbo` | src/alice/tdr.cpp:470-500 | every entry seen in limbo whose reconnect works is finished in the direction given, and no other entry changes |
| `Recovery.ReconnectMultiple` | src/alice/tdr.cpp:389-504 | the state afterwards is given for every entry: those seen in limbo whose reconnect works are finished in the direction the advice and the switches give, if they give one; all others are as they were |
| `Recovery.AdviceIsSafe` | src/alice/tdr.cpp:82-169 | in every consistent state, whatever databases are out of reach, the advice contradicts nothing that has happened while an entry is seen in limbo |
| `Recovery.RecoveryKeepsConsistency` | src/alice/tdr.cpp:389-504 | one recovery, with any databases out of reach and any reconnects failing, leaves a consistent state |
| `Recovery.StepKeepsInvariant` | src/alice/tdr.cpp:389-504 | every step of the coordinator, a crash and a recovery keep the invariant |
| `Recovery.RecoveryIsAtomic` | src/alice/tdr.cpp:389-504 | over every run, with crashes anywhere and any number of partial recoveries, no subtransaction is committed while another's work is lost |
| `Recovery.AdviceNeverContradicts` | src/alice/tdr.cpp:82-169 | over every run, while an entry is left in limbo, a definite advice agrees with what the run has done, so a repeated recovery never turns round |
| `Recovery.CommitIsFinished` | src/alice/tdr.cpp:82-169 | once a commit is under way and every database answers, the advice is to commit what is left |
| `Recovery.RollbackIsFinished` | src/alice/tdr.cpp:82-169 | once a rollback is under way and every database answers, the advice is to roll back what is left |
| `Recovery.AfterCommit` | src/alice/tdr.cpp:98-166 | the advice behind a first entry that was committed, for any states of the others: none where one was rolled back, else commit where one was committed, is in limbo or is forgotten, else unknown where one is unknown |
| `Recovery.AfterRollback` | src/alice/tdr.cpp:98-166 | the same behind a first entry that was rolled back: none where one was committed, else rollback where one was rolled back or is in limbo, else unknown where one is unknown |
| `Recovery.AfterLimbo` | src/alice/tdr.cpp:98-166 | behind a first entry in limbo or unknown the last of the others that calls for a direction decides |
| `Recovery.AfterSilence` | src/alice/tdr.cpp:98-166 | where none of the others calls for one the advice stays as it was, or becomes unknown where one is unknown |
| `Recovery.TwoPhaseFinishes` | src/alice/tdr.cpp:389-504 | under -two_phase, where something is decided and every database answers and reconnects, one recovery leaves all subtransactions kept or all lost |
| `Recovery.AdviceOrAnswer` | src/alice/tdr.cpp:410-472 | a recovery goes against a definite advice only where the operator says so |
| `Recovery.ErasedRecordsWouldMislead` | src/alice/tdr.cpp:98-166 | the records that recovery leaves behind matter: had it erased them as the coordinator does, the analysis would advise a rollback after a commit |

## Left out

- Lowering.LowerMeaning: is stated for the trees the parser builds that negate no approximate literal towards a version 3 database, because the code drops that sign (LostSign); short, quad and blob literals, which the parser never builds, are covered by ConstantMeaning and FoldedNegation alone.
- Statements.StatementMeaning: is stated for statements in which no exit stands inside a loop whose number is a multiple of 256, because a label is one byte (ExitFromLoop); EmittedMeaning says what the code of all others does.
- Triggers.RowsFollow: assumes that the engine compares a value equal to itself.
- Symbols.SymbolTable.Insert: requires fresh links, a valid table and a name whose hash is not -2^31 (UnhashableNameExists); with such a name the code writes outside its table.  Once a shadowed symbol has made the table invalid, nothing is claimed of further calls.
- Volumes.Backup.WriteBlock: a write returns between nothing and what was requested; the -1 of an interrupted call, which the code stores in an unsigned counter and takes for a large success, is not modelled.
- Gsplit.GenMultiBackupFiles: writes are complete or fail; the path taken after a partial write computes what remains as 16384 minus the bytes written, whatever was read, and is not modelled.
- Canonical.EncodeDecode: bounds the encoded length by 31744 bytes or the buffer at hand, because the grown length is kept in a signed short; decoding is stated for streams that hold a form (reading past the end expands the buffer and delivers whatever is in it).
- Describe.DescribedIff: is stated for variables numbered in their message's order.  What a cut reply loses of others depends on the byte at which it is cut; OutOfOrder is an input, and ToldInOneReply covers them where one reply holds all, as it does for up to 380 variables (ClientHasRoom).
- Describe.DescribeStatement: the client's loop has no bound of its own; the number of turns is a parameter, and the results hold for every number of them.
- MessageLayout.ParseBlr: bytes missing at the end of a description count as an error here, where the code reads on.
- Volumes.JoinedIsSplit: at most 9999 files; from the 10000th on the text of a header outgrows the hundred bytes kept for it.  The time in a header is 24 arbitrary characters, and no file is called stdin.  The code puts no header before a backup to one file, which a restore then takes for a single one (OpenFiles).
- PlanReport.GetPlanInfo: when the larger buffer is found too small as well the code subtracts pointers into different buffers; no result is claimed then.  For a report with an external index, which text fills a buffer that is too short is not said.
- InfoReply.SqlInfo: requires that a start index in the item list is followed by the bytes it announces; the code reads on behind the list.
- GEN_ID, user-defined functions and subqueries as expressions: a simple CASE evaluates its operand once per branch, which differs from once when the operand has side effects.
- CAST, aggregates, record selections with joins, sorts and unions, FOR SELECT loops, cursors, exceptions, savepoints and labels of SQL-compliant LEAVE statements.
- Approximate literals longer than 127 characters, whose length does not fit the signed scale of the descriptor.
- The set-default trigger: the code copies the default up to its first end-of-code byte without parsing it, so literals that contain that byte are cut.
- Unions in the plan printer, external access by record number (VMS only), and plans of stored procedures inside plans.
- HSHD_set_flag, HSHD_init and HSHD_fini; the symbol table's mutex.
- The older SQLDA of clients below dialect 1, and values moved between an area and a message.
- Cursor update children of a request, named requests, and the exit handler that forgets all cursors.
- Tape volumes, the prompts for file names and the non-split write path; header records of the backup itself; Windows variants.
- Overwriting an existing, longer file in the stand-alone splitter (it opens without truncation).
- Interactive answers in recovery other than with every entry in view and in limbo; listing and describing transactions; reattaching by prompted names.
- The engine's side: what a verb does to a record, plan generation, transaction records are taken as parameters or as the facts cited.
- Floating-point layouts (opaque bytes of 4 or 8), character sets, memory pools, threads, status vectors and messages.
