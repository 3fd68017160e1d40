# A verified model of FDB

FDB stores meteorological fields under a schema of three levels of rules: databases,
indexes in a database, and data in an index. This project models its hard parts in
Dafny and proves what they are for.

`dafny verify dfyconfig.toml` checks everything.

## Layout

| files | what they model |
|---|---|
| `Wrappers`, `Keys`, `Rules`, `Stores` | keys, matchers, rules, indexes and their axes |
| `WriteExpansion`, `FieldKeys`, `ExpansionKeys`, `ArchiveSession` | expanding a field, what its keys hold of it, and archiving it in a session with cached selections and a bounded table of open databases |
| `ReadExpansion`, `ReadProduct`, `RetrieveSession`, `ReaderTable`, `NoThrow` | expanding a request, and retrieving with it through a bounded table of readers |
| `Completeness`, `ArchiveRetrieve`, `Soundness`, `StaleAxis`, `AxisPruning`, `IndexSession` | that what was archived is found and only that, what the axes of an index leave out, and when they get in the way |
| `FirstLevel`, `Listing` | matching databases by request, and decoding fingerprints when listing |
| `SchemaText`, `SchemaParser` | the schema's text: grammar, printer, and the parser in place |
| `Frames`, `FrameChecks`, `RemoteArchive`, `RemoteProgress`, `ReadStreams` | the bytes on the data connection, the archive protocol as a state machine (safety and progress), and the answers that come back |
| `PMemTree`, `PMemVisit`, `PMemOnce`, `PMemOrder`, `PMemRuns`, `PMemStore`, `PMemWriter` | the tree in persistent memory |
| `DataPools`, `PortList`, `ExpverMap` | three tables that processes share |

Code that updates state in place is a class or a method with loops, proved equal to a
function of the old state; the properties are then lemmas about that function. Protocols
between threads or processes are state machines over single steps, and their theorems
hold for every sequence of steps.

## Where the code does not do what one expects

Each of these is a property that fails. The project proves the condition under which it
holds, and gives concrete inputs or runs where the failure is more than an unmet condition.

* A retrieval filters requested values by the axes of the index that happens to be
  selected, also for keywords of the index and database levels. A field can be missed
  when data of another index use one of its upper keywords
  (`StaleAxis.AdmissionIsNeeded`). It is found where the indexes that can be selected at
  that point admit its upper values (`ArchiveRetrieve.ArchivedIsFound`): at the database
  level those of the other databases that the request may have named by then, at the
  index level those of its own database. The condition is exact over the states of such a
  scope for the walk of a rule (`Completeness.TriedFromAnyState`,
  `Completeness.TriedBelowDatabase`) and, for the index that is selected, for finding the
  field (`Completeness.FoundIffLet`).
* An index whose data have different sets of keywords hides the narrower ones
  (`Completeness.ContainsIffOneShape`).
* The axis filter loses no hit, but where it removes all requested values of an optional
  keyword the default stands in and can add some (`AxisPruning.PruningLosesNothing`).
* A fingerprint decodes to its key exactly when at most the quantile holds a colon, and
  only one (`Listing.DecodeIffDecodable`). Listing looks up the first child of the first
  matching index rule with children (`Listing.LookupIsFirstChild`), so with two sibling
  index rules for one index key, or two datum rules below one, it can decode under the
  wrong keyword (`Listing.AmbiguousIndexDecodesWrong`,
  `Listing.SecondDatumRuleDecodesWrong`); which rules decode a key rightly is said exactly
  (`Listing.DecodeIffReadsBack`).
* A schema that the parser accepts is printed to a text that it rejects exactly when a
  rule types a keyword that occurs twice in it (`SchemaText.ReadTwice`,
  `SchemaText.TypedTwice`).
* A pop does not undo a push of a keyword that was there before (`Keys.PopUndoesPush`).
* A message larger than 32 bits can count is sent with a truncated size
  (`Frames.CheckedAndFits`); an empty field is refused alone and carried in a batch
  (`Frames.DataClient.Send`).
* An archive() that waits for room cannot be interrupted by the listener, since it holds
  the mutex that the listener needs (`RemoteProgress.OnlyTheThreadFrees`); with a full
  connection and a server that has stopped reading it never returns
  (`RemoteProgress.Standstill`, `RemoteProgress.NeverReturns`).
* A read handle that is read past its end takes the bytes of the next request
  (`ReadStreams.ReadPastTheEnd`); read to the end once and in order the handles return
  their own (`ReadStreams.HandlesReturnTheirs`).
* A visit of the tree fails while the first field of an index is inserted and the axes are
  not written yet, and for named fields only then (`PMemRuns.BetweenThrows`,
  `PMemRuns.RunVisits`).
* Allocating an object that an empty pool cannot hold never ends
  (`DataPools.DataPoolManager.Allocate`).
* A port list that runs through port zero is filled again while in use
  (`PortList.ZeroIsRefilled`).
* For the empty key the tree returns its null result from `getBranchingNode`, but this
  node from `getCreateBranchingNode` (`PMemStore.PMemPool.GetBranchingNode`).

## Assumptions

* A canonicalisation (`Type::toKey`) is a function of the type's name and the value.
* Keywords on any path from a root to a leaf are distinct and rules with children have
  predicates; `Schema::check` asserts only the depth. Where the depth matters the error
  of a ragged rule is modelled.
* eckit is not part of this model: its queue is a bounded first-in-first-out queue that
  can be closed and interrupted, its tokenizer splits at every separator, its stream
  writes strings with their lengths, its stream parser delivers the characters that are
  neither blank nor in a comment, which runs from a '#' to the end of the line, and a null
  character at the end; its table of limited size drops the entries used least recently.
* Opening a database succeeds, and clocks do not run backwards.
* The shared list of ports is blank before it is first initialised, and the identifier of a
  process that has died is not given to another one.

## Model

| member | source | states |
|---|---|---|
| `Keys.DictOfLookup` | src/fdb5/database/Key.cc:193-202 | With distinct keywords no push overwrites another: every pushed pair is found again. |
| `Keys.PopUndoesPush` | src/fdb5/database/Key.cc:193-202 | A pop restores the key exactly when the pushed keyword was not in it before, so the expansions need distinct keywords on a path. |
| `Rules.WalkFieldThrough` | src/fdb5/rules/Rule.cc:204-222 | The walk of a field over the predicates of a rule gets through if and only if every predicate has a value (present, default or hidden) that it accepts. |
| `Rules.RuleMatchesItsKey` | src/fdb5/rules/Rule.cc:369-376 | A rule with distinct keywords matches every key that a walk over its own predicates built. |
| `WriteExpansion.Decide` | src/fdb5/rules/Schema.cc:66-76 | A field is archived under exactly three level keys or the expansion ends in an error; it never ends undecided. |
| `WriteExpansion.HitLevels` | src/fdb5/rules/Rule.cc:153-202 | A hit below a rule at depth d carries exactly 3 - d further level keys. |
| `WriteExpansion.NestedWalkIsFirstPath` | src/fdb5/rules/Rule.cc:137-227 | The nested, stateful walk over rules and schemas decides what the first non-passing path of a flat depth-first list of root-to-leaf paths decides (database rules through the schema of the database). |
| `WriteExpansion.FirstDecidedPosition` | src/fdb5/rules/Rule.cc:137-227 | A decision is made at one position of that list: every earlier path passes, and this one decides. |
| `WriteExpansion.HitIsFirstLeaf` | src/fdb5/rules/Rule.cc:144-202 | Write expansion archives under given keys if and only if some path yields exactly them and all earlier paths pass: the first matching leaf, at most once. |
| `ExpansionKeys.FullIsUnion` | src/fdb5/rules/Rule.cc:204-220 | At a datum the full key is the union of the three level keys. |
| `ExpansionKeys.PushPlaced` | src/fdb5/rules/Rule.cc:210-220 | One more push keeps the level key and the full key in step, and the matching pops restore both. |
| `ExpansionKeys.DescendAfresh` | src/fdb5/rules/Schema.cc:100-120 | Continuing below a database in the schema of the database starts from its key on level one and as the full key, with the lower levels empty. |
| `ArchiveSession.Archiver.constructor` | src/fdb5/database/Archiver.cc:27-30 | A new archiver has no open database and satisfies the session invariant. |
| `ArchiveSession.Archiver.Oldest` | src/fdb5/database/Archiver.cc:80-90 | The search for the database to close returns one with a least stamp. |
| `ArchiveSession.Archiver.MakeRoom` | src/fdb5/database/Archiver.cc:78-95 | A full table loses exactly one least recently stamped database, any other table loses none; afterwards there is room. |
| `ArchiveSession.Archiver.Database` | src/fdb5/database/Archiver.cc:68-111 | Asking for a database re-stamps it if open; otherwise it opens it with no index selected, after making room; the table stays within max(limit, 1). |
| `ArchiveSession.Archiver.SelectDatabase` | src/fdb5/database/BaseArchiveVisitor.cc:27-33 | Selecting a database makes it current and deselects its index. |
| `ArchiveSession.Archiver.SelectIndex` | src/fdb5/database/BaseArchiveVisitor.cc:35-39 | Selecting an index sets it on the current database, and opens or closes none. |
| `ArchiveSession.Archiver.EnterDatabase` | src/fdb5/rules/Rule.cc:173-183 | Selecting only when the key differs from the previous one leaves the same database selected as always selecting. |
| `ArchiveSession.Archiver.EnterIndex` | src/fdb5/rules/Rule.cc:185-190 | The same for the index, with the database still the selected one. |
| `ArchiveSession.SelectDatum` | src/fdb5/database/ArchiveVisitor.cc:25-35 | At a leaf the datum goes into the selected index of the current database, unless the field has keywords that the path did not use, which is the error. |
| `ArchiveSession.DecideFromStep` | src/fdb5/rules/Rule.cc:204-222 | What remains of a walk after one predicate: the missing-keyword error, a pass, or the rest with the pair pushed. |
| `ArchiveSession.ExpandFrom` | src/fdb5/rules/Rule.cc:137-227 | The in-place walk from any predicate of any rule stores what the specification says, throws its error, and puts the keys back. |
| `ArchiveSession.ExpandMatched` | src/fdb5/rules/Rule.cc:153-202 | The end of the predicates of a rule, in place: select, hop to the schema of the database, descend or archive. |
| `ArchiveSession.ExpandSecond` | src/fdb5/rules/Schema.cc:100-120 | Below a database key, in place: the first matching rule of the schema of the database, or its error. |
| `ArchiveSession.ExpandRules` | src/fdb5/rules/Rule.cc:197-199 | The loop over sibling rules, in place: later siblings run only after a pass. |
| `ArchiveSession.Archive` | src/fdb5/database/Archiver.cc:39-59 | Whatever earlier calls selected, cached or evicted, the datum is stored in the database and index that its own expanded keys name, and a call that throws stores nothing; it throws exactly the error of the specification. |
| `FieldKeys.WalkTakes` | src/fdb5/rules/Rule.cc:204-222 | A field gets through a rule with some pairs exactly if every pair is what its predicate takes of the field: the value of the field where it has one, the default of an optional keyword where it has none, and always the default of a hidden one; said with the constructors alone. |
| `FieldKeys.WalkMisses` | src/fdb5/rules/Rule.cc:204-222 | The walk ends in the missing-keyword exception exactly if the first predicate that takes nothing of the field is on a keyword that the field lacks. |
| `FieldKeys.MatchIsWalk` | src/fdb5/rules/Rule.cc:369-376 | A rule matches a key that lacks none of its keywords exactly if the key, taken as a field, gets through it. |
| `FieldKeys.FirstMatchIsFirst` | src/fdb5/rules/Schema.cc:103-117 | The database rule that is continued in is the first in its schema that matches. |
| `FieldKeys.TypeIsInnermost` | src/fdb5/types/TypesRegistry.cc:41-63 | The type of a keyword is what the innermost registry that knows it declares, and the default type where none does. |
| `FieldKeys.DecideGoes` | src/fdb5/rules/Rule.cc:137-227 | An archived field goes through four rules of the two schemas; its level keys are what their predicates take of it, and its types are theirs, innermost first. |
| `FieldKeys.KeysAreField` | src/fdb5/rules/MatchOptional.cc:49-57 | Every pair of the level keys of an archived field is of the field, or is a default that the schema has for it; where no predicate on the way is hidden a keyword of the field never carries anything but its own value. |
| `FieldKeys.UnionIsField` | src/fdb5/rules/Rule.cc:137-227 | Without hidden predicates on the way, the three level keys restricted to the keywords of the field are the field: no value is lost, replaced or swapped. |
| `FieldKeys.UnusedIff` | src/fdb5/database/Key.cc:376-405 | The unused-keyword error comes exactly where the first path that does not pass leads to a leaf and some keyword of the field is in none of its three keys. |
| `ReadProduct.ProductAt` | src/fdb5/rules/Rule.cc:106-128 | The n-th tuple of the product is given by the mixed-radix digits of n, the last predicate running fastest. |
| `ReadProduct.ProductIsChoices` | src/fdb5/rules/Rule.cc:106-128 | The product holds exactly the choices of one listed and accepted value per predicate. |
| `ReadProduct.LevelIsProduct` | src/fdb5/rules/Rule.cc:51-135 | The recursive read walk over a level visits, in order, exactly the product of the (steady) value lists of its predicates. |
| `ReadProduct.ReachAllConcat` | src/fdb5/rules/Rule.cc:117-128 | Visiting two lists of tuples one after the other is visiting their concatenation, also when a visit throws. |
| `RetrieveSession.MultiRetrieveVisitor.SelectDatabase` | src/fdb5/database/MultiRetrieveVisitor.cc:46-90 | In place, with the bounded table of open readers: the current database stays, an open one moves to the front, a new one is opened with no index selected and the readers used least recently are closed for it, one that does not exist is refused and the current one stays. |
| `RetrieveSession.MultiRetrieveVisitor.SelectIndex` | src/fdb5/database/MultiRetrieveVisitor.cc:92-96 | In place: the index selected last is selected again only when the key differs. |
| `RetrieveSession.MultiRetrieveVisitor.SelectDatum` | src/fdb5/database/MultiRetrieveVisitor.cc:98-116 | In place: a datum is found exactly where the axes contain the key and the fingerprint has an entry. |
| `RetrieveSession.MultiRetrieveVisitor.Values` | src/fdb5/database/MultiRetrieveVisitor.cc:118-137 | The loop that filters the requested values by the axis of the selected index keeps exactly the values on it, in order. |
| `RetrieveSession.ExpandFrom` | src/fdb5/rules/Rule.cc:51-135 | The in-place read walk reaches the state of the specification and puts both keys back. |
| `RetrieveSession.ExpandValues` | src/fdb5/rules/Rule.cc:106-128 | The loop over the values of one predicate, in place. |
| `RetrieveSession.ExpandReached` | src/fdb5/rules/Rule.cc:60-99 | The end of the predicates in place: select, hop to the schema of the database, descend, or look the datum up. |
| `RetrieveSession.ExpandSecond` | src/fdb5/rules/Schema.cc:78-98 | Below a database in place, with the assertion that a rule of its schema matches. |
| `RetrieveSession.ExpandRules` | src/fdb5/rules/Rule.cc:94-96 | The loop over sibling rules in place. |
| `RetrieveSession.FullAtDatabase` | src/fdb5/rules/Rule.cc:73-81 | When a database is selected the full key is the database key. |
| `RetrieveSession.FullAtDatum` | src/fdb5/rules/Rule.cc:65-69 | When a datum is selected the full key is the union of the three level keys. |
| `RetrieveSession.RetrieveAll` | src/fdb5/rules/Schema.cc:54-64 | A whole retrieval in place finds exactly the elements of the specification, in order, and ends with its exception or none. |
| `ReaderTable.OpenAreRecent` | src/fdb5/database/MultiRetrieveVisitor.cc:46-90 | After any selections the open databases are exactly those selected most recently, as many as the table has room for, in that order, and the current one is the last selected that exists. |
| `NoThrow.DatabaseRuleExists` | src/fdb5/rules/Schema.cc:78-87 | The assertion that a rule of the schema of the database matches holds where that schema equals the configured one. |
| `NoThrow.RetrieveRuns` | src/fdb5/rules/Schema.cc:54-98 | With three levels on every path and every database carrying the configured schema no retrieval throws. |
| `Completeness.ContainsIffOneShape` | src/fdb5/database/IndexAxis.cc:252-260 | An index finds a key whose values are on its axes if and only if it has no axis beyond the keywords of the key. |
| `Completeness.Visited` | src/fdb5/rules/Rule.cc:106-128 | Every tuple of the product has its turn in some state of the walk, and hits found then are kept. |
| `Completeness.DatumFound` | src/fdb5/rules/Rule.cc:51-135 | If write expansion of a field ends in a datum rule, reading with covering values finds its stored datum in the selected index. |
| `Completeness.CandidateIff` | src/fdb5/database/MultiRetrieveVisitor.cc:118-137 | A covered value of a keyword is among the values that the walk runs through if and only if the axes of the index selected at that moment let it through. |
| `Completeness.ScopeStays` | src/fdb5/rules/Schema.cc:54-98 | A retrieval begins in the scope of a field (the databases that the rules up to its own may name, with the indexes that the request may name in them or that were selected before), and those rules do not lead out of it. |
| `Completeness.AdmittedIsTried` | src/fdb5/rules/Rule.cc:84-135 | Below a database, a tuple that the request covers and every index of a scope admits has its turn in the walk over its rule from every state of the scope, whichever indexes are selected on the way. |
| `Completeness.TriedFromAnyState` | src/fdb5/database/MultiRetrieveVisitor.cc:118-137 | That condition is exact: for a request of one tuple alone, the walk gets to the tuple from every state of a scope if and only if every index of the scope admits it. |
| `Completeness.TriedBelowDatabase` | src/fdb5/database/MultiRetrieveVisitor.cc:118-137 | With the database current below which index rules are walked: from every such state if and only if every index of that database in scope admits it. |
| `Completeness.FoundIffTried` | src/fdb5/rules/Rule.cc:84-135 | An index rule finds a stored field that the request covers if and only if its walk gets to the index tuple of the field. |
| `Completeness.FoundIffLet` | src/fdb5/database/MultiRetrieveVisitor.cc:118-137 | For a request of one field alone it finds the field if and only if the axes of the index selected when the rule is walked let the index values through. |
| `Completeness.IndexFound` | src/fdb5/rules/Rule.cc:51-135 | The same from the index rules on, where the indexes of the current database that the rules up to the field's own can select admit its index tuple. |
| `Completeness.EntryOfRule` | src/fdb5/rules/Rule.cc:73-81 | The first entry of the field's database finds it, from whatever state in which no index has been selected there but one left by an earlier retrieval. |
| `Completeness.DatabaseFound` | src/fdb5/rules/Schema.cc:54-98 | From the database rules on: a covered stored field is found where the indexes of other databases that can be selected before admit its database tuple, and those of its own database its index tuple. |
| `ArchiveRetrieve.DecideShaped` | src/fdb5/rules/Rule.cc:137-227 | The keys of a hit in a well-formed site have distinct keywords on each level and are not empty above the datum. |
| `ArchiveRetrieve.LatestWins` | src/fdb5/database/Archiver.cc:39-59 | After any run of archive calls every fingerprint of every index holds the datum archived last under it. |
| `ArchiveRetrieve.AxesOfRun` | src/fdb5/database/IndexAxis.cc:262-276 | After any run the axes of an index are exactly the keywords of the data archived into it. |
| `ArchiveRetrieve.ValuesOfRun` | src/fdb5/database/IndexAxis.cc:262-276 | After any run an axis holds exactly the canonical values of the data archived into its index. |
| `ArchiveRetrieve.DatumOnAxes` | src/fdb5/database/IndexAxis.cc:262-276 | Every archived datum has its index, and its canonical values are on the axes. |
| `ArchiveRetrieve.RunAdmits` | src/fdb5/database/IndexAxis.cc:262-276 | The indexes of a scope after a run admit a tuple if and only if, wherever data with one of its keywords were archived, some of them have its value there (or the rule falls back to it). |
| `ArchiveRetrieve.SeparateIsAdmitted` | src/fdb5/database/MultiRetrieveVisitor.cc:118-137 | In particular a field is admitted where no index has an axis on the keywords of its database and index keys. |
| `ArchiveRetrieve.ArchivedIsFound` | src/fdb5/rules/Schema.cc:54-120 | Archive then retrieve: after any run of calls and whatever earlier retrievals left open and selected, a request that covers an archived field finds the triple of its keys with the datum archived last under it, if the retrieval does not throw, the indexes that it can have selected when the field's rules are walked admit the upper tuples, and its index has data of one shape. |
| `ArchiveRetrieve.ArchivedIsFoundInEvenSite` | src/fdb5/rules/Schema.cc:54-120 | The same without the proviso on exceptions, where every path has three levels and the schemas agree. |
| `Soundness.FoundWasArchived` | src/fdb5/database/MultiRetrieveVisitor.cc:98-116 | The converse: every element that a retrieval finds after a run of archive calls, whatever was open before and however it ends, has keys that are tuples of asked and accepted values of rules on one path, and its data are what some call archived last, into its database and index, under the joined canonical values of its datum tuple. |
| `Soundness.ContainsIff` | src/fdb5/database/IndexAxis.cc:252-260 | After a run the axes of an index let a tuple through exactly if it has every keyword of the data archived there, with a value that some of them had. |
| `Soundness.DatumRuleFinds` | src/fdb5/rules/Rule.cc:106-128 | With an index selected, a datum rule appends exactly one element for each tuple of its product under which the run left data there, in the order of the tuples, with the datum archived last, and nothing else. |
| `Soundness.RaggedThrows` | src/fdb5/rules/Rule.cc:60-99 | A rule that ends above the third level, or goes on below it, ends the retrieval with its exception if and only if some value of each of its predicates is tried and accepted, and otherwise does nothing. |
| `StaleAxis.RequestCovers` | src/fdb5/database/MultiRetrieveVisitor.cc:118-137 | The request of the counterexample covers its second field. |
| `StaleAxis.OnlyTheFirstIsFound` | src/fdb5/database/MultiRetrieveVisitor.cc:118-137 | Concrete run: the axis of the index selected before filters the index keyword of the next rule, and only the first of two requested fields is found. |
| `StaleAxis.AdmissionIsNeeded` | src/fdb5/database/MultiRetrieveVisitor.cc:118-137 | All conditions of the completeness result but the admission by the indexes that can be selected hold there, nothing throws, and the field is missed. |
| `StaleAxis.AdmittedApart` | src/fdb5/database/MultiRetrieveVisitor.cc:118-137 | With the first field in a database that the request does not name, the second is admitted, so it is found. |
| `AxisPruning.AxesOfPuts` | src/fdb5/database/IndexAxis.cc:262-276 | After any sequence of puts an axis holds exactly the canonical values of the keys put. |
| `AxisPruning.AxesAreCanonical` | src/fdb5/database/IndexAxis.cc:262-276 | With an idempotent canonicalisation every value on an axis is canonical. |
| `AxisPruning.StoredIsNotSkipped` | src/fdb5/database/Index.cc:128-147 | For keys of one shape, no index is skipped by partialMatch that holds a key the canonical request asks for, and mayContain holds of every stored key. |
| `AxisPruning.SkippedExactly` | src/fdb5/database/Index.cc:136-147 | An index is skipped if and only if its key has another value for a keyword that the request has values for, or data with a requested keyword were put into it, but none with a requested value. |
| `IndexSession.IndexBase.Insert` | src/fdb5/database/IndexAxis.cc:262-276 | In place: the axis of every keyword of the key gains its canonical value, in whatever order they come. |
| `IndexSession.IndexBase.Put` | src/fdb5/database/Index.cc:128-134 | In place: the axes grow and the fingerprint has the datum. |
| `IndexSession.IndexBase.MayContain` | src/fdb5/database/Index.cc:145-147 | In place: true if and only if every axis has the raw or the canonical value of the key. |
| `IndexSession.IndexBase.KeyPartialMatch` | src/fdb5/database/Key.cc:294-308 | In place: true if and only if the request names the value of the key for every keyword it has values for. |
| `IndexSession.IndexBase.AxesPartialMatch` | src/fdb5/database/IndexAxis.cc:224-250 | In place: true if and only if every axis that the request mentions has one of its values. |
| `IndexSession.IndexBase.PartialMatch` | src/fdb5/database/Index.cc:136-143 | In place: both of them. |
| `AxisPruning.SiftProduct` | src/fdb5/rules/Rule.cc:106-128 | The product of filtered lists is the filtered product, in order. |
| `AxisPruning.OffAxisMisses` | src/fdb5/database/MultiRetrieveVisitor.cc:98-137 | A tuple with a value that the axis filter removes selects nothing. |
| `AxisPruning.PruningLosesNothing` | src/fdb5/database/MultiRetrieveVisitor.cc:118-137 | For every datum rule, optional predicates included, the axis filter loses no hit, and adds none but those of defaults that stand in for requested values which are all off their axis. |
| `AxisPruning.PruningKeepsHits` | src/fdb5/database/MultiRetrieveVisitor.cc:118-137 | Where no default so stands in, the hits and their order are exactly those without the filter. |
| `AxisPruning.RunAxesAreCanonical` | src/fdb5/database/IndexAxis.cc:262-276 | The axes of every index that a run of archive calls leaves are canonical, as these results need, where its data were archived under agreeing types. |
| `FirstLevel.InRuleKeys` | src/fdb5/rules/Rule.cc:331-361 | A key is among those that first-level matching gives for a rule if and only if it is built from one possible pair per predicate. |
| `FirstLevel.MatchFrom` | src/fdb5/rules/Rule.cc:331-361 | In place: the result set gains exactly the keys of the rule, and the working key is put back. |
| `FirstLevel.MatchFirstLevel` | src/fdb5/rules/Schema.cc:148-152 | In place: the result is exactly the keys that some rule gives. |
| `FirstLevel.GivenExactly` | src/fdb5/rules/Rule.cc:331-361 | A key is given by a rule exactly if it has one pair for every predicate: a requested value that it takes, or the mark for a missing one where the keyword is not requested. |
| `FirstLevel.RuleNeverHides` | src/fdb5/rules/Rule.cc:331-361 | The key a rule builds for a field, masked where the request is silent, is among the keys the rule gives for the request. |
| `FirstLevel.NeverHidden` | src/fdb5/rules/Schema.cc:148-152 | Matching never hides a database: for every field that can be archived and every request with its values, the masked database key is among the keys given. |
| `FirstLevel.FirstOfIsFirst` | src/fdb5/rules/Rule.cc:257-291 | A request names a database key through a rule if and only if every keyword has a requested value that the rule accepts, and then with the first such values. |
| `FirstLevel.NamesExactly` | src/fdb5/rules/Rule.cc:257-291 | A request names a key through a rule exactly by the first requested value that each predicate takes. |
| `FirstLevel.FirstRuleNames` | src/fdb5/rules/Schema.cc:130-140 | A request names a key in a schema if and only if some rule names it and every rule before refuses all of its values; a rule that lacks a requested keyword ends the search with its exception. |
| `FirstLevel.NamedIsMatched` | src/fdb5/rules/Schema.cc:130-152 | The key that a request names in a schema is, with the keywords masked that it does not mention, one of those that it matches there. |
| `FirstLevel.ExpandFrom` | src/fdb5/rules/Rule.cc:257-291 | In place: the result key is kept on a full match, put back otherwise, and an unrequested keyword throws. |
| `FirstLevel.ExpandFirstLevel` | src/fdb5/rules/Schema.cc:130-140 | The loop over the rules in place, with one result key for all of them. |
| `Listing.SplitConcat` | src/fdb5/database/Key.cc:33-44 | Splitting at colons is a homomorphism: the parts of two joined strings are the parts of both. |
| `Listing.FingerprintIsJoin` | src/fdb5/database/Key.cc:344-362 | The fingerprint of a key is its canonical values in push order, joined by colons. |
| `Listing.DecodeIffDecodable` | src/fdb5/rules/Rule.cc:397-438 | Splitting and filling a fingerprint gives back the canonical key without empty optional values if and only if no value but that of the quantile holds a colon, and that one at most one. |
| `Listing.FillKey` | src/fdb5/rules/Rule.cc:397-438 | In place: the loop over predicates and values pushes exactly the filled pairs, and ends in the error where its assertions fail. |
| `Listing.ListedExactly` | src/fdb5/rules/Rule.cc:414-438 | The listed key holds, in the order of the predicates, every pair but those of optional predicates with an empty value. |
| `Listing.QuantileText` | src/fdb5/rules/Rule.cc:397-438 | Concrete text: a quantile with its colon is read whole, and an empty optional value is left out. |
| `Listing.LeafExists` | src/fdb5/rules/Rule.cc:379-395 | Every archived field has a lineage of database, index and datum rule. |
| `Listing.LookupIsFirstChild` | src/fdb5/rules/Rule.cc:379-395 | The lookup below a database rule finds a rule if and only if it is the first child of the first index rule that matches the index key and has children. |
| `Listing.DecodeIffKeywords` | src/fdb5/rules/Rule.cc:397-438 | Any rule decodes a fingerprint of plain values to the key that was written if and only if it has the keywords under which it was written. |
| `Listing.DecodeIffReadsBack` | src/fdb5/rules/Rule.cc:397-438 | Whatever rule decodes a fingerprint, it gives back the key that was written if and only if it has as many predicates, the values are decodable, and it takes the same pairs from them, joined at its own quantile where one holds a colon. |
| `Listing.ListingDecodes` | src/fdb5/database/EntryVisitMechanism.cc:58-64 | For every archived field listing looks a rule up; it is the rule the field was archived through if and only if that is the first child of the first matching index rule with children; and the fingerprint decodes to the key that was written if and only if the rule found reads it back. |
| `Listing.AmbiguousIndexDecodesWrong` | src/fdb5/rules/Rule.cc:379-395 | Concrete schema: with two sibling index rules of the same index key listing decodes with the first rule, under the wrong keyword. |
| `Listing.SecondDatumRuleDecodesWrong` | src/fdb5/rules/Rule.cc:379-395 | Concrete schema: with two datum rules below one index rule listing looks the first up for a field archived through the second. |
| `SchemaParser.Parser.ParseIdent` | src/fdb5/rules/SchemaParser.cc:31-63 | The character loop reads the longest identifier that the context allows, with its three treatments of a minus sign. |
| `SchemaParser.Parser.ParseValues` | src/fdb5/rules/SchemaParser.cc:93-102 | The loop over values fills the ordered set with exactly the values read. |
| `SchemaParser.Parser.ParsePredicate` | src/fdb5/rules/SchemaParser.cc:65-117 | In place: a predicate, its declared or ignored type, and the rest of the input, or the error. |
| `SchemaParser.Parser.ParsePredicates` | src/fdb5/rules/SchemaParser.cc:159-163 | The comma loop of parseRule. |
| `SchemaParser.Parser.ParseRule` | src/fdb5/rules/SchemaParser.cc:133-174 | The loop over runs of predicates and of rules until the bracket closes; it ends on every input, with the input left as measure. |
| `SchemaParser.Parser.ParseRules` | src/fdb5/rules/SchemaParser.cc:153-157 | The bracket loops of parseRule and parse. |
| `SchemaParser.Parser.ParseTypes` | src/fdb5/rules/SchemaParser.cc:119-131 | The loop over declarations; a repeated name is the error. |
| `SchemaParser.Parser.ParseSchema` | src/fdb5/rules/SchemaParser.cc:179-195 | On every input the parser ends with a schema or with an error, as the grammar says. |
| `SchemaText.InsertAscends` | src/fdb5/rules/SchemaParser.cc:93-102 | Insertion into the ordered set keeps it strictly ascending and adds just the value. |
| `SchemaText.IdentReads` | src/fdb5/rules/SchemaParser.cc:31-63 | A word that may stand in a context is read back whole in front of any character that ends it. |
| `SchemaText.IdentIsWord` | src/fdb5/rules/SchemaParser.cc:31-63 | Whatever is read as an identifier may stand in that context. |
| `SchemaText.ReadValues` | src/fdb5/rules/MatchAny.cc:38-46 | A printed value set is read back as the same set. |
| `SchemaText.ReadMatcher` | src/fdb5/rules/MatchOptional.cc:71-74 | Every printed matcher is read back, also with an empty default or one that begins with a minus sign. |
| `SchemaText.FormsOfPredicate` | src/fdb5/rules/SchemaParser.cc:65-117 | By the characters: a keyword with a question mark is optional with the default behind it; with a minus sign hidden, and ignored unless a type is declared; with an equals sign it has the values separated by slashes; alone it takes every value. |
| `SchemaText.FormWithType` | src/fdb5/rules/SchemaParser.cc:70-77 | By the characters: a colon behind a new keyword declares its type, and what follows is read as without it. |
| `SchemaText.FormsRefused` | src/fdb5/rules/SchemaParser.cc:65-117 | By the characters: refused are a predicate without keyword, a second or an empty type, anything else behind a keyword, and an empty value. |
| `SchemaText.FormOfBody` | src/fdb5/rules/SchemaParser.cc:133-174 | By the characters: brackets hold predicates separated by a comma, and then the rules below them. |
| `SchemaText.FormOfTypes` | src/fdb5/rules/SchemaParser.cc:119-131 | By the characters: name, colon, type and semicolon declare the type of a new name. |
| `SchemaText.TypesRefused` | src/fdb5/rules/SchemaParser.cc:119-131 | By the characters: refused are a second declaration of a name, and one without a type or a semicolon. |
| `SchemaText.TextRefused` | src/fdb5/rules/SchemaParser.cc:179-200 | An empty pair of brackets is a rule, and any text behind it that opens no rule is refused. |
| `SchemaText.TextsOfForms` | src/fdb5/rules/SchemaParser.cc:65-117 | Six concrete texts, one of each form, with the schemas that they are read as. |
| `SchemaText.ReadPredicates` | src/fdb5/rules/Rule.cc:440-447 | Printed predicates are read back if and only if no keyword that the rule types occurs twice among them; otherwise reading throws. |
| `SchemaText.ReadRule` | src/fdb5/rules/Rule.cc:440-453 | A printed rule is read back if and only if that holds for it and for all rules below it. |
| `SchemaText.ReadTypes` | src/fdb5/types/TypesRegistry.cc:74-78 | Printed declarations are read back in whatever order they are printed. |
| `SchemaText.WrittenIsPrinted` | src/fdb5/rules/Schema.cc:186-192 | Of a printed schema of readable words the stream drops the line ends and nothing else. |
| `SchemaText.RoundTrip` | src/fdb5/rules/Schema.cc:186-192 | Reading a printed schema of readable words gives the schema back exactly where no rule types a keyword that occurs twice in it, and throws otherwise. |
| `SchemaText.ParsedIsShaped` | src/fdb5/rules/SchemaParser.cc:179-195 | Whatever is accepted of any text is made of readable words without blanks or comment characters, ascending value sets, types declared at predicates of the same rule, and typed hidden keywords. |
| `SchemaText.Survives` | src/fdb5/rules/Schema.cc:186-192 | Reading the print of a schema, through the stream that drops blanks and comments, gives the schema back if and only if it is so made and types no repeated keyword. |
| `SchemaText.ReadTwice` | src/fdb5/rules/Schema.cc:186-192 | For every text that the parser accepts, printing and parsing again gives the same schema exactly under the condition on repeated typed keywords. |
| `SchemaText.TypedTwice` | src/fdb5/rules/SchemaParser.cc:70-77 | Concrete text that the parser accepts and whose print it rejects. |
| `SchemaText.BlankIsLost` | src/fdb5/rules/SchemaParser.cc:31-63 | A schema with a blank in a value is not so made: it does not survive. |
| `Frames.NumberFits` | src/fdb5/remote/Messages.h:78-105 | A number is read back from a field of n bytes if and only if it is below 256 to the n. |
| `Frames.StringRoundTrip` | src/fdb5/database/Key.cc:145-158 | A string on a stream is read back from in front of any bytes. |
| `Frames.KeyRoundTrip` | src/fdb5/database/Key.cc:119-158 | A key that fits its buffer is read back from in front of the data, which is left untouched. |
| `Frames.HeaderRoundTrip` | src/fdb5/remote/Messages.h:78-105 | A header is read back if and only if its message, identifier and size fit their fields. |
| `Frames.BytesOfHeader` | src/fdb5/remote/Messages.h:78-105 | The thirty-two bytes of a header one by one: the marker, the version, message, identifier and size with the least significant byte first, and sixteen zeroes. |
| `Frames.BytesOfBlob` | src/fdb5/api/RemoteFDB.cc:925-939 | One blob message written out in bytes. |
| `Frames.FrameRoundTrip` | src/fdb5/remote/Handler.cc:703-722 | A message whose fields fit is read back from in front of any bytes, with all marker checks passing. |
| `Frames.BlobRoundTrip` | src/fdb5/remote/Handler.cc:623-635 | The key of a blob decodes itself off its data. |
| `Frames.BatchRoundTrip` | src/fdb5/remote/Handler.cc:653-680 | The walk over the blobs of a batch recovers the same items in order and ends exactly at its end with all checks passing. |
| `Frames.AnnouncedSize` | src/fdb5/api/RemoteFDB.cc:889-906 | The size that a batch announces is the number of bytes that follow. |
| `Frames.DataClient.SendBlob` | src/fdb5/api/RemoteFDB.cc:925-939 | In place: one element goes out as one blob; an empty field or a key beyond its buffer throws before anything is written. |
| `Frames.DataClient.SendBatch` | src/fdb5/api/RemoteFDB.cc:879-922 | In place: the sizes first, then the blobs; what is written is one batch message. |
| `Frames.DataClient.Send` | src/fdb5/api/RemoteFDB.cc:879-939 | A pop goes out as a blob or as a batch, exactly when the checks of the code pass. |
| `Frames.CheckedAndFits` | src/fdb5/api/RemoteFDB.cc:879-939 | What the code lets through arrives as it was meant if and only if its size fits the header as well. |
| `Frames.WalkBatch` | src/fdb5/remote/Handler.cc:653-680 | In place: the worker archives the blobs before the first failed check, or all of them. |
| `Frames.ReadFrameAhead` | src/fdb5/remote/Handler.cc:703-722 | Later bytes do not change how an earlier message is read. |
| `Frames.ParseAhead` | src/fdb5/remote/Handler.cc:703-735 | What follows complete messages on the connection is parsed on its own. |
| `Frames.CutFrame` | src/fdb5/api/RemoteFDB.cc:487-494 | A message that was cut off by a failed write is not read. |
| `FrameChecks.KeyConverse` | src/fdb5/database/Key.cc:119-158 | A key is decoded from its own encoding only, and takes no byte of what follows. |
| `FrameChecks.FrameIff` | src/fdb5/remote/Handler.cc:703-735 | Bytes are read as a message if and only if they begin with one: both markers in place, the known version, the message, identifier and size that are read, and as many bytes of payload as the size says; only the place of the hash is not looked at. |
| `FrameChecks.WalkConverse` | src/fdb5/remote/Handler.cc:653-680 | The worker passes all checks of a batch only if the batch is, from end to end, blobs of its own request, each with the key and data that are archived. |
| `RemoteArchive.SentIsReceived` | src/fdb5/api/RemoteFDB.cc:879-939 | What the archive thread sends for a pop arrives as one sound chunk of exactly the popped items. |
| `RemoteArchive.NextBlobIsFirst` | src/fdb5/remote/Handler.cc:653-686 | Storing one blob takes the first item off a sound chunk and leaves a sound one. |
| `RemoteArchive.ArchiveKeeps` | src/fdb5/api/RemoteFDB.cc:760-792 | Every step of archive() keeps the invariant of the protocol. |
| `RemoteArchive.FlushKeeps` | src/fdb5/api/RemoteFDB.cc:795-829 | So does every step of flush(). |
| `RemoteArchive.ThreadKeeps` | src/fdb5/api/RemoteFDB.cc:832-877 | So does every step of the archive thread, in whatever batches it pops, and its failure in the middle of a message. |
| `RemoteArchive.ControlKeeps` | src/fdb5/remote/Handler.cc:352-451 | So does every step of the server control loop, including a misread request after a fault. |
| `RemoteArchive.ReaderKeeps` | src/fdb5/remote/Handler.cc:697-766 | So does every step of the server reader. |
| `RemoteArchive.WorkerKeeps` | src/fdb5/remote/Handler.cc:646-695 | So does every step of the server worker. |
| `RemoteArchive.StoreIsPrefix` | src/fdb5/remote/Handler.cc:638-766 | In every interleaving and with every failure, what the server has archived is a prefix of the archive() calls that returned. |
| `RemoteArchive.FlushedIsStored` | src/fdb5/api/RemoteFDB.cc:795-829 | When flush() returns normally and none failed before, the server has archived exactly the archive() calls that returned, in order. The store of the server has itself been flushed since the last of them. |
| `RemoteArchive.LostIsFinal` | src/fdb5/api/RemoteFDB.cc:760-829 | Once a flush() has failed no archive() returns again. |
| `RemoteArchive.CountsAgree` | src/fdb5/remote/Handler.cc:768-790 | The count check at a flush cannot fail. |
| `RemoteArchive.ChecksPass` | src/fdb5/remote/Handler.cc:653-744 | No check of the reader on a message and none of the worker on a blob can fail. |
| `RemoteProgress.RunBounded` | src/fdb5/api/RemoteFDB.cc:118-125 | Both queues and every pop stay within their limits in every run. |
| `RemoteProgress.PopsAreSendable` | src/fdb5/api/RemoteFDB.cc:879-939 | Non-empty fields whose keys fit, small enough for a full batch, can be sent in every grouping. |
| `RemoteProgress.NeverStuck` | src/fdb5/api/RemoteFDB.cc:760-877 | Without failures some thread can do a step as long as a call is under way: the bounded queues cannot deadlock. |
| `RemoteProgress.OnlyTheThreadFrees` | src/fdb5/api/RemoteFDB.cc:785-791 | While archive() waits for room it holds the mutex that the listener needs to interrupt it, so only a pop or a failure of its own thread frees it, and no failure of the server or the connection. |
| `RemoteProgress.NeverReturns` | src/fdb5/api/RemoteFDB.cc:785-791 | With a server that has stopped reading and a connection that is too full for the message at hand, a waiting archive() never returns in any continuation in which the write of its thread does not fail. |
| `RemoteProgress.Standstill` | src/fdb5/api/RemoteFDB.cc:760-877 | Such a standstill is reached by some run from the start, for every configuration and every connection that does not hold the first message. |
| `RemoteProgress.StepsWork` | src/fdb5/remote/Handler.cc:638-790 | Every such step does some of a bounded amount of work. |
| `RemoteProgress.CallsReturn` | src/fdb5/api/RemoteFDB.cc:795-829 | Without failures, in whatever order the threads run, the steps of a call are bounded in number and can stop only where the call has returned; after a flush() everything is stored. |
| `ReadStreams.QueuesAreAnswers` | src/fdb5/api/RemoteFDB.cc:291-398 | In every interleaving, with requests made at any time and bounded queues, each API queue has received a prefix of its own answer and nothing else, all of it if and only if its end has come, and its iterator has taken a prefix of the blobs. |
| `ReadStreams.HandlesReturnTheirs` | src/fdb5/api/RemoteFDB.cc:957-1071 | In every interleaving, while the queue that the read handles share fills, each handle in turn returns the bytes of its own request for any positive sizes: a prefix as long as it reads, all of them once a read returned nothing, and it throws exactly where the server failed. |
| `ReadStreams.QueuesAreBounded` | src/fdb5/api/RemoteFDB.cc:118-125 | The queues of every run keep to their lengths. |
| `ReadStreams.NextIsJob` | src/fdb5/remote/Handler.cc:811-847 | The messages of a read request in front of any others yield its bytes and leave the others. |
| `ReadStreams.ReadOnceIsNext` | src/fdb5/api/RemoteFDB.cc:987-1026 | A read of one byte or more returns some of the bytes up to the next end of a request, and returns nothing, or throws, exactly at that end. |
| `ReadStreams.ReadPastTheEnd` | src/fdb5/api/RemoteFDB.cc:1014-1017 | A read after the end takes the bytes of the request behind it, where there is one with bytes: the member that should say that the handle is complete is never set. |
| `ReadStreams.DataHandle.BufferRead` | src/fdb5/api/RemoteFDB.cc:1031-1052 | In place: some bytes of the current buffer, as many as asked for and there are. |
| `ReadStreams.DataHandle.Read` | src/fdb5/api/RemoteFDB.cc:987-1026 | In place: the outcome of one read for every size and every message at the front of the queue, errors and empty blobs included, where it need not wait. |
| `ReadStreams.DataHandle.ReadAll` | src/fdb5/api/RemoteFDB.cc:987-1052 | Reading up to the first zero read or exception gives exactly the bytes of the request for every choice of positive sizes. |
| `ReadStreams.DrainInOrder` | src/fdb5/api/RemoteFDB.cc:943-953 | Handles drained in the order of their requests each give the bytes of their own request, and throw where the server failed. |
| `PMemTree.LookupIsLocal` | src/fdb5/pmem/PBranchingNode.cc:120-182 | A lookup along an identifier is a search for its last pair below the branch of the others. |
| `PMemTree.ReachIsDirectory` | src/fdb5/pmem/PBranchingNode.cc:70-117 | Following a path finds the branch of the path, or where it stops. |
| `PMemTree.BlockedByFile` | src/fdb5/pmem/PBranchingNode.cc:74-96 | A path is blocked exactly where a data node lies on it. |
| `PMemTree.GrowKeeps` | src/fdb5/pmem/PBranchingNode.cc:101-113 | A new branch joins the tree without giving a node two branches of one key and value. |
| `PMemTree.CreateKeeps` | src/fdb5/pmem/PBranchingNode.cc:70-117 | getCreateBranchingNode leads to the branch of the identifier, changes no lookup of data, and changes nothing at all where the branch exists. |
| `PMemTree.CreateAgain` | src/fdb5/pmem/PBranchingNode.cc:70-117 | Asking again for a branch gives it again and changes nothing. |
| `PMemTree.InsertKeeps` | src/fdb5/pmem/PBranchingNode.cc:241-287 | insertDataNode returns if and only if no data lies on the way, the node bears the last pair and no branch bears the identifier; then it is what a lookup of exactly that identifier finds, and no other lookup changes, also where it throws. |
| `PMemRuns.AddHolds` | src/fdb5/pmem/PMemIndex.cc:83-121 | From every state of a run, archiving one more field (its index selected, its data node inserted below, the axes written) stores it if and only if no stored identifier is a proper prefix of its own and no branch bears its own; whether it is stored or throws, everything stored before is kept. |
| `PMemRuns.ConsistentAreStored` | src/fdb5/pmem/PBranchingNode.cc:241-287 | Of fields of which no identifier goes on where another ends every one is stored, in order, whatever the repetitions. |
| `PMemRuns.LookupIsLatest` | src/fdb5/pmem/PBranchingNode.cc:120-182 | After any run, whatever threw, a lookup finds the data node of the field stored last under exactly that identifier, or nothing. |
| `PMemRuns.RunThrows` | src/fdb5/pmem/PBranchingNode.cc:379-475 | After any run a whole visit fails if and only if some stored field has no index at or above its branch that the visit takes as one. |
| `PMemRuns.BetweenThrows` | src/fdb5/pmem/PMemIndex.cc:83-121 | A visit between the insertion of a field and the writing of the axes fails if and only if no index is at or above its branch yet. |
| `PMemRuns.RunVisits` | src/fdb5/pmem/PIndexRoot.cc:152-158 | After any run of named fields, whatever threw, a visit from the root succeeds and reports the data node of every stored field exactly once, masked ones included, and no other node. |
| `PMemRuns.RunNames` | src/fdb5/pmem/PBranchingNode.cc:447-461 | Every datum that it reports is a stored field with its data; the path of its index and its key are its identifier, and they are its own index and key if and only if no other index lies between its index and its branch. |
| `PMemOrder.RunOrder` | src/fdb5/pmem/PBranchingNode.cc:415-461 | Over all runs, of two fields stored below one branch, in particular under one identifier, the one stored later is reported first. |
| `PMemOrder.FirstIsLookup` | src/fdb5/pmem/PBranchingNode.cc:415-461 | Over all runs, the first datum that a visit reports under an identifier is the node that a lookup finds. |
| `PMemOrder.RunIndexes` | src/fdb5/pmem/PBranchingNode.cc:379-407 | After any run of named fields a visit reports the index of every stored field exactly once, before its data and with its key, and no other index. |
| `PMemVisit.VisitThrows` | src/fdb5/pmem/PBranchingNode.cc:379-475 | A visit fails if and only if it starts below no index and there are data with no named index on the way to them. |
| `PMemVisit.VisitReports` | src/fdb5/pmem/PBranchingNode.cc:379-475 | A visit that succeeds reports the data nodes below a branch, masked ones included, exactly as often as they are there. |
| `PMemVisit.VisitNames` | src/fdb5/pmem/PBranchingNode.cc:447-461 | The index of a reported datum is the last one on its path, and that path with its key is the identifier under which it was inserted. |
| `PMemOrder.VisitOrder` | src/fdb5/pmem/PBranchingNode.cc:415-461 | Of two data below one branch a visit reports the one inserted later first. |
| `PMemOrder.VisitIndexFirst` | src/fdb5/pmem/PBranchingNode.cc:379-407 | A visit reports the index of a datum before the datum. |
| `PMemOrder.VisitIndexesPlaced` | src/fdb5/pmem/PBranchingNode.cc:379-407 | The key that a visit reports an index with is the rest of its path below the index around it, or the whole path. |
| `PMemOrder.VisitOnce` | src/fdb5/pmem/PBranchingNode.cc:379-475 | A visit reports every index at most once, and only those below where it starts. |
| `PMemOrder.OuterIndexIsVisited` | src/fdb5/pmem/PBranchingNode.cc:379-407 | A visit that stops at the indexes reports every index that has none above it. |
| `PMemOrder.OnlyOuterIndexes` | src/fdb5/pmem/PBranchingNode.cc:379-407 | And it reports nothing else: no index within another, and no data. |
| `PMemOnce.PushBelow` | src/fdb5/pmem/PBranchingNode.cc:284-287 | An inserted data node is added below the prefixes of its path and nowhere else. |
| `PMemOnce.InsertBelow` | src/fdb5/pmem/PBranchingNode.cc:241-287 | An insertion that returns adds the node once to what a visit reports, one that throws adds none. |
| `PMemStore.PMemPool.Search` | src/fdb5/pmem/PBranchingNode.cc:83-96 | The backward search finds the newest matching sub-node. |
| `PMemStore.PMemPool.GetCreateBranchingNode` | src/fdb5/pmem/PBranchingNode.cc:70-117 | In place: the loop that moves the current node and the chain of new nodes. |
| `PMemStore.PMemPool.GetDataNode` | src/fdb5/pmem/PBranchingNode.cc:120-182 | In place: the data node, the null result, or the assertion that throws. |
| `PMemStore.PMemPool.GetBranchingNode` | src/fdb5/pmem/PBranchingNode.cc:185-238 | In place: the branch, or the null result, which is also the result for the empty key. |
| `PMemStore.PMemPool.InsertDataNode` | src/fdb5/pmem/PBranchingNode.cc:241-287 | In place: the branches created, the check for masked branches, and the push. |
| `PMemStore.EntryVisitor.VisitLeaves` | src/fdb5/pmem/PBranchingNode.cc:379-475 | In place: the events of the specification are reported, and the stack of keys is as before on the full and on the index-only exit. |
| `PMemStore.EntryVisitor.VisitData` | src/fdb5/pmem/PBranchingNode.cc:447-461 | The loop over the leaves: newest first, each with its key pushed and popped. |
| `PMemStore.EntryVisitor.Collect` | src/fdb5/pmem/PBranchingNode.cc:409-445 | The two lists of sub-nodes, collected from the back. |
| `PMemWriter.PMemDBWriter.SelectIndex` | src/fdb5/pmem/PMemDBWriter.cc:40-52 | In place: an index that is kept is the branch that creating it again would give; any other is created, and kept. |
| `PMemWriter.PMemDBWriter.Archive` | src/fdb5/pmem/PMemDBWriter.cc:65-83 | In place: the data node is allocated and inserted below the current index, whose axes are then written. |
| `PMemWriter.PMemDBWriter.Put` | src/fdb5/pmem/PMemDBWriter.cc:40-83 | In place: selecting and archiving is one addition to the tree, as the results over runs have it. |
| `DataPools.ChooseKeeps` | src/fdb5/pmem/DataPoolManager.cc:58-116 | Choosing a pool makes the last pool current, not finalised: the existing one, or a new empty one where the last was finalised. |
| `DataPools.RunKeeps` | src/fdb5/pmem/DataPoolManager.cc:58-182 | In every interleaving of managers all pools but the last are finalised, tables map identifiers to the pools that bear them, the list only grows and finalised pools stay so. |
| `DataPools.PoolsHoldAll` | src/fdb5/pmem/DataPoolManager.cc:58-132 | In every interleaving each pool is used by exactly the objects that were allocated while it was current, within its capacity, and is finalised if and only if a manager that wrote to it has let it go. |
| `DataPools.TurnKeeps` | src/fdb5/pmem/DataPoolManager.h:122-143 | One turn of the allocation loop succeeds exactly when the pool it writes to has room, and otherwise leaves no pool to write to. |
| `DataPools.DataPoolManager.CurrentWritePool` | src/fdb5/pmem/DataPoolManager.cc:58-116 | In place: the chosen pool is recorded and current. |
| `DataPools.DataPoolManager.InvalidateCurrentPool` | src/fdb5/pmem/DataPoolManager.cc:119-132 | In place: only the current pool is finalised and let go. |
| `DataPools.DataPoolManager.AllocateIn` | src/fdb5/pmem/DataPoolManager.h:122-143 | In place: the object goes into the current pool where it has room; otherwise the pool is finalised and let go. |
| `DataPools.DataPoolManager.Allocate` | src/fdb5/pmem/DataPoolManager.h:122-143 | Without other processes the loop ends within two turns if an empty pool can hold the object; if not it never ends, and every further turn adds a pool. |
| `PortList.AvailablePortList.Initialise` | src/fdb5/remote/AvailablePortList.cc:109-150 | Filling ends, and the ports are the first free ones from the start, ascending, outside the skip set and without a gap; a filled list is left alone. |
| `PortList.AvailablePortList.Acquire` | src/fdb5/remote/AvailablePortList.cc:153-178 | In place: the first free port that is no service is returned, and its entry is owned by the caller afterwards; free entries of services on the way are taken too, and all others stay; exhaustion and an unfilled list are the errors. |
| `PortList.AvailablePortList.Reap` | src/fdb5/remote/AvailablePortList.cc:180-211 | In place: every entry is marked, freed or left as its owner and time say, with the assertions on entries holding; an unfilled list is the error. |
| `PortList.ReapExactly` | src/fdb5/remote/AvailablePortList.cc:180-211 | An entry is freed if and only if it was marked as dead at least a grace period ago, marked if and only if its owner has just been found dead, and otherwise stays. |
| `PortList.TwoReapsFree` | src/fdb5/remote/AvailablePortList.cc:180-211 | The port of a dead process is free after two reapings a grace period apart, and not before. |
| `PortList.RunKeeps` | src/fdb5/remote/AvailablePortList.cc:109-211 | Over all runs from blank memory, with any initialisations that never take port zero, the ports once filled stay the same distinct ones, no assertion on an entry fails, and every former owner of an entry has been dead for the grace period. |
| `PortList.PortsAreExclusive` | src/fdb5/remote/AvailablePortList.cc:153-211 | Over all such runs a port is handed out again only after everyone who got it before had been dead for the grace period; no two running processes hold one port, and each of them owns the entry of its port. |
| `PortList.ZeroIsRefilled` | src/fdb5/remote/AvailablePortList.cc:113-121 | Initialising a filled list again takes every port from its owner if and only if the ports run through zero, and otherwise leaves it alone. |
| `ExpverMap.LineRoundTrip` | src/fdb5/toc/ExpverFileSpaceHandler.cc:157-161 | The line that is appended is read back as the experiment and its root. |
| `ExpverMap.ScanSays` | src/fdb5/toc/ExpverFileSpaceHandler.cc:110-144 | The scan under the lock finds a line of the experiment, or there is none, or a line is malformed. |
| `ExpverMap.RunKeeps` | src/fdb5/toc/ExpverFileSpaceHandler.cc:43-241 | In every interleaving of processes the file only grows and keeps one line per experiment, and every table agrees with it. |
| `ExpverMap.AppendsOwn` | src/fdb5/toc/ExpverFileSpaceHandler.cc:94-167 | A process that asks for an unknown experiment adds one line, of the experiment and the root that it proposes, and uses that root; for a known one it leaves the file and uses the root of its line. |
| `ExpverMap.FirstWriterWins` | src/fdb5/toc/ExpverFileSpaceHandler.cc:94-241 | Once a process has added its root for an experiment, every normal return for that experiment, of whatever process, is that root. |
| `ExpverMap.ReturnsAgree` | src/fdb5/toc/ExpverFileSpaceHandler.cc:178-241 | Any two normal returns for an experiment give the same root. |

## Left out

- Frames.EncodeKey: the exact tags of eckit's stream are not part of this model; a string is its length and its bytes, a number eight bytes.
- RemoteArchive.ThreadStep: a pop whose size exceeds 32 bits is a failed send, not a message with a truncated size; `Frames.CheckedAndFits` says exactly when that matters.
- RemoteArchive.ReaderStep: the reader's future becomes ready when it throws, before the worker has wound up; the source waits for the worker first.
- RemoteProgress.CallsReturn: stated for runs without failures; with them only the safety results hold.
- RemoteArchive.ThreadStep: the listener may interrupt the archive queue on any occasion, not only on an error message for the current identifier, but not while archive() holds the mutex; the connection holds any number of bytes; one with room for some only is treated in `RemoteProgress.DoWithin`.
- ReadStreams.Do: an API queue that is interrupted by an error keeps its blobs; a size of zero or below and handles used out of order are outside the runs, though `ReadStreams.DataHandle.Read` covers a size of zero.
- ReadStreams.QueuesAreBounded: a full queue stops the listener for all other requests too; that this can be a standstill is not treated.
- Frames.WalkBatch: the source checks no bounds while it walks a batch; the model fails where the source would read on behind the buffer.
- ArchiveRetrieve.ArchivedIsFound: the scope leaves out the order of the values within one rule, so an index that only a later tuple of the same rule can select still has to admit the field. An open reader sees the store as it is at the retrieval, also where it was opened before the last archive call.
- RetrieveSession.MultiRetrieveVisitor.SelectDatabase: a database that is locked for retrieval is one that does not exist.
- ArchiveSession.Archiver.Database: a failure to open a database after an eviction is not modelled.
- FirstLevel.MatchFirstLevel: the variants that take a database key instead of a request are not modelled.
- Listing.DecodeIffDecodable: the keyword order is that of the rule; the reader that keeps keys in map order is not modelled.
- PMemTree.Insert: canonicalisation and names cut to twelve characters are not modelled, keys and values are whole; the locks of nodes are not, one operation runs at a time.
- PMemVisit.Visit: a key is its sequence of pairs, so a keyword that occurs twice on a path is not collapsed.
- PMemWriter.PMemDBWriter.SelectIndex: where creating the branch throws, no index is kept for the key; before C++17 the source may keep an empty one.
- PMemRuns.Add: the axes are written with every field that is stored, which they are in the source because every inserted key makes them dirty; their contents are those of `IndexSession`.
- DataPools.Choose: the lock of the root makes choosing a pool one step; threads that share one manager are not modelled.
- PortList.AvailablePortList.Initialise: reading the services file is a parameter, the set of ports to skip.
- ExpverMap.Do: the file ends with a line end, or is empty; a last line without one would run on into the line that is appended. Roots are single words, as the roots file gives them; reading and appending a file are single steps, and lines are not cut at the size of the buffer.
- ExpverMap.ReturnsAgree: the file starts without two lines for one experiment; with two, loading takes the last and appending the first.
- SchemaParser.Parser.ParseRule: the line number of a rule is not kept.
- Writing with first-match switched off, which archives a field once per matching leaf.
- `Rule::check` and the validation of keys against metadata.
- Normalisation of step ranges and other value conversions inside types.
- Several index files per index key, sub-tables of contents, locks, and the catalogue, reader and writer bodies.
- `Key::unset`, which leaves the list of names alone, and `IndexAxis::merge`, which shares value sets.
- Connection set-up, protocol negotiation, statistics, logging and configuration.
- Wiping, purging, moving and distribution over several archives, and the tools: they dispatch to the operations modelled here.
