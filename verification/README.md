# KoPL program engine in Dafny

This project models the core of KoPL, a knowledge-oriented programming language for
question answering over a knowledge base. It covers:

- **The typed values** of the knowledge base (`ValueClass` in `util.py`). A value is a
  string, a quantity with a unit, a year or a calendar date. The model includes the
  comparison function `comp`, whose `=` on a temporal right operand means containment
  ("1960-02-01 = 1960").
- **Knowledge-base construction** (`KB.__init__` in `data.py`). It merges concepts and
  entities into one table and mirrors entity-to-concept relations onto the concepts. It
  builds the name index and the concept-membership index from the concept hierarchy. It
  builds the attribute, relation and forward-relation position indices and records each
  key's value type. Every raw value is parsed into a typed value.
- **The 27 program operations** of the engine (`kopl.py`), grouped as follows:
  - retrieval: `FindAll`, `Find`;
  - filtering: `FilterConcept`, `FilterStr/Num/Year/Date`, `QFilterStr/Num/Year/Date`,
    `Relate`;
  - set algebra: `And`, `Or`;
  - counting: `Count`;
  - selection: `SelectBetween`, `SelectAmong`;
  - queries: `QueryName`, `QueryAttr`, `QueryAttrUnderCondition`,
    `QueryAttrQualifier`, `QueryRelation`, `QueryRelationQualifier`;
  - verification: `VerifyStr/Num/Year/Date`.
- **The interpreter `forward`**. It wraps a program in `<START>`/`<END>` and infers every
  step's register inputs from the function names alone, using a stack of open branches.
  It then runs the steps left to right.

Every Python exception the engine can raise is modelled as an `Err` of a `Result`:

| Python exception | source of the error | `Err` value |
|---|---|---|
| `AssertionError` | `__lt__` | `AssertionFailed` |
| `Exception` | `__lt__` on strings | `OrderOnString` |
| `TypeError` | an unknown operator in `comp` | `UnsupportedOperator` |
| `KeyError` | | `KeyNotFound` |
| `ValueError` | parsing | `ParseFailure` |
| `ValueError` | neither a key nor a type given | `MissingKeyAndType` |
| `IndexError` | | `IndexOutOfRange` |
| `AttributeError` | `getattr` | `UnknownOperation` |
| `TypeError` | wrong argument counts | `ArityMismatch` |
| `TypeError` | a register of the wrong kind | `WrongRegisterKind` |

The modules follow the source files:

| module | what it holds | source |
|---|---|---|
| `Results` | the error kinds and `Result` | |
| `Seqs` | sequence helpers: `list(set(..))`, `zip` | |
| `Values` | `ValueClass` and `comp` | `util.py` |
| `Literals` | the text parsers shared by `_parse_value` and `_parse_key_value` | |
| `Hierarchy` | `get_direct_concepts` and `get_all_concepts` | |
| `Indices` | the list-valued index builder | |
| `KnowledgeBase` | the built knowledge base and the invariant `Valid` that construction establishes | |
| `Loading` | `KB.__init__` | |
| `Registers` | what operations pass each other, and the guarded comparison | |
| `Retrieval` | retrieval, set algebra, counting and naming | |
| `Filters` | attribute, qualifier and relation filters | |
| `Queries` | queries and verification | |
| `Selection` | `SelectBetween` and `SelectAmong` | |
| `Interpreter` | `forward` | |

### Behaviour modelled as the code has it

The code is followed wherever its own comments or docstrings describe the operations
differently:

- **`Find` of an unknown name** returns the empty set, because `name_to_id` is a
  `defaultdict`. It does not raise.
- **`SelectBetween` on equal amounts** does not fail. `sorted` is stable, so "less"
  takes the first candidate of least amount and any other operator takes the last
  candidate of greatest amount.
- **Temporal equality** is different from what the comment on `comp` suggests:
  - With a temporal right operand, `comp` tests containment, and containment holds only
    between a date and a year.
  - So a year never `=`-matches a year, and a date never `=`-matches a date.
  - `FilterYear(.., "=")` therefore keeps only date-valued attributes.
- **A fact whose value cannot be compared** with the target (another type or another
  unit) is skipped. It does not raise.
- **`FindAll`** returns every id of the merged table, concepts included.
- **`Count`** is the length of the id list, duplicates included.

## Model

| member | source | states |
|---|---|---|
| Values.ConvertToYear | src/kopl/util.py:123-130 | a date becomes the year it falls in and every other value is unchanged; temporal values stay temporal and no date survives |
| Values.ConvertToYearIdempotent | src/kopl/util.py:123-130 | converting twice is converting once |
| Values.CanCompareClasses | src/kopl/util.py:100-121 | values are comparable exactly within three classes: strings, quantities of one unit, and temporal values |
| Values.CanCompareReflexive | src/kopl/util.py:100-121 | every value is comparable with itself |
| Values.CanCompareSymmetric | src/kopl/util.py:100-121 | comparability does not depend on operand order, although the source decides it on the left operand's type |
| Values.EqIsIdentity | src/kopl/util.py:161-177 | `==` holds exactly for identical typed values (year 2001 never equals a date in 2001), and only for comparable pairs |
| Values.ContainsCharacterization | src/kopl/util.py:132-159 | containment holds exactly between a date and a year of the same calendar year, in either order, and never between two years or two dates |
| Values.ContainsViaConvertToYear | src/kopl/util.py:123-159 | a date lies in a year exactly when converting the date gives that year |
| Values.Lt | src/kopl/util.py:179-222 | `<` answers exactly for comparable non-string pairs; an incomparable pair fails the assertion and a string pair raises the string-ordering error |
| Values.Gt | src/kopl/util.py:224-275 | `>` never raises and is true only for comparable pairs |
| Values.GtIsConverseOfLt | src/kopl/util.py:198-273 | on comparable non-string pairs, `a > b` is exactly `b < a` |
| Values.MixedTemporalOrderByYear | src/kopl/util.py:204-273 | a year and a date are ordered by the date's year, in both directions and under both operators |
| Values.StringOrderingIsOneSided | src/kopl/util.py:195-234 | `<` on strings raises (also through `comp`), while `>` on strings is the reverse lexicographic order |
| Values.StringGtIsStrictOrder | src/kopl/util.py:233-234 | `>` on strings is irreflexive and transitive |
| Values.IncomparableOrdering | src/kopl/util.py:179-275 | on incomparable pairs, `<` fails its assertion and `>` answers false |
| Values.Comp | src/kopl/util.py:5-49 | `comp` raises only for `<` (the assertion or the string-ordering error) or for an operator outside `=`, `!=`, `<`, `>` |
| Values.CompTemporalEquality | src/kopl/util.py:31-35 | with a temporal right operand, `=` is containment and `!=` is its complement |
| Values.CompYearEqualsYearIsFalse | src/kopl/util.py:31-35 | a year never `=`-matches a year, not even itself, and always `!=`-matches one |
| Values.CompNonTemporalEquality | src/kopl/util.py:38-45 | with a non-temporal right operand, `=` and `!=` are strict equality and its negation |
| Values.CompRejectsUnknownOperator | src/kopl/util.py:46-49 | any operator outside the four raises the unsupported-operator error |
| Registers.RaisesExactly | src/kopl/util.py:31-49 | once comparability holds, a comparison raises exactly for `<` on strings or an unknown operator, with the matching error |
| Registers.EqualityNeverRaises | src/kopl/util.py:31-39 | a guarded `=` never raises |
| Registers.StringEquality | src/kopl/util.py:100-177 | against a string target, a value passes the guarded `=` exactly when it is that string, and the test never raises |
| Registers.TemporalNeverRaises | src/kopl/util.py:31-45 | against a temporal target, none of the four operators raises |
| Registers.QualifierMatch | src/kopl/kopl.py:371-379 | the inner qualifier loop answers no exactly when no value passes or raises; a match means some value passes; a failure carries the comparison's error and means some value raises; when none can raise, it matches exactly when some value passes |
| Literals.ParseDigits | src/kopl/kopl.py:68-71 | the digit reader behind `int()` succeeds exactly on non-empty all-digit text, with its decimal value |
| Literals.ParseDigitsIsValue | src/kopl/kopl.py:68-71 | digits are read exactly when the text is a non-empty run of decimal digits, and they read as their positional decimal value |
| Literals.ParseInt | src/kopl/kopl.py:68-71 | `int()` accepts an optional sign followed by decimal digits, and nothing empty |
| Literals.NatTextRoundTrip | src/kopl/kopl.py:68-71 | the decimal text of any natural number reads back as that number |
| Literals.IntTextRoundTrip | src/kopl/kopl.py:68-71 | reading back the decimal text of any integer gives that integer |
| Literals.IndexOf | src/kopl/kopl.py:67 | `find` gives the first occurrence, or -1 exactly when the character is absent |
| Literals.LastIndexOf | src/kopl/kopl.py:67 | `rfind` gives the last occurrence, or -1 exactly when the character is absent |
| Literals.IndexOfIs | src/kopl/kopl.py:67 | a position holding the character with no earlier occurrence is what `find` returns |
| Literals.LastIndexOfIs | src/kopl/kopl.py:67 | a position holding the character with no later occurrence is what `rfind` returns |
| Literals.ParseNumber | src/kopl/kopl.py:63 | `float()` on plain decimal text; it fails on empty text |
| Literals.Words | src/kopl/kopl.py:57 | `split()` yields non-empty words free of whitespace, where whitespace is every character Python's `str.isspace` accepts |
| Literals.WordsOfJoin | src/kopl/kopl.py:56-59 | splitting words joined by single spaces gives back the words |
| Literals.DateBetween | src/kopl/kopl.py:66-69 | a date comes out only when both separator positions lie inside the text and the year, month and day slices around them read as integers forming a valid calendar date |
| Literals.ParseTemporal | src/kopl/kopl.py:65-71 | a text containing `/`, or a `-` not in first place, succeeds exactly when its parts around the first and last separator (`/` if present, else `-`) form a valid date, and gives that date; any other text succeeds exactly when it reads as an integer, and gives that year; the only failure is a parse failure |
| Literals.NegativeYearIsYear | src/kopl/kopl.py:65-71 | a leading minus sign without a slash reads as a negative year, not a date |
| Literals.YearTextRoundTrip | src/kopl/kopl.py:65-71 | the text of any integer reads back as that year |
| Literals.SeparatedDateText | src/kopl/kopl.py:65-69 | separator-free year, month and day texts joined by two `/` or two `-` parse to the date they spell |
| Literals.DateTextRoundTrip | src/kopl/kopl.py:65-69 | a valid date written `y-m-d` reads back as that date |
| Literals.SlashDateTextRoundTrip | src/kopl/kopl.py:65-69 | a valid date written `y/m/d` reads back as that date |
| Literals.ParseQuantity | src/kopl/kopl.py:55-63 | a text without a space succeeds exactly when it reads as a number, with unit "1"; a text with a space succeeds exactly when it has a first word that reads as a number, and its unit is the remaining words joined by single spaces; an index error happens exactly for a text with a space but no word, and every other failure is a parse failure |
| Literals.QuantityTextRoundTrip | src/kopl/kopl.py:56-63 | a number word followed by unit words parses to that number with exactly those words as the unit |
| Literals.BareNumberHasUnitOne | src/kopl/kopl.py:60-63 | a number without a space gets the dimensionless unit "1" |
| Literals.ParseKeyValue | src/kopl/kopl.py:48-71 | an explicit type wins; with none, a missing key raises and an unknown key is a key error; the string type returns the text itself, the quantity type reads a quantity, and every other type reads a temporal value |
| Literals.KeyTypeDecides | src/kopl/kopl.py:48-51 | without an explicit type, a known key is read exactly as its recorded type would be read explicitly |
| Hierarchy.KnownParents | src/kopl/data.py:306-311 | the kept parents are exactly the listed ones that are in the table and differ from the id |
| Hierarchy.Direct | src/kopl/data.py:293-313 | the direct concepts are exactly the known parents other than the id itself, and none for an unknown id |
| Hierarchy.Bfs | src/kopl/data.py:328-340 | the breadth-first search terminates even on cycles, visits only table ids, reaches every queued table id, and ends in a set closed under parents |
| Hierarchy.AllConcepts | src/kopl/data.py:315-340 | the ancestors hold every direct concept, lie in the table, and are closed under parents |
| Hierarchy.BfsMinimal | src/kopl/data.py:328-340 | the search visits nothing outside any closed set that holds its start |
| Hierarchy.AllConceptsMinimal | src/kopl/data.py:315-340 | the ancestors are the least parent-closed set holding the direct concepts |
| Hierarchy.CycleReachesItself | src/kopl/data.py:334-339 | on a two-concept cycle the search stops, and the start id is among its own ancestors |
| Indices.PositionsOf | src/kopl/data.py:193-196 | the positions carrying a key are exactly those where it occurs, in strictly ascending order |
| Indices.Put | src/kopl/data.py:196 | appending under one key changes that key's list by exactly one position and no other list |
| Indices.PutSome | src/kopl/data.py:208-214 | an absent key leaves the index unchanged; a present one appends under that key only |
| Indices.AddPositionsGet | src/kopl/data.py:193-196 | walking one id's list appends, under each key, exactly the positions holding it |
| Indices.AppendAbove | src/kopl/data.py:193-196 | appending a position above all listed ones keeps the list ascending |
| Indices.Build | src/kopl/data.py:192-214 | the built index lists, under each key, every id's positions in table order |
| Indices.GatherOwned | src/kopl/data.py:192-214 | when keys name their own id and ids are distinct, a key's list is exactly that one id's positions |
| KnowledgeBase.ParentsOf | src/kopl/data.py:89-92 | the hierarchy has an entry for exactly the ids of the table |
| KnowledgeBase.AttrIndexFits | src/kopl/data.py:193-196 | every attribute position the index lists is a valid position in that entity's attributes |
| KnowledgeBase.RelIndexFits | src/kopl/data.py:206-210 | every relation position the index lists is a valid position in that entity's relations |
| KnowledgeBase.ForwardIndexFits | src/kopl/data.py:211-214 | every forward-index position is a valid position in the subject's relations |
| KnowledgeBase.IndexedAttrs | src/kopl/data.py:193-196 | reading the index gives exactly the entity's attributes under that key |
| KnowledgeBase.IndexedRels | src/kopl/data.py:206-210 | reading the index gives exactly the entity's relations with that label and direction |
| KnowledgeBase.ForwardRels | src/kopl/data.py:211-214 | reading the forward index gives exactly the subject's forward relations to that object |
| KnowledgeBase.IdsNamedMembers | src/kopl/data.py:148-149 | each name lists every id carrying it, and each only once |
| Loading.Mirror | src/kopl/data.py:98-105 | the mirrored relation keeps the label and qualifiers, points back at the entity, and flips the direction |
| Loading.AddMirror | src/kopl/data.py:106-107 | the mirror is added to a concept's relations only if it is absent, so the relation lists stay duplicate-free |
| Loading.MirrorEntity | src/kopl/data.py:94-107 | after one entity, each concept holds exactly what it held plus the mirrors of that entity's relations pointing at it |
| Loading.MirrorAll | src/kopl/data.py:94-107 | each concept's relations are exactly the mirrors of entity relations pointing at it, without repetition |
| Loading.ConceptRows | src/kopl/data.py:85-89 | every concept becomes a row with its subclass list as `isA`, no attributes, and its mirrored relations |
| Loading.EntityRows | src/kopl/data.py:90-92 | every entity becomes a row with its instance list as `isA` |
| Loading.RawTable | src/kopl/data.py:84-92 | the merged table has exactly the concept and entity ids |
| Loading.ConceptRelationsMirrored | src/kopl/data.py:84-107 | a concept's merged row has no attributes, and its relations are exactly, and only once each, the mirrors of relations pointing at it |
| Loading.ParseValue | src/kopl/data.py:370-399 | strings and quantities are taken as they are; every other type goes through the temporal reader; the only failure is a parse failure |
| Loading.ParseValues | src/kopl/data.py:225-229 | a value list parses exactly when each value does, element by element |
| Loading.ParseQualifiers | src/kopl/data.py:225-229 | qualifiers parse exactly when every value does, and they keep their keys |
| Loading.ParseRecord | src/kopl/data.py:222-229 | a row parses exactly when all its values do; name, `isA`, keys, directions and objects are kept and every value is parsed in place |
| Loading.ParseTable | src/kopl/data.py:222-229 | the table parses exactly when every row does, and it keeps the ids |
| Loading.LastWrite | src/kopl/data.py:194 | a sequence of writes leaves a value exactly when some write happens, and then it is the value of a write followed by none |
| Loading.KeyWrittenThen | src/kopl/data.py:192-220 | two successive rounds of writes to the type map leave the later write under a key, or the earlier one when the later round writes nothing there |
| Loading.QualifierKeyTypes | src/kopl/data.py:200-204 | a qualifier key with values takes the type of its last value; every other key keeps what it had, including nothing |
| Loading.AttrKeyType | src/kopl/data.py:193-204 | one attribute writes its key's type, then its qualifier types over it; untouched keys keep what they had |
| Loading.AttrKeyTypes | src/kopl/data.py:192-204 | after a row's attributes, each key holds the type of the last attribute that wrote it, or what it held before |
| Loading.RelKeyTypes | src/kopl/data.py:206-220 | after a row's relations, each qualifier key holds the type of the last relation qualifier that wrote it, or what it held before |
| Loading.RecordKeyTypes | src/kopl/data.py:192-220 | one row writes its attribute types, then its relation-qualifier types over them |
| Loading.KeyTypes | src/kopl/data.py:191-220 | the type map holds exactly the keys some row writes, each with the type of the last write in table order |
| Loading.AttrKeyWritten | src/kopl/data.py:192-194 | every attribute key of a row is written by that row |
| Loading.NormalizeKeyTypes | src/kopl/data.py:233-236 | `year` becomes `date`, every other type is kept, and no key is added or lost |
| Loading.AddName | src/kopl/data.py:149 | appending an id under a name changes only that name's list |
| Loading.NameIndexLists | src/kopl/data.py:148-149 | the name index lists, under every name, the ids carrying it, in table order |
| Loading.AddMember | src/kopl/data.py:150-153 | adding an entity to its concepts changes only those concepts' members |
| Loading.ConceptIndexLists | src/kopl/data.py:148-153 | an id is a member of a concept exactly when it is in the table and the concept is among its ancestors |
| Loading.AttrKeys | src/kopl/data.py:196 | each attribute is indexed under its key and owner |
| Loading.RelKeys | src/kopl/data.py:208-210 | each relation is indexed under its label, direction and owner |
| Loading.ForwardKeys | src/kopl/data.py:211-214 | only forward relations are indexed by subject and object |
| Loading.AttrIndexSound | src/kopl/data.py:192-196 | the built attribute index lists exactly, and in ascending order, the positions of each entity's attributes under each key |
| Loading.RelIndexSound | src/kopl/data.py:206-210 | the built relation index is exact for every label, direction and entity |
| Loading.ForwardIndexSound | src/kopl/data.py:211-214 | the built forward index is exact for every subject and object |
| Loading.NamesSound | src/kopl/data.py:148-149 | the name index built over the table is exact |
| Loading.ConceptsSound | src/kopl/data.py:148-155 | the membership index built over the table is exact |
| Loading.ConceptMember | src/kopl/data.py:150-153 | membership in a concept is exactly being an id of the table with that concept among its ancestors |
| Loading.AssembleValid | src/kopl/data.py:143-236 | every index assembled from a parsed table satisfies the knowledge base's invariant |
| Loading.Build | src/kopl/data.py:84-236 | construction fails only with a parse failure, exactly when some value does not parse; on success the knowledge base is valid, keeps the merged order, holds every parsed row, and records under exactly the written keys the type of the last write in table order, with `year` recorded as `date` |
| Seqs.Dedup | src/kopl/kopl.py:212 | `list(set(..))` keeps exactly the elements of its input, once each |
| Seqs.DistinctCard | src/kopl/kopl.py:578-579 | a duplicate-free list is as long as its set of elements |
| Seqs.ElemsCard | src/kopl/kopl.py:578-579 | a list is at least as long as its set of elements, and exactly as long when it repeats nothing |
| Seqs.Zip | src/kopl/kopl.py:127 | `zip` pairs elements position by position, up to the shorter length |
| Seqs.ZipOfUnzip | src/kopl/kopl.py:370 | splitting pairs into parallel lists and zipping them gives back the pairs |
| Seqs.UnzipOfZip | src/kopl/kopl.py:370 | zipping two lists of equal length and splitting the pairs gives back the lists |
| Retrieval.FindAll | src/kopl/kopl.py:154-166 | exactly the ids of the table, concepts included, each once, without facts |
| Retrieval.Find | src/kopl/kopl.py:168-186 | exactly the ids carrying the name, each once; an unknown name gives the empty set |
| Retrieval.MembersOfAll | src/kopl/kopl.py:208-211 | the union of the members of the given concepts |
| Retrieval.FilterConcept | src/kopl/kopl.py:188-213 | the input ids (each once) that are instances of some id carrying the concept name |
| Retrieval.FilterConceptNarrows | src/kopl/kopl.py:207-213 | a concept filter keeps only input ids, and counts no more than the input's distinct ids |
| Retrieval.And | src/kopl/kopl.py:507-524 | the ids in both inputs, each once |
| Retrieval.Or | src/kopl/kopl.py:526-543 | the ids in either input, each once |
| Retrieval.AndCommutative | src/kopl/kopl.py:507-524 | intersection does not depend on operand order |
| Retrieval.OrCommutative | src/kopl/kopl.py:526-543 | union does not depend on operand order |
| Retrieval.AndOrIdempotent | src/kopl/kopl.py:507-543 | intersecting or uniting a set with itself gives its own ids |
| Retrieval.Count | src/kopl/kopl.py:565-579 | the count is the length of the id list, duplicates included; it is at least the number of distinct ids, and equal to it for a duplicate-free list |
| Retrieval.CountInclusionExclusion | src/kopl/kopl.py:507-579 | counting a union plus counting an intersection counts each side's distinct ids once |
| Retrieval.QueryName | src/kopl/kopl.py:545-563 | names every id in order, and fails with a key error exactly when some id is not in the table |
| Retrieval.FindThenQueryName | src/kopl/kopl.py:545-563 | naming what `Find` found succeeds, and gives back the name once per id carrying it |
| Filters.ScanAttrs | src/kopl/kopl.py:237-246 | over one entity's attributes, the kept pairs are exactly the passing attributes; the loop fails exactly when some comparison raises |
| Filters.ScanEntities | src/kopl/kopl.py:233-247 | over the entities, the kept pairs are exactly the passing attributes of input entities; the scan fails exactly when some attribute's comparison raises |
| Filters.FilterAttribute | src/kopl/kopl.py:215-247 | ids and facts run in parallel, and the pairs are exactly the input entities' attributes under the key that pass the comparison; a failure is a target parse error or a raising comparison |
| Filters.FilterStr | src/kopl/kopl.py:249-267 | never fails, and keeps exactly the attributes under the key whose value is that string |
| Filters.FilterNum | src/kopl/kopl.py:269-292 | a readable quantity under a known operator never fails; every kept attribute is a quantity in the target's unit |
| Filters.TemporalTextNeverRaises | src/kopl/kopl.py:240-244 | a readable temporal target under a known operator makes no guarded comparison raise |
| Filters.FilterTemporal | src/kopl/kopl.py:294-340 | a readable temporal target under a known operator never fails; under `=`, every kept value lies in the target's year or date |
| Filters.FilterYear | src/kopl/kopl.py:294-316 | fails only for an unreadable target or an unknown operator |
| Filters.FilterDate | src/kopl/kopl.py:318-340 | fails only for an unreadable target or an unknown operator |
| Filters.FilterYearIsFilterDate | src/kopl/kopl.py:294-340 | the year and date filters behave identically, since both read the target the same way |
| Filters.FilterYearEqualsSkipsYearValues | src/kopl/kopl.py:240-246 | `FilterYear` with `=` and a year target keeps only date-valued attributes, never a year-valued one |
| Filters.MatchingPositions | src/kopl/kopl.py:370-379 | the qualifier loop succeeds exactly when no fact's qualifier test raises |
| Filters.MatchingPositionsExact | src/kopl/kopl.py:370-380 | the kept positions are ascending, in range, and exactly those whose fact matches |
| Filters.MatchingPositionsLast | src/kopl/kopl.py:370-379 | one more pair adds its position exactly when its fact matches |
| Filters.KeptAtMatching | src/kopl/kopl.py:370-380 | keeping the matching positions keeps exactly the matching pairs |
| Filters.FilterQualifier | src/kopl/kopl.py:342-380 | no facts gives two empty lists; otherwise the kept (id, fact) pairs are the input pairs whose qualifier matches, in input order and at strictly ascending positions, so each kept once |
| Filters.QFilterStr | src/kopl/kopl.py:382-400 | never fails, and keeps exactly the pairs whose qualifier under the key holds that string |
| Filters.QFilterNum | src/kopl/kopl.py:402-424 | fails only when there are facts and the target is unreadable or the operator unknown |
| Filters.QFilterYear | src/kopl/kopl.py:426-448 | without facts, or with a readable target under a known operator, never fails |
| Filters.QFilterDate | src/kopl/kopl.py:450-472 | without facts, or with a readable target under a known operator, never fails |
| Filters.QFilterTemporal | src/kopl/kopl.py:426-472 | the shared temporal qualifier filter fails only with facts and an unreadable target or unknown operator |
| Filters.RelatePairs | src/kopl/kopl.py:497-504 | the pairs are exactly (object, relation) for the relations with that label and direction held by the given entities |
| Filters.Relate | src/kopl/kopl.py:474-505 | ids and facts run in parallel; every id is the object of its fact, and the pairs are exactly the labelled, directed relations held by an input entity |
| Queries.AttrsUnder | src/kopl/kopl.py:681-684 | the attributes under the key of the input entities, and no others |
| Queries.QueryAttr | src/kopl/kopl.py:663-685 | exactly the values held under the key by an input entity |
| Queries.QueryAttrUnderCondition | src/kopl/kopl.py:687-724 | fails exactly when the condition does not parse; otherwise keeps exactly the values whose attribute carries a matching qualifier |
| Queries.QueryAttrQualifier | src/kopl/kopl.py:857-890 | fails exactly when the value does not parse; otherwise gives exactly the qualifier values under the qualifier key of the attributes equal to the value |
| Queries.CountMatches | src/kopl/kopl.py:744-749 | the number of passing values; it equals the length iff all pass and is zero iff none do; it fails iff some value raises |
| Queries.Verify | src/kopl/kopl.py:726-756 | "yes" iff the list is non-empty and all match, "no" iff none match, "not sure" otherwise; fails iff the target does not parse or a comparison raises |
| Queries.VerifyIgnoresOrder | src/kopl/kopl.py:726-756 | two value lists with the same members get the same answer, or both fail |
| Queries.SameElementsSameTests | src/kopl/kopl.py:744-749 | the tests `Verify` runs carry over from a list to any list drawn from its members: all matching and none matching are kept, a raising value is found in the larger list, and a non-empty list comes from a non-empty one |
| Queries.VerifyStr | src/kopl/kopl.py:758-774 | never fails; "yes" iff every value (of at least one) is the string, "no" iff the string is absent |
| Queries.VerifyNum | src/kopl/kopl.py:776-792 | a readable quantity under a known operator never fails |
| Queries.VerifyYear | src/kopl/kopl.py:794-810 | a readable temporal target under a known operator never fails |
| Queries.VerifyDate | src/kopl/kopl.py:812-828 | a readable temporal target under a known operator never fails |
| Queries.VerifyTemporal | src/kopl/kopl.py:794-828 | the shared temporal verification fails only for an unreadable target or unknown operator |
| Queries.LinksFrom | src/kopl/kopl.py:851-854 | the forward relations from one subject to any of the objects |
| Queries.LinksBetween | src/kopl/kopl.py:850-854 | exactly the forward relations from a subject of the first set to an object of the second |
| Queries.QueryRelation | src/kopl/kopl.py:830-855 | exactly the labels of forward relations from the first set to the second |
| Queries.SelectRels | src/kopl/kopl.py:918 | exactly the relations carrying that label |
| Queries.QueryRelationQualifier | src/kopl/kopl.py:892-922 | exactly the qualifier values under the key of the labelled forward relations between the sets |
| Selection.SameUnitOrder | src/kopl/util.py:179-222 | between quantities of one unit, `<` is the order of the amounts, so sorting sorts by amount |
| Selection.QuantitiesOf | src/kopl/kopl.py:606-613 | one entity's quantity candidates are exactly its quantity values |
| Selection.Candidates | src/kopl/kopl.py:645-650 | the candidates are exactly the quantities the given entities hold under the key |
| Selection.CountUnit | src/kopl/kopl.py:614-616 | a unit's tally is positive exactly when some candidate has that unit |
| Selection.PickUnit | src/kopl/kopl.py:617 | the scan for the most common unit ends with a unit that leads all others |
| Selection.MostCommonUnit | src/kopl/kopl.py:617 | the chosen unit is used by some candidate, and no unit is used more; among tied units the first seen wins |
| Selection.MajorityUnit | src/kopl/kopl.py:617 | a unit used by more than half the candidates is the common unit |
| Selection.OfUnit | src/kopl/kopl.py:618 | exactly the candidates of the unit, as many as its tally |
| Selection.Pool | src/kopl/kopl.py:613-618 | the common-unit candidates; empty exactly when there are no candidates |
| Selection.SingleUnitPool | src/kopl/kopl.py:613-618 | with one unit among the candidates, the pool is every candidate |
| Selection.FirstMin | src/kopl/kopl.py:619-620 | the first candidate of least amount, as a stable sort puts it first |
| Selection.LastMax | src/kopl/kopl.py:619-620 | the last candidate of greatest amount, as a stable sort puts it last |
| Selection.Pick | src/kopl/kopl.py:619-620 | "less" picks the first least candidate, any other operator the last greatest |
| Selection.BetweenCandidates | src/kopl/kopl.py:602-613 | exactly the quantities either input's entities hold under the key |
| Selection.SelectBetween | src/kopl/kopl.py:581-622 | fails with an index error exactly when no candidate exists; otherwise names the picked candidate of the common unit |
| Selection.NamesAt | src/kopl/kopl.py:658-660 | the names of the candidates with that amount |
| Selection.ExtremeAmount | src/kopl/kopl.py:656-657 | the least amount for "smallest", the greatest otherwise |
| Selection.ExtremeUnique | src/kopl/kopl.py:656-660 | the extreme amount is unique |
| Selection.SelectAmong | src/kopl/kopl.py:624-661 | fails exactly when no candidate exists; otherwise the names, each once, of every common-unit candidate at the extreme amount |
| Selection.SelectAmongCommonUnit | src/kopl/kopl.py:643-661 | the names are those at the extreme amount among the candidates of a most frequent unit; when one unit is strictly most frequent, they are exactly those of that unit |
| Selection.CommonUnitNames | src/kopl/kopl.py:651-661 | names at the extreme among the pool of the chosen unit are the names at the extreme among a most frequent unit, and of the unique one when there is one |
| Selection.AtExtremeAmount | src/kopl/kopl.py:656-660 | the names of the candidates at the computed extreme amount are exactly the names of the candidates no other candidate in the pool beats |
| Selection.SameLeast | src/kopl/kopl.py:619-657 | two candidate lists with the same members have the same least amount |
| Selection.BetweenAgreesWithAmong | src/kopl/kopl.py:581-661 | with one unit, `SelectBetween` (empty right side) and `SelectAmong` fail on the same inputs, and the entity the first names as least is among those the second names as smallest |
| Interpreter.InferLengths | src/kopl/kopl.py:105-124 | the inference fails only with an index error; on success it has one dependency list per step and one stack entry per open branch |
| Interpreter.InferSucceeds | src/kopl/kopl.py:113-121 | the inference succeeds exactly when every join finds an open branch, counting retrievals minus earlier joins |
| Interpreter.InferStackFits | src/kopl/kopl.py:110-112 | every stack entry is the step just before a retrieval that opened a branch |
| Interpreter.InferFits | src/kopl/kopl.py:107-124 | every step's dependencies fit its name: none for markers and retrievals, the previous step for chains, and for a join an open branch's end then the previous step |
| Interpreter.InferFailureStays | src/kopl/kopl.py:105-124 | once a prefix of the program fails inference, the whole program fails |
| Interpreter.InferUnfold | src/kopl/kopl.py:107-124 | the inference of a prefix extends the inference of the prefix one shorter by one step |
| Interpreter.InferSnoc | src/kopl/kopl.py:107-124 | inferring one more name extends the previous inference by one step |
| Interpreter.Dependencies | src/kopl/kopl.py:105-124 | the loop with a mutable stack agrees with the inference and fails exactly when it does |
| Interpreter.InferOpening | src/kopl/kopl.py:107-112 | a marker then a retrieval reads nothing and opens the branch ending at step 0 |
| Interpreter.InferChain | src/kopl/kopl.py:107-124 | an operation after a retrieval reads the retrieval's step |
| Interpreter.InferJoin | src/kopl/kopl.py:107-124 | a join after two retrievals reads the end of the first branch and then the second retrieval |
| Interpreter.InferMarkers | src/kopl/kopl.py:107-112 | markers after a retrieval read nothing and leave the branch open |
| Interpreter.ShapesOfNames | src/kopl/kopl.py:108-123 | markers, retrievals, chains and joins are told apart by name alone |
| Interpreter.Lookup | src/kopl/kopl.py:136 | `getattr` finds only an operation carrying exactly the given name |
| Interpreter.LookupFindsF | src/kopl/kopl.py:136 | each retrieval and attribute filter is found under its own name |
| Interpreter.LookupFindsQFilter | src/kopl/kopl.py:136 | each qualifier filter is found under its own name |
| Interpreter.LookupFindsQuery | src/kopl/kopl.py:136 | each query is found under its own name |
| Interpreter.LookupFindsRest | src/kopl/kopl.py:136 | each remaining operation is found under its own name |
| Interpreter.LookupFinds | src/kopl/kopl.py:136 | every operation is found under its own name |
| Interpreter.LookupExact | src/kopl/kopl.py:136 | a name finds nothing exactly when no operation carries it |
| Interpreter.LookupPad | src/kopl/kopl.py:108 | `<PAD>` is no operation's name |
| Interpreter.ShapeFitsArity | src/kopl/kopl.py:107-124 | the inference gives each operation exactly as many dependencies as it takes registers |
| Interpreter.AsEntities | src/kopl/kopl.py:207 | unpacking a register as an entity set succeeds exactly for entity sets |
| Interpreter.AsValues | src/kopl/kopl.py:742 | a value-list register is read as its values, and any other register is refused |
| Interpreter.Apply | src/kopl/kopl.py:135-137 | an unknown name fails before anything else, and wrong argument counts fail as an arity mismatch |
| Interpreter.ApplyOp | src/kopl/kopl.py:136-137 | calling an operation by its own name runs it once the argument counts fit, and is an arity mismatch otherwise |
| Interpreter.ApplyFind | src/kopl/kopl.py:168-186 | `Find` with one name runs the retrieval |
| Interpreter.ApplyFindAll | src/kopl/kopl.py:154-166 | `FindAll` with no arguments runs the retrieval |
| Interpreter.ApplyQueryName | src/kopl/kopl.py:545-563 | `QueryName` on an entity set answers its names |
| Interpreter.ApplyAnd | src/kopl/kopl.py:507-524 | `And` on two entity sets answers their intersection |
| Interpreter.EngineOf | src/kopl/kopl.py:136-137 | the engine over a knowledge base answers every call through `getattr` |
| Interpreter.Gather | src/kopl/kopl.py:135 | the registers a step reads are the memory cells its dependencies name, in order |
| Interpreter.Exec | src/kopl/kopl.py:127-139 | the loop only extends memory, never past the program, and any step before `<END>` adds a cell |
| Interpreter.ExecUnfold | src/kopl/kopl.py:127-139 | a failing step ends the run with its error, and a successful one continues with its result appended |
| Interpreter.Interpret | src/kopl/kopl.py:100-147 | a program whose joins outnumber its open branches fails with an index error before any step runs |
| Interpreter.Forward | src/kopl/kopl.py:100-147 | `forward` fails with an index error when the inference fails, whatever the knowledge base |
| Interpreter.InterpretIs | src/kopl/kopl.py:126-147 | a successful run returns its last memory cell |
| Interpreter.InterpretFails | src/kopl/kopl.py:126-139 | a failing step makes the whole run fail with its error |
| Interpreter.InterpretEmpty | src/kopl/kopl.py:126-147 | an empty program runs only `<START>` and returns its `None` |
| Interpreter.LeadingJoinFails | src/kopl/kopl.py:113-121 | a program starting with a join fails with an index error |
| Interpreter.InterpretFindWhat | src/kopl/kopl.py:127-139 | `Find` then `What` answers what `QueryName` answers on the retrieval |
| Interpreter.ForwardFindWhat | src/kopl/kopl.py:128-129 | `What` runs `QueryName`, so `Find name; What` answers the name once per id carrying it |
| Interpreter.ExecJoin | src/kopl/kopl.py:127-139 | two retrievals then a join runs to `<END>`, with the join reading both retrievals |
| Interpreter.InterpretJoin | src/kopl/kopl.py:113-139 | `Find a; Find b; And` answers what the join answers on the two retrievals |
| Interpreter.ForwardJoinsBranches | src/kopl/kopl.py:113-124 | two retrievals and a join answer the intersection of the two retrievals |
| Interpreter.InterpretUnnamed | src/kopl/kopl.py:101-137 | without inputs, `Find` receives no name and the run fails with that call's error |
| Interpreter.MissingInputsShiftPadding | src/kopl/kopl.py:101-137 | with no inputs given, the padding pairs `Find` with no arguments, which is an arity mismatch |
| Interpreter.InterpretStopsAtEnd | src/kopl/kopl.py:132-133 | the run stops at the first `<END>`, and what follows never runs |
| Interpreter.EndStopsTheRun | src/kopl/kopl.py:132-133 | `FindAll <END> <PAD>` answers the retrieval; the `<PAD>` after `<END>` is never looked up |
| Interpreter.InterpretReachesPad | src/kopl/kopl.py:130-137 | a run that reaches a name fails as that call fails |
| Interpreter.PadFails | src/kopl/kopl.py:130-137 | a run that reaches `<PAD>` fails, because no operation carries that name |

## Left out

- JSON loading, `print`, `tqdm` progress bars and `show_details` tracing are output only,
  so they are not modelled. The commented-out `conv_enc` block is not modelled either.
- `ignore_error` (`kopl.py:148-152`) is not modelled. `forward` always propagates the
  error as an `Err`, which is the `ignore_error=False` behaviour.
- `forward` returns the final register itself, not its `str()` rendering. `__str__`,
  `__repr__` and `__hash__` of values are not modelled.
- The statistics sets and counters of `data.py` are not modelled, because no operation
  reads them. These are `attribute_keys`, `relations`, the `entity_set_with_*` sets and
  `print_statistics` (`data.py:186-191`, `data.py:342-368`).
- The order of Python `set` iteration is unspecified, so it is modelled as
  first-occurrence order. This affects `FilterConcept`, `And`, `Or`, `SelectAmong`, and
  the entity loops of `_filter_attribute` and `Relate`. Contracts on those outputs speak
  of membership and distinctness only. For `SelectAmong`, a tie between units for the
  most frequent one (`Counter(...).most_common()[0]`) is broken by this order;
  `Selection.SelectAmongCommonUnit` states what holds whichever tied unit is chosen.
- `float()` is modelled only for plain decimal text: an optional sign and digits with an
  optional fraction. Exponents, `inf`, `nan` and underscores are left out.
  - `int()` is modelled as an optional sign followed by ASCII digits, without
    surrounding whitespace.
  - Quantity amounts are exact reals, so floating-point rounding is left out.
- Raw concept and entity ids are assumed pairwise distinct (`Loading.WellFormed`). With
  a collision, the source would overwrite a row and mutate a list while iterating it.
- Python binds `func(*fun_args, *inp)` positionally across registers and strings. The
  model checks the two counts separately: an operation is called only when both counts
  fit, and a mismatch is `ArityMismatch`.
- Passing a register of the wrong kind is modelled as `WrongRegisterKind`. Python would
  fail later, or succeed by duck typing.
- `getattr` on an engine attribute that is not an operation is not modelled. Examples are
  `kb`, the private helpers and the dunder methods. Every name other than the 27
  operations fails as `UnknownOperation`.
- `__init__.py` only re-exports names, so it is not modelled.
- Queries.QueryAttr: states which values occur, not their order or multiplicity.
- Queries.QueryAttrUnderCondition: states which values occur, not their order or
  multiplicity.
- Queries.QueryAttrQualifier: states which values occur, not their order or
  multiplicity.
- Queries.QueryRelation: states which labels occur, not their order or multiplicity.
- Queries.QueryRelationQualifier: states which values occur, not their order or
  multiplicity.
- Filters.Relate: states which (object, relation) pairs occur and that ids and facts run
  in parallel. Multiplicity follows from the index, but it is not stated.
- Filters.FilterNum, Filters.FilterYear, Filters.FilterDate, Queries.VerifyNum,
  Queries.VerifyYear, Queries.VerifyDate, Filters.QFilterNum, Filters.QFilterYear and
  Filters.QFilterDate: these state only when they succeed and which errors they can
  raise. What they keep or answer is stated on the shared members they call:
  `FilterAttribute`, `FilterTemporal`, `FilterQualifier` and `Verify`.
