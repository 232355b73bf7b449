# DataServiceBase: key resolution and entry-point dispatch, in Dafny

`DataServiceBase<TEntity>` is Zongsoft's generic data service. Every public operation is a
thin layer over a storage engine (`IDataAccess`). The layer does four things:

- It turns one to three positional key values into a condition, using the entity's declared
  primary key. A single string key is split on commas.
- For `Update`, it synthesises the condition from the key values in the data, or copies the
  key values of an explicit condition into the data.
- It classifies each call with a small `Method` tag (name plus storage kind). That tag is what
  `Authorize` and `OnValidate` receive.
- It runs each entry point in a fixed order: capability flag, `Authorize`, key conversion,
  `OnValidate`, storage call. The exact order differs by entry point.

The model follows the source file by file:

- `keys.dfy` holds the key resolver and the update-key logic. The loops of the source are
  methods (`GetKey`, `EnsureUpdateCondition`, `MirrorKeys`, `AssignMatches`). Each is proved
  equal to a specification function, and the lemmas state the resolver's properties about
  those functions.
- `dictionaries.dfy` is the data dictionary: a class whose entries `TrySetValue` updates in place.
- `text.dfy` holds `String.Split`, `String.Trim` (with the exact `Char.IsWhiteSpace` set) and
  the `Where(p => p.Length > 0)` filter, with the round-trip and emptiness lemmas the resolver relies on.
- `methods.dfy` is the nested `Method` struct.
- `events.dfy` holds the `OnXxxing`/`OnXxxed` helpers. A multicast delegate is a fold over
  its handlers on one shared `Cancel` flag.
- `service.dfy` holds the configuration of a service:
  - the overridable members (`Authorize`, `GetKey`, both `OnValidate`s) as function fields,
    with `BaseHooks` giving the base class's own behaviour;
  - the capability flags;
  - the storage, given as functions;
  - `Run`, which is what an entry point produces: the ordered steps it took, plus its value
    or the exception that ended it. `Follows(trace, plan)` says the steps are a prefix of the
    entry point's plan, and that storage is reached only after the whole plan. Each entry
    point also gives its exact run when a gate fails; `GateTrace` and `GateError` name the
    steps taken and the exception when `Authorize` or `OnValidate` refuses, so `OnValidate`
    never runs for a caller `Authorize` refused.
- `reads.dfy`, `writes.dfy` and `updates.dfy` are the entry points. `Update` is a method
  working on a `DataDictionary`, proved against `UpdateRun`. `InsertMany` and `UpdateMany`
  run the per-item `OnValidate` loop (`ValidateEach`, proved against `ValidateAll`).
- `searcher.dfy` is `InnerDataSearcher.Resolve`.

Exceptions are values of `Errors.Error`, one constructor per throw site. Three edge cases
follow the code as written:

- An arity mismatch is an `ArgumentException` (`InvalidKey`) on every keyed path. `GetKey`'s
  "no condition" result is not passed on.
- A single key string made only of commas and white space has no segments, and reading
  segment 0 is an `IndexOutOfRangeException` (`IndexOutOfRange`).
- `EnsureUpdateCondition` with zero declared keys reads element 0 of an empty array
  (`IndexOutOfRange`).

The model also follows the code in three places where a casual reading would go wrong:

- A null key array makes `Update`'s key loop throw a `NullReferenceException`.
- The keyed `Update` overloads convert the key before `EnsureUpdate` runs.
- `Decrement(int.MinValue)` passes `int.MinValue` on, because C# negation is unchecked.

## Model

| member | source | states |
|---|---|---|
| Text.TrimStart | src/Data/DataServiceBase.cs:1256 | `Trim`'s first half: the result is a suffix of the input, starts with a non-white-space character, and only white space was dropped |
| Text.TrimEnd | src/Data/DataServiceBase.cs:1256 | `Trim`'s second half: the result is a prefix, ends with a non-white-space character, and only white space was dropped |
| Text.TrimIsInfix | src/Data/DataServiceBase.cs:1256 | `p.Trim()` is an infix of `p` with only white space outside it |
| Text.TrimIsTrimmed | src/Data/DataServiceBase.cs:1256 | `p.Trim()` has no white space at either end |
| Text.TrimEmpty | src/Data/DataServiceBase.cs:1256 | a piece trims to the empty string exactly when it is all white space (so `Where(p => p.Length > 0)` drops exactly those) |
| Text.TrimTrimmed | src/Data/DataServiceBase.cs:1256 | trimming is idempotent on trimmed text |
| Text.TrimFree | src/Data/DataServiceBase.cs:1256 | trimming never introduces a comma |
| Text.Split | src/Data/DataServiceBase.cs:1256 | `text.Split(',')` always yields at least one piece, keeping empty pieces |
| Text.JoinSplit | src/Data/DataServiceBase.cs:1256 | joining the pieces of a split with the separator restores the text |
| Text.SplitJoin | src/Data/DataServiceBase.cs:1256 | splitting comma-free pieces joined by commas gives back exactly those pieces |
| Text.SplitPiecesFree | src/Data/DataServiceBase.cs:1256 | no piece of a split contains the separator |
| Text.NoSegmentsOfEmpty | src/Data/DataServiceBase.cs:1254-1256 | the empty string names no key segment |
| Text.SegmentsWellFormed | src/Data/DataServiceBase.cs:1256 | every key segment is non-empty, trimmed and comma-free |
| Text.SegmentsRoundTrip | src/Data/DataServiceBase.cs:1256 | well-formed segments joined by commas are read back as exactly those segments, in order |
| Text.NoSegmentsIffBlank | src/Data/DataServiceBase.cs:1256-1264 | a key string has no segments exactly when every character is a comma or white space |
| Conditions.StringsInjective | src/Data/DataServiceBase.cs:1261 | the IN value list determines the segments: different segment lists give different IN value lists |
| Keys.Equalities | src/Data/DataServiceBase.cs:1273-1276 | child i of the AND is `Equal(key[i], value[i])` for every position |
| Keys.GetKey | src/Data/DataServiceBase.cs:1233-1279 | the loop that `Add`s one equality per key field computes exactly the `ResolveKey` specification |
| Keys.NoConditionIffArityMismatch | src/Data/DataServiceBase.cs:1236-1246 | no condition and `singleton = false` exactly when there are no values, the key is null or empty, or the counts differ |
| Keys.SingleFieldText | src/Data/DataServiceBase.cs:1252-1264 | one key field and non-empty text: several segments give IN (not a single row), one segment gives `Equal` on the trimmed segment, and no segments is an index error, in both directions |
| Keys.SeveralSegmentsResolve | src/Data/DataServiceBase.cs:1254-1261 | the base `GetKey` on a non-empty text with several segments on a one-field key is IN over those segments, in order, with `singleton = false` |
| Keys.SeveralSegmentsConvert | src/Data/DataServiceBase.cs:1256-1313 | through `EnsureInquiryKey`, such a text is IN over its segments, with `singleton = false` |
| Keys.BlankTextOutOfRange | src/Data/DataServiceBase.cs:1256-1264 | a key string of only commas and blanks makes `parts[0]` out of range |
| Keys.JoinedSegmentsResolveToIn | src/Data/DataServiceBase.cs:1256-1262 | segments written with commas resolve to IN over exactly those segments, in order |
| Keys.SingleFieldValue | src/Data/DataServiceBase.cs:1266 | one key field and a value that is not a non-empty string: `Equal(key, value)`, singleton |
| Keys.CompositeKey | src/Data/DataServiceBase.cs:1270-1278 | n > 1 key fields and n values: an AND of exactly n children, child i being `Equal(key[i], value[i])`, singleton |
| Keys.SingletonIff | src/Data/DataServiceBase.cs:1236-1278 | `singleton` holds exactly when the arity matches and the key is not one text naming several keys |
| Keys.NeverSingleChild | src/Data/DataServiceBase.cs:1233-1279 | the base `GetKey` never yields a collection of one child |
| Keys.EnsureInquiryKey | src/Data/DataServiceBase.cs:1298-1316 | more than three values is `TooManyKeys`; a `GetKey` error propagates; no condition is an invalid key; a condition always succeeds, with a one-child collection replaced by its child and `singleton` as `GetKey` gave it |
| Keys.InquiryArityMismatch | src/Data/DataServiceBase.cs:1304-1307 | with the base `GetKey`, an arity mismatch is an `ArgumentException`, not an unconditional query |
| Keys.InquiryNeverSingleChild | src/Data/DataServiceBase.cs:1309-1313 | with the base `GetKey`, a converted key is never a one-child collection |
| Keys.ConvertKey | src/Data/DataServiceBase.cs:1283-1296 | one to three keys: the three-key limit never fires; the result is `GetKey`'s error, an invalid key when there is no condition, and a success exactly when `GetKey` gives a condition |
| Keys.EnsureUpdateCondition | src/Data/DataServiceBase.cs:1325-1339 | the array-filling loop computes exactly the `UpdateCondition` specification: a null key array is a null reference, a missing key value a `DataException`, zero keys an index error |
| Keys.MissingKeyRejected | src/Data/DataServiceBase.cs:1330-1335 | any declared key absent or null in the dictionary is a `DataException` |
| Keys.ImplicitConditionShape | src/Data/DataServiceBase.cs:1338 | one key gives `Equal(key, value)`; several give an AND of `Equal`s in key order over the dictionary's values |
| Keys.ImplicitConditionFails | src/Data/DataServiceBase.cs:1328-1338 | the implicit condition fails exactly when a key value is missing or no key is declared, and is a `DataException` exactly when a key value is missing |
| Keys.AssignLast | src/Data/DataServiceBase.cs:601 | running `TrySetValue` for each matched leaf leaves the last value, and only that field changes |
| Keys.MirroredAt | src/Data/DataServiceBase.cs:597-603 | after the key loop, a declared key field the condition matches holds its last matched value, and every other field is as it was |
| Keys.MirroredStep | src/Data/DataServiceBase.cs:599-602 | one more key in the loop is one more round of assignments |
| Keys.AssignMatches | src/Data/DataServiceBase.cs:601 | the `Match` callback loop assigns each matched value in turn |
| Keys.MirrorKeys | src/Data/DataServiceBase.cs:597-603 | the `foreach` over the key fields leaves the dictionary equal to `Mirrored` of its old entries |
| Dictionaries.DataDictionary.constructor | src/Data/DataServiceBase.cs:593 | the dictionary starts with the object's fields |
| Dictionaries.DataDictionary.TryGetValue | src/Data/DataServiceBase.cs:1332 | found exactly when the field is present, with its value |
| Dictionaries.DataDictionary.TrySetValue | src/Data/DataServiceBase.cs:601 | the field takes the value and no other field changes |
| Methods.Method.Get | src/Data/DataServiceBase.cs:1396-1399 | `Get` has kind Select and name "Get" |
| Methods.Method.Execute | src/Data/DataServiceBase.cs:1411-1414 | `Execute` is neither reading nor writing |
| Methods.Method.Decrement | src/Data/DataServiceBase.cs:1421-1424 | `Decrement` has `Increment`'s kind but its own name |
| Methods.Method.Select | src/Data/DataServiceBase.cs:1426-1432 | `Select(name)`: kind Select, named "Select" for a null or empty name, else the name given |
| Methods.Method.InsertMany | src/Data/DataServiceBase.cs:1444-1447 | singular kind Insert, own name "InsertMany" |
| Methods.Method.UpdateMany | src/Data/DataServiceBase.cs:1454-1457 | singular kind Update, own name "UpdateMany" |
| Methods.Method.UpsertMany | src/Data/DataServiceBase.cs:1464-1467 | singular kind Upsert, own name "UpsertMany" |
| Methods.Method.IsWriting | src/Data/DataServiceBase.cs:1474-1497 | a writing method is never a reading one |
| Methods.Method.Equals | src/Data/DataServiceBase.cs:1501-1504 | equal exactly when kind and name are both equal |
| Methods.Classification | src/Data/DataServiceBase.cs:1474-1497 | every method is reading, writing or an Execute, and Execute exactly when neither |
| Methods.HashCodeAgreesWithEquals | src/Data/DataServiceBase.cs:1501-1517 | equal methods have equal hash codes, whatever string hash is used |
| Methods.CanonicalNamesDetermineKind | src/Data/DataServiceBase.cs:1396-1467 | the fourteen factories all give different names |
| Methods.SelectMayShareName | src/Data/DataServiceBase.cs:1501-1517 | `Select("Count")` hashes like `Count()` yet is not equal to it |
| Events.OnBefore | src/Data/DataServiceBase.cs:1050-1060 | `OnXxxing` with no subscriber returns false (no cancel) |
| Events.OnAfter | src/Data/DataServiceBase.cs:1042-1048 | `OnXxxed` builds an argument object exactly when there are subscribers, and delivers that one object to all of them |
| Events.InvokeAppend | src/Data/DataServiceBase.cs:1057-1059 | a multicast delegate runs its handlers in order on one shared `Cancel` flag |
| Events.PassiveNeverCancels | src/Data/DataServiceBase.cs:1057-1059 | subscribers that leave `Cancel` alone never cancel |
| Events.SingleSubscriber | src/Data/DataServiceBase.cs:1050-1060 | with one subscriber, its decision on a fresh (false) flag is the result |
| Events.LastSubscriberDecides | src/Data/DataServiceBase.cs:1057-1059 | the last subscriber has the final word on `Cancel` |
| Service.After | src/Data/DataServiceBase.cs:698-717 | putting the key-conversion step in front of a run keeps its result and its storage call |
| Service.FollowsAfter | src/Data/DataServiceBase.cs:700-716 | a prefixed run follows the prefixed plan |
| Service.CredentialOf | src/Data/DataServiceBase.cs:186-196 | the credential is the principal's, and only when it is authenticated |
| Service.DefaultAuthorize | src/Data/DataServiceBase.cs:201-207 | the base `Authorize` passes exactly when an authenticated principal has a credential with a user, whatever the method and state; otherwise `AuthorizationException` |
| Service.BaseValidationIsIdentity | src/Data/DataServiceBase.cs:1031-1038 | both base `OnValidate`s change nothing |
| Service.EnsureCapability | src/Data/DataServiceBase.cs:1342-1367 | `EnsureDelete`/`Insert`/`Update`/`Upsert` refuse exactly when the flag is off, with `InvalidOperationException` |
| Service.BaseAllowsEverything | src/Data/DataServiceBase.cs:120-138 | the base flags are all on |
| Reads.Execute | src/Data/DataServiceBase.cs:211-227 | authorized as `Execute` before the storage call; storage is reached exactly when that passes |
| Reads.ExecuteScalar | src/Data/DataServiceBase.cs:229-245 | authorized as `Execute` before the storage call; storage is reached exactly when that passes |
| Reads.Exists | src/Data/DataServiceBase.cs:264-279 | `Authorize`, then `OnValidate`, then storage with the validated condition, exactly when both pass; otherwise the run stops at the first failing gate with its exception, and `OnValidate` is not run when `Authorize` failed |
| Reads.ExistsByKey | src/Data/DataServiceBase.cs:249-262 | the keys are converted first, and a conversion error ends the call |
| Reads.Count | src/Data/DataServiceBase.cs:293-308 | `Authorize`, then `OnValidate`, then storage with the validated condition and member, exactly when both pass; otherwise the run stops at the first failing gate with its exception |
| Reads.Select | src/Data/DataServiceBase.cs:894-909 | `Authorize` and `OnValidate` as `Select`, then storage with the entity-typed schema, the paging, the sortings and the Selecting events, exactly when both pass; otherwise the run stops at the first failing gate with its exception |
| Reads.SelectGrouped | src/Data/DataServiceBase.cs:953-968 | as `Select`, with the grouping passed on |
| Reads.FirstOrDefault | src/Data/DataServiceBase.cs:839 | the first row, or none exactly when there are no rows |
| Reads.OnGet | src/Data/DataServiceBase.cs:835-840 | a fetch with no paging and no sortings, wired to the Getting/Getted events, keeping the first row and the paginator |
| Reads.Get | src/Data/DataServiceBase.cs:698-717 | the key is converted first. A single-row key is authorized and validated as `Get` and read by `OnGet` exactly when both pass, and otherwise stops at the first failing gate with its exception. Any other key is exactly the `Select` run over the same condition, schema, paging, state and sortings. The two- and three-key forms (756-775, 814-833) are the same with more keys |
| Reads.GetSeveralKeysSelects | src/Data/DataServiceBase.cs:698-717 | a comma-separated text naming several keys makes `Get` the `Select` run over IN of them |
| Reads.BaseSelectPassesCondition | src/Data/DataServiceBase.cs:894-909 | on a base service the storage receives the condition given to `Select` |
| Reads.GetOneKeyReadsOneRow | src/Data/DataServiceBase.cs:698-717 | a non-text key on a one-field key is read as one row, authorized as `Get`, with `Equal(key, value)` |
| Reads.GetArityMismatchIsInvalid | src/Data/DataServiceBase.cs:1298-1316 | a key count that does not match fails as an invalid key before authorization |
| Reads.AnonymousReadsNothing | src/Data/DataServiceBase.cs:201-207 | under the base `Authorize`, a call with no principal reaches no storage through Count, Exists or Select and fails as unauthorized |
| Writes.Negate | src/Data/DataServiceBase.cs:322-325 | unchecked `-interval`: the negation, with `int.MinValue` wrapping to itself |
| Writes.NegateTwice | src/Data/DataServiceBase.cs:322-325 | negating twice restores the interval |
| Writes.Increment | src/Data/DataServiceBase.cs:337-352 | no capability check; `Authorize` then `OnValidate` as `Increment`, then storage with the validated condition and the interval exactly when both pass; otherwise the run stops at the first failing gate with its exception |
| Writes.Decrement | src/Data/DataServiceBase.cs:322-325 | is exactly `Increment` with the unchecked negation of the interval: authorized as `Increment`, never as `Decrement`, storing and returning whatever that `Increment` does |
| Writes.DecrementMinValue | src/Data/DataServiceBase.cs:322-325 | decrementing by `int.MinValue` is incrementing by `int.MinValue` |
| Writes.OnDelete | src/Data/DataServiceBase.cs:436-442 | a null condition is refused with `NotSupportedException` before storage; otherwise a delete with the Deleting events |
| Writes.DeleteValidated | src/Data/DataServiceBase.cs:427-442 | `OnValidate` then `OnDelete`'s null check, storing exactly when the validated condition is not null; otherwise the run ends after `OnValidate` with its exception or `NotSupportedException` |
| Writes.Delete | src/Data/DataServiceBase.cs:421-434 | `EnsureDelete`, then `Authorize`, then `OnValidate`, then storage, which is reached exactly when all pass with a non-null condition; the result is the storage count, the first failing gate's exception (a disabled flag first), or `NotSupportedException` for a null validated condition |
| Writes.DeleteByKey | src/Data/DataServiceBase.cs:361-412 | as `Delete`, with the key converted after `Authorize` and before `OnValidate`: storage exactly when the flag, `Authorize`, conversion and `OnValidate` pass with a non-null condition, then the count; otherwise the exception of the first failure, a conversion error included |
| Writes.Insert | src/Data/DataServiceBase.cs:461-479 | `EnsureInsert`, then `Authorize`; a null object gives 0 only after both pass, and a failing check gives its own exception; then `OnValidate`, whose rejection is the result, and storage with the object's runtime type exactly when all pass |
| Writes.ValidateAll | src/Data/DataServiceBase.cs:519-523 | every item validated in order, or the exception of the first rejected item with every earlier one accepted |
| Writes.FailurePersists | src/Data/DataServiceBase.cs:519-523 | once an item is rejected, later items change nothing |
| Writes.ValidateEach | src/Data/DataServiceBase.cs:519-523 | the per-item `OnValidate` loop of `InsertMany` (and the same loop in `UpdateMany`, 642-646) computes `ValidateAll` |
| Writes.BulkRun | src/Data/DataServiceBase.cs:505-535 | capability, then `Authorize`; 0 for a null collection only after both pass, and a failing check gives its own exception; one `OnValidate` per item, and the first rejection ends the run with its exception; storage with every validated item exactly when all pass; `UpdateMany` (628-657) has the same shape |
| Writes.Bulk | src/Data/DataServiceBase.cs:505-526 | the imperative bulk write computes `BulkRun` |
| Writes.InsertMany | src/Data/DataServiceBase.cs:505-526 | `BulkRun` with `EnsureInsert`, `Method.InsertMany()` and the Inserting events |
| Writes.UpdateMany | src/Data/DataServiceBase.cs:628-649 | `BulkRun` with `EnsureUpdate`, `Method.UpdateMany()` and the Updating events |
| Writes.BulkRejectsAll | src/Data/DataServiceBase.cs:519-525 | one rejected item keeps the whole collection from the storage |
| Updates.Prepare | src/Data/DataServiceBase.cs:593-606 | an explicit condition is kept and the dictionary takes its matched key values, failing only on a null key array; without one, the dictionary is unchanged and the condition, or the error, is `EnsureUpdateCondition`'s |
| Updates.UpdateRun | src/Data/DataServiceBase.cs:584-613 | `EnsureUpdate`, then `Authorize`, then condition preparation, then `OnValidate` of the condition and of the data; storage, with what those returned, exactly when all pass; otherwise the run ends at the first failure with its exception |
| Updates.PrepareInPlace | src/Data/DataServiceBase.cs:593-606 | building the data dictionary, writing the matched key values into it in place (or reading the implicit condition from it) computes exactly `Prepare`: the mirrored dictionary with the explicit condition, or `UpdateCondition`'s condition or exception |
| Updates.Update | src/Data/DataServiceBase.cs:584-613 | the in-place version over a data dictionary computes `UpdateRun` |
| Updates.UpdateByKey | src/Data/DataServiceBase.cs:544-566 | the key is converted before `EnsureUpdate`, so a bad key is reported even when updates are disabled |
| Updates.ExplicitConditionMirrorsKeys | src/Data/DataServiceBase.cs:597-612 | on a base service, an explicit condition reaches storage as given, with the key values it matches copied into the data |
| Updates.ExplicitConditionKeyValues | src/Data/DataServiceBase.cs:597-603 | stored key fields hold the matched values; every other field holds the caller's value |
| Updates.UpdateByIdCarriesId | src/Data/DataServiceBase.cs:597-612 | updating with `Equal("Id", 5)` on an Id-keyed entity sends `Id = 5` in the data |
| Updates.ImplicitCondition | src/Data/DataServiceBase.cs:1325-1339 | with no condition, storage is reached exactly when every key value is present, keyed by the implicit condition and with the data unchanged; otherwise a `DataException` |
| Updates.NullKeyFails | src/Data/DataServiceBase.cs:597-606 | with no declared key, an authorized update fails with a null reference, with or without a condition |
| Searcher.SearchMethod | src/Data/DataServiceBase.cs:1541-1554 | exactly Count, Exists and Search are mapped; each maps to a reading method; Search to a Select named "Search" |
| Searcher.Resolve | src/Data/DataServiceBase.cs:1541-1554 | a mapped name's base condition goes through `OnValidate` with its method; any other name's is returned unchanged |
| Searcher.SearchCountValidatesAsCount | src/Data/DataServiceBase.cs:1545-1546 | a searcher Count is validated exactly as the service's Count |
| Searcher.SearchIsANamedSelect | src/Data/DataServiceBase.cs:1549-1550 | Search is validated with Select's kind but is not `Method.Select()` |
| Searcher.BaseResolveUnchanged | src/Data/DataServiceBase.cs:1541-1554 | on a base service, every name resolves to the base searcher's condition |

## Left out

- The storage engine (`IDataAccess`): its answers are functions of the call it receives.
  Whether it fires the callbacks, and whether it skips work on cancel, is not modelled.
- `Schema.Parse`: a schema is the triple of entity name, expression and type it is parsed from.
  A null and an empty schema string are not told apart.
- `DataDictionary.GetDictionary[ies]`: data objects arrive already as field maps with a type
  name. A null `data` in `Update`, which that call would have to handle, is not modelled.
- The `OnInsert`/`OnUpdate` checks on a null dictionary and the `OnInsertMany`/`OnUpdateMany`
  checks on a null collection are not modelled. The entry points never pass null there.
- `TrySetValue`'s refusal of names that are not entity members: the key fields are always members.
- The `Condition.Match` visitor is modelled as visiting the `Equal` leaves on the field, with an
  exact, case-sensitive name comparison.
- `Method.GetHashCode`: the string hash is a parameter. Per-process hash randomisation is not modelled.
- The lazy `Name` and `DataAccess` properties, the service provider, and `Naming`: the name is a
  constant of the service.
- The ambient principal (`ApplicationContext.Current`): each entry point takes it as an explicit argument.
- `EnsureUpsert` is modelled through `Service.EnsureCapability`. This file has no upsert entry point that calls it.
- The overloads that only forward default arguments are not modelled as members of their own.
- The base `DataSearcher.Resolve` and its keyword conditioner are not part of this model.
  They are a parameter of `Searcher.Resolve`.
- Keys.InquiryNeverSingleChild: states the no-one-child-collection property only for the base
  `GetKey`. An overriding `GetKey` may nest a one-child collection below the top level, and
  `EnsureInquiryKey` unwraps only the top level (its own contract states that).
- A subscriber that throws inside a multicast `OnXxxing`/`OnXxxed` invocation: the model's handlers
  are total functions, so the exception that would skip the later handlers and leave the entry
  point is not modelled.
- Writes.BulkRun: takes the collection of data dictionaries as materialised. The storage receives
  the same records the validation loop saw; a lazily converted collection that the storage
  enumerates a second time is not modelled.
