# metal-data core, modelled in Dafny

metal-data is a TypeScript client library for REST collections. This project models its core and proves properties about that model:

- **The difference engine** (`diff`, `compare`, `objectDiff`, `arrayDiff`, `stringDiff`, `dateDiff`). It computes what changed between a record's last known server data and its local data.
- **The record** (`MetalRecord`). This covers its data and mirror, its change tracking, its cache and stash entries in the state store, and its find options. It also covers its save / update / delete / fetch life cycle, its subscription handler, and the selection over a list of records (`MetalRecordList`).
- **The event emitter** (`EventEmitter`): emit, subscribe, unsubscribe and kick.
- **The filter and URI codec** (`filterRefMap`, `modelRefMap`, `encodeModelURI`, `decodeModelURI`, `decodeFiltersFromURL`) and the scalar converter `strToType`.
- **The request model**: `MetalRequest` URL composition with append and prepend, `MetalTransaction.run`, and the error message normalisation of `MetalTransactionError`.

## How JavaScript values are represented

JavaScript values are a datatype, `JsValues.Value`:

- An object is an ordered list of fields, kept in insertion order, which is the order `Object.entries` walks.
- An array is a sequence of slots. A slot is either a hole or an item, so sparse arrays built by index assignment are exact.
- Dates carry their seven local-time components. `JSON.stringify` writes a date as its ISO text, so a JSON copy of a date is a string.
- `WellFormed` says that keys are distinct at every level, as they are in any JavaScript object.

`typeOf` puts `null` and `undefined` in one class. The model keeps `typeof` apart from it.

A nested diff walk reads the source by property, as `source[key]` does. An object's properties are its fields. An array's properties are its indices and `length`. A date and null have no own properties (`OwnProps`). So an object diffed against an array reads the array's indices, and a deep array diffed against an object reads the object's index-named keys and its `length`. A date compared with null compares with the epoch, which is what `new Date(null)` gives.

An operation that would throw in JavaScript returns an error value. The diff walks yield `Err(Fault)` at the nested keys where the source throws:

- a filled object or any deep array against `null`, since a property of `null` is read;
- a date against an object or an array, since `toISOString` of the invalid date they make throws;
- a deep array against an object whose `length` exceeds the target's, since spreading an object that is not iterable throws.

Record operations report a thrown error as `Outcome.Threw`.

Each awaited collection call is a parameter of the method that awaits it: the value the call resolved with, or the error it rejected with. Each event emitter of a record is represented by the log of what it emitted (`notices`).

## Where the code and its tests differ

The model follows the code as written:

- **String diffs stop at the end of the target.** `stringDiff` walks only the target's characters. So a longer source reports nothing beyond the target's length, and the tests' `diff('ABC', 'ABCD')` expectation is not met. `DiffLemmas.StringDiffLongerSource` states what the code returns.
- **Deep array diffs drop falsy changes.** `objectDiff` with `deepArray` keeps an array change only if some changed item is truthy, so a change to `0` is dropped (`DiffLemmas.DeepArrayFalsyChangeIgnored`, `DiffLemmas.DeepArrayTruthyChangeKept`).
- **`arrayDiff` can append the head of the source.** When the source is longer than the target, it pushes the source's first elements after the walked prefix. They are not the source's tail (`DiffLemmas.ArrayWalkHeadAppended`, `DiffLemmas.ArrayDiffOfPrefix`, `DiffLemmas.ArrayDiffHeadExample`).
- **`_writeCache` writes the persistent tier in both branches.** Its memory-cache branch also calls the persistent `store`, so the memory tier is never written by it (`Records.MetalRecord.WriteCache`).
- **Keys only the source has are not reported.** `objectDiff` walks the entries of the target alone. So a key present only in the source never appears in the result, although the tests expect the top-level `c: {a: 2, b: 2}` and the nested `d: 3` of their complex-object example (`DiffEngine.Diff`, `DiffLemmas.ObjectWalkReadsTargetKeys`).
- **A character the source lacks is `undefined`, not `null`.** `stringDiff` stores `source[i]` where the characters differ, and past the source's end that read gives `undefined`. The tests expect `null` at index 3 of `diff('ABCD', 'ABD')` (`DiffLemmas.StringDiffShorterSource`).
- **Unchanged positions are holes.** String and array diffs assign only the positions that differ, so the others stay holes in the sparse result, where the tests expect `NaN` (`DiffLemmas.StringWalkRecords`, `DiffLemmas.StringDiffReplaced`, `DiffLemmas.ArrayPrefixRecords`).
- **Unsubscribing an unknown listener removes the last one.** `unsubscribe(fn)` with a listener that is not registered splices index -1, which removes the last listener (`Events.UnsubscribeAbsentRemovesLast`).

## Model

| member | source | states |
|---|---|---|
| DiffEngine.ObjectWalk | src/utils/diff.ts:88-140 | the origins and changes of an object walk have the same distinct keys, all keys of the target; a fault is the only error |
| DiffEngine.ObjectDiff | src/utils/diff.ts:88-140 | the loop over `Object.entries(target)` computes exactly the object walk over the source's own properties, for any source that is not null and whose `typeof` is "object" |
| DiffEngine.KeyDiff | src/utils/diff.ts:93-131 | the per-key branch computes the key's change: typeof mismatch, arrays deep or by JSON text, nested objects read by property, dates compared with null as the epoch, and scalars |
| DiffEngine.ArrayDiff | src/utils/diff.ts:156-205 | for any source whose `typeof` is "object", the loop over the target's items, then the `length` test and the head push, computes exactly `ArrayWalkOn` |
| DiffEngine.ArrayWalkOn | src/utils/diff.ts:156-198 | a deep array walk against any source whose `typeof` is "object" fails only with a fault: against null, or when a longer non-array source would be spread |
| DiffEngine.SourceSlots | src/utils/diff.ts:160-163 | the slots the element walk reads from a non-array source hold `source[i]` at each target index |
| DiffEngine.ElemDiff | src/utils/diff.ts:160-194 | the per-element branch computes the element's change |
| DiffEngine.ArrayPrefix | src/utils/diff.ts:160-194 | the walked origins and changes are equally long and no longer than the target |
| DiffEngine.SpreadHead | src/utils/diff.ts:196-198 | the spread-and-splice of the source yields its first n values, holes read as undefined |
| DiffEngine.StringDiff | src/utils/diff.ts:221-237 | the character loop computes exactly the string walk |
| DiffEngine.StringWalk | src/utils/diff.ts:221-237 | a string walk records at most one slot per target character |
| DiffEngine.DateDiff | src/utils/diff.ts:263-302 | the seven comparisons compute exactly the date delta |
| DiffEngine.DateParts | src/utils/diff.ts:264-272 | a date has seven compared components |
| DiffEngine.Diff | src/utils/diff.ts:14-34 | differing typeOf classes give the mismatch error and no result; the only other error is a fault; an object's changes carry only keys of the target, a string's changes are no longer than the target, a date's hold at most seven components |
| DiffEngine.Compare | src/utils/diff.ts:47-67 | differing typeOf classes give the mismatch error and no result; for objects the origins and changes have the same keys, for strings they are equally long and no longer than the target, for dates the origins hold all seven components |
| DiffEngine.KeyChange | src/utils/diff.ts:93-131 | what objectDiff records for one key; the only error it can raise is a fault |
| DiffEngine.ElemChange | src/utils/diff.ts:160-192 | what arrayDiff records for one element, with nested objects walked deep; the only error is a fault |
| DiffEngine.ArrayWalk | src/utils/diff.ts:156-198 | the array walk of two arrays: the element walk, then the source's head pushed when the source is longer; the only error is a fault |
| DiffEngine.DateDelta | src/utils/diff.ts:263-302 | the origins hold seven components and the changes at most seven; equal dates have no changes |
| DiffLemmas.DiffMismatch | src/utils/diff.ts:14-20 | diff and compare throw their mismatch error exactly when the two typeOf classes differ; otherwise the only error is a fault |
| DiffLemmas.DiffNoHandler | src/utils/diff.ts:31-32 | booleans, numbers, functions and nullish values have no handler: diff gives undefined, compare no comparison |
| DiffLemmas.DiffIsChangesOfCompare | src/utils/diff.ts:47-67 | diff succeeds exactly when compare does, and its result is compare's changes |
| DiffLemmas.ObjectWalkOk | src/utils/diff.ts:92-131 | an object walk succeeds iff every key of the target can be compared |
| DiffLemmas.ObjectWalkRecords | src/utils/diff.ts:92-131 | for each key of the target, the walk records, under that key, exactly the change the key's comparison found |
| DiffLemmas.ObjectWalkReadsTargetKeys | src/utils/diff.ts:92-95 | the walk reads the source only at the target's keys |
| DiffLemmas.ObjectWalkSelf | src/utils/diff.ts:88-140 | an object compared with itself has no changes and no origins |
| DiffLemmas.DiffSelf | src/utils/diff.ts:14-34 | diffing a value with itself gives an empty result of its class |
| DiffLemmas.DiffFromCopy | src/utils/diff.ts:88-140 | a JSON copy of an object, diffed with any object that agrees on its keys, does not throw, and has no changes exactly when no date is reached through object fields |
| DiffLemmas.ObjectWalkCopy | src/utils/diff.ts:88-140 | walking an object's JSON copy against it never throws; it records nothing when no date is reached through fields, and some change otherwise |
| DiffLemmas.KeyChangeCopy | src/utils/diff.ts:93-131 | comparing a kept value's JSON copy with it never throws, and finds no change iff no date is reached through object fields |
| DiffLemmas.ObjectAgainstArrayExample | src/utils/diff.ts:111-117 | `diff({k:{a:1}},{k:[]})` is `{k:{a:undefined}}`: the nested walk reads the array's properties |
| DiffLemmas.DeepArrayAgainstObjectExample | src/utils/diff.ts:98-104 | `diff({k:[1]},{k:{}},true)` is `{}`: `{}[0]` is undefined, the filter drops it, and `{}.length` is not larger |
| DiffLemmas.DateAgainstNullExample | src/utils/diff.ts:118-125 | a date other than the epoch against null is reported, with null as its change |
| DiffLemmas.NestedFaultExamples | src/utils/diff.ts:93-125 | a filled object against null, and a date against an object, throw |
| DiffLemmas.DiffSimpleObject | src/utils/diff.ts:88-140 | `diff({a:1,b:2},{a:1,b:3})` is `{b:3}` |
| DiffLemmas.ObjectWalkWellFormed | src/utils/diff.ts:88-140 | walking JavaScript objects yields JavaScript objects |
| DiffLemmas.ArrayWalkWellFormed | src/utils/diff.ts:156-205 | walking arrays of JavaScript values yields arrays of JavaScript values |
| DiffLemmas.ArrayPrefixRecords | src/utils/diff.ts:160-194 | each index of the target holds exactly the change the element comparison found, and the result ends with an assigned slot |
| DiffLemmas.ArrayPrefixOfSource | src/utils/diff.ts:160-194 | a target that is a prefix of the source has no changed prefix |
| DiffLemmas.ArrayWalkHeadAppended | src/utils/diff.ts:196-198 | when the target is a proper prefix of the source, the changes are the source's first elements |
| DiffLemmas.ArrayDiffOfPrefix | src/utils/diff.ts:187-198 | diff of a hole-free array against a longer source that starts with it returns the target unchanged: no element differs, and the pushed head is the target again |
| DiffLemmas.ArrayDiffHeadExample | src/utils/diff.ts:196-198 | `diff([1,2],[1,2,3])` is `[1,2]`: the source's head, not its extra element |
| DiffLemmas.DeepArrayFalsyChangeIgnored | src/utils/diff.ts:98-105 | a deep array change from `[1]` to `[0]` (a falsy item) is dropped: the diff is empty |
| DiffLemmas.DeepArrayTruthyChangeKept | src/utils/diff.ts:98-105 | a deep array change from `[1]` to `[2]` (a truthy item) keeps the key with the source's array |
| DiffLemmas.DateDeltaRecords | src/utils/diff.ts:263-302 | the origins hold the target's seven components; a component is in the changes iff it differs, with the source's value |
| DiffLemmas.StringWalkRecords | src/utils/diff.ts:221-237 | each target position holds exactly its character change, and the result ends with an assigned slot |
| DiffLemmas.StringWalkSelf | src/utils/diff.ts:221-237 | a target that is a prefix of the source has no changes |
| DiffLemmas.StringDiffReplaced | src/utils/diff.ts:221-237 | `diff('ABC','ACC')` records `C` at index 1 and a hole before it |
| DiffLemmas.StringDiffShorterSource | src/utils/diff.ts:225-230 | `diff('ABCD','ABD')` records `D` at index 2 and undefined at index 3 |
| DiffLemmas.StringDiffLongerSource | src/utils/diff.ts:221-237 | `diff('ABC','ABCD')` is empty: characters past the target are not reported |
| JsValues.TypeofTagOfKind | src/utils/diff.ts:93 | equal typeOf classes other than nullish have equal typeof tags; typeof says "object" exactly for null, dates, arrays and objects |
| JsValues.ArrayLengthProp | src/utils/diff.ts:196 | an array's `length` property is its length |
| JsValues.ArrayIndexProp | src/utils/diff.ts:160-163 | an array's property named by an index reads the item there, a hole or a missing index as undefined |
| JsValues.ArrayOtherProp | src/utils/diff.ts:93 | any other key of an array reads undefined |
| JsValues.OwnPropsWellFormed | src/utils/diff.ts:93 | the own properties of a JavaScript value are fields with distinct keys holding JavaScript values |
| JsValues.CopyNotOmitted | src/record.ts:105 | a value JSON keeps is kept by a second copy, keeps its `typeof` unless it is a date, and a date becomes its ISO text |
| JsValues.CopyFieldsNoDates | src/record.ts:105 | a JSON copy reaches no date through object fields |
| JsValues.CopyFieldsGet | src/record.ts:202-209 | a JSON copy drops undefined and function fields and copies the rest |
| JsValues.CopyFieldsNormal | src/record.ts:214-219 | a JSON copy of a JSON copy is the same copy |
| JsValues.SetPathGet | src/record.ts:228-238 | `_.set` on a path makes the path read back the value and leaves the other top-level keys alone |
| JsValues.MergeWellFormed | src/record.ts:228-238 | `_.merge` of JavaScript objects is a JavaScript object |
| JsValues.ShallowAssignGet | src/record.ts:202-209 | after `Object.assign`, a key of the source reads its value and every other key reads the old one |
| JsValues.JsonCopy | src/record.ts:105 | `JSON.parse(JSON.stringify(v))`: the copy is never a date or a function |
| JsValues.SetPath | src/record.ts:230 | `_.set` keeps every key of the object and adds the path's first key |
| JsValues.Merge | src/record.ts:232 | `_.merge` keeps every key of the destination and adds every key of the source |
| JsValues.MergeGetOther | src/record.ts:232 | after `_.merge`, a key the source lacks reads its old value and is present exactly when it was before |
| JsValues.MergeGet | src/record.ts:232 | after `_.merge`, a key of the source reads the source's value merged onto the old value, except that an undefined source value leaves an existing key untouched |
| JsValues.MergeValue | src/record.ts:232 | a plain object merges into an object, an array into an array, and any other source value replaces the destination |
| JsValues.ShallowAssign | src/record.ts:204 | `Object.assign` keeps every key of the destination and adds every key of the source |
| JsValues.OwnProps | src/utils/diff.ts:93 | the properties `source[key]` reads: an object's fields, an array's index fields and `length`, nothing for other values; ArrayLengthProp, ArrayIndexProp and ArrayOtherProp state the array reads |
| JsValues.NumberLess | src/utils/diff.ts:196 | JavaScript's `<` of the target's length against the source's `length` property after ToNumber |
| Events.SetSubscriberNames | src/event.ts:30-31 | naming a subscriber keeps an existing name's place and appends a new name |
| Events.SetSubscriberLookup | src/event.ts:30-31 | after naming a subscriber the name maps to the handler and other names are left alone |
| Events.SetSubscriberDistinct | src/event.ts:30-31 | naming a subscriber keeps the names distinct |
| Events.RemoveSubscriberLookup | src/event.ts:42-43 | after deleting a subscriber the name maps to nothing and other names are left alone |
| Events.RemoveSubscriberNames | src/event.ts:42-43 | deleting a subscriber removes exactly that name |
| Events.RemoveSubscriberDistinct | src/event.ts:42-43 | deleting a subscriber keeps the names distinct |
| Events.IndexOf | src/event.ts:44 | `indexOf` is -1 iff the listener is absent, and otherwise its first index |
| Events.EventEmitter.constructor | src/event.ts:8-10 | an emitter starts with no listeners and no subscribers |
| Events.EventEmitter.Emit | src/event.ts:12-24 | an emit calls the listeners in order, then the subscribers in order |
| Events.EventEmitter.Subscribe | src/event.ts:28-38 | a name sets the subscriber; a function is added once; unsubscribing uses the same argument |
| Events.EventEmitter.Unsubscribe | src/event.ts:40-48 | a name deletes the subscriber; a function splices its `indexOf` |
| Events.EventEmitter.Kick | src/event.ts:50-53 | kick removes all listeners and subscribers |
| Events.SubscribeThenUnsubscribe | src/event.ts:28-48 | unsubscribing a freshly added listener restores the list |
| Events.UnsubscribeRemovesHandler | src/event.ts:40-48 | unsubscribing a registered listener removes it and only it |
| Events.UnsubscribeAbsentRemovesLast | src/event.ts:44-45 | unsubscribing an absent listener removes the last one |
| Events.SetThenRemoveSubscriber | src/event.ts:28-48 | naming a new subscriber and deleting it restores the subscribers |
| Events.AddListener | src/event.ts:32-33 | `subscribe(fn)` lists `fn` once, keeps the earlier listeners in order and adds nothing else, and keeps the list free of duplicates |
| Events.Emitted | src/event.ts:12-24 | the handlers an emit calls: the listeners in list order, then the named subscribers in entry order |
| Events.ListenerCalledOnce | src/event.ts:12-38 | subscribing the same listener again changes nothing, and in the calls of the next emit the listener part calls it exactly once |
| Converter.StrToType | src/utils/converter.ts:1-19 | only strings change; a converted value is the boolean, null, undefined or non-zero number the text spells; every decimal literal with a non-zero value (signed or with leading zeros) becomes that number; any other string is returned unchanged |
| Converter.StrToTypeRoundTrip | src/utils/converter.ts:3-12 | the text of a boolean, null, undefined or non-zero integer converts back to it |
| Converter.StrToTypeKeepsZero | src/utils/converter.ts:11-14 | the empty string and the texts of zero stay strings |
| Converter.StrToTypeIdempotent | src/utils/converter.ts:1-19 | converting an already converted value changes nothing |
| Filter.FilterRefMap | src/utils/filter.ts:13-33 | the loop computes exactly the descriptor list |
| Filter.FilterRefsSound | src/utils/filter.ts:13-33 | every reference describes the nested object its dotted `_path` leads to |
| Filter.FilterRefsTopLevel | src/utils/filter.ts:17-21 | every top-level object with a truthy `_type` is described |
| Filter.FilterRefsComplete | src/utils/filter.ts:13-33 | every object with a truthy `_type`, at any depth, has an entry whose path is the dot-joined key path to it; with FilterRefsSound the entries are exactly these objects |
| Filter.ModelRefMap | src/utils/filter.ts:35-65 | the loop computes exactly the data reference list |
| Filter.ModelRefsPresent | src/utils/filter.ts:35-65 | without `falsy`, no reference holds undefined, null or an empty array |
| Filter.NestedIgnoresFalsy | src/utils/filter.ts:39-50 | nested objects are always mapped without `falsy` |
| Filter.EntryModelRefKeys | src/utils/filter.ts:40-50 | references from an entry are keyed by the entry or a dotted path under it |
| Filter.TopLevelKept | src/utils/filter.ts:51-60 | a top-level scalar is kept iff it is present or `falsy` is set |
| Filter.ModelRefMapExample | src/utils/filter.ts:35-65 | a condition key collapses onto its parent and `falsy` keeps null |
| Filter.EncodeRef | src/utils/filter.ts:67-79 | encoding throws exactly for a list or range without an array, and otherwise begins with `key=` |
| Filter.EncodeRefs | src/utils/filter.ts:67-79 | encoding all references succeeds iff each one does, segment by segment |
| Filter.EncodeModelURI | src/utils/filter.ts:67-79 | encoding succeeds iff every reference can be encoded; no references give the empty text |
| Filter.DecodeSegment | src/utils/filter.ts:82-112 | a segment without `=` throws; the others decode to a typed reference, with an array for lists and ranges |
| Filter.DecodeSegments | src/utils/filter.ts:81-115 | decoding succeeds iff every segment does, reference by reference |
| Filter.DecodeValue | src/utils/filter.ts:88-112 | a decoded value is always typed, and a list or range value is an array |
| Filter.SplitList | src/utils/filter.ts:93 | splitting at commas gives at least one piece |
| Filter.NonEmpty | src/utils/filter.ts:82-84 | `filter(segment => segment)` keeps exactly the non-empty segments; all of them when none is empty, and a single segment iff it is non-empty |
| Filter.NonEmptyConcat | src/utils/filter.ts:82-84 | filtering a concatenation is the concatenation of the filtered parts, so the kept segments stay in their original order, each once |
| Filter.DecodeModelURI | src/utils/filter.ts:81-115 | a successful decoding gives exactly one typed reference per non-empty `&`-segment, index by index in order: the i-th reference is the decoding of the i-th non-empty segment |
| Filter.DecodeModelURIThrows | src/utils/filter.ts:82-88 | decoding throws iff some non-empty `&`-segment has no `=`, so that `value.startsWith` reads undefined |
| Filter.EncodeDecodeRoundTrip | src/utils/filter.ts:67-115 | decoding encoded codable references gives their decoded forms, in order |
| Filter.ScalarRoundTrip | src/utils/filter.ts:76-112 | a boolean, null, undefined or non-zero number comes back as itself |
| Filter.RangeRoundTrip | src/utils/filter.ts:72-106 | a range comes back as the same texts under `key.between` |
| Filter.DecodeTildeExample | src/utils/filter.ts:88-94 | `tags=~a, b` decodes to `tags.inq` with the two texts |
| Filter.DecodeListExample | src/utils/filter.ts:95-100 | `ids=[1,0]` decodes to `ids.inq` with 1 and the text "0" |
| Filter.DecodeRangeExample | src/utils/filter.ts:101-106 | `age=<18><65>` decodes to `age.between` with the two texts |
| Filter.DecodeSingleExample | src/utils/filter.ts:107-112 | `active=true` decodes to the boolean |
| Filter.DecodeMissingValue | src/utils/filter.ts:82-86 | a segment without `=` throws |
| Filter.FilterPath | src/utils/filter.ts:126-132 | root keys are set at the top, every other key under `where` on its dotted path |
| Filter.DecodeFiltersFromURL | src/utils/filter.ts:122-135 | the result is the decoded references routed into a filter, or the decoder's error |
| Filter.FiltersOf | src/utils/filter.ts:124-134 | the filter object after `_.set` of each reference at its path, in order; FiltersTopKeys and FiltersRouting state its keys and contents |
| Filter.FiltersTopKeys | src/utils/filter.ts:122-135 | a decoded filter has distinct top-level keys, each a root key or `where` |
| Filter.FiltersRouting | src/utils/filter.ts:126-132 | each reference lands at its path and leaves the other top-level keys alone |
| Requests.MetalRequest.Url | src/request.ts:98-114 | the url is the optional segment prefix, option prefix, paths and option suffix joined by `/`; no segments throws |
| Requests.UrlOf | src/request.ts:98-113 | composing the url throws iff there is no segment |
| Requests.MetalRequest.Append | src/request.ts:124-127 | the segments are extended at the end and the request is returned |
| Requests.MetalRequest.Prepend | src/request.ts:133-136 | the segments are extended at the front and the request is returned |
| Requests.UrlSplits | src/request.ts:98-114 | splitting the url at `/` gives back its pieces when no piece has a `/` |
| Requests.AppendUrl | src/request.ts:98-127 | after append, the url pieces are the old paths followed by the new ones |
| Requests.PrependUrl | src/request.ts:98-136 | after prepend, the first new segment's prefix leads |
| Requests.Sentence | src/request.ts:72 | a list element gets a final period unless it has one |
| Requests.SentencesMessage | src/request.ts:72 | joining an error list throws iff an element is a non-string |
| Requests.SentencesSplit | src/request.ts:72 | the joined list splits at spaces into the elements as sentences |
| Requests.SentenceIdempotent | src/request.ts:72 | making a sentence of a sentence changes nothing |
| Requests.ErrorCode | src/request.ts:64-66 | the code is the response status when there is a truthy one |
| Requests.ErrorMessage | src/request.ts:68-76 | without truthy server errors the client message stays; a string is taken verbatim; only a list can make it throw |
| Requests.JsonText | src/request.ts:74 | `JSON.stringify` of the server errors when they are neither a string nor a list |
| Requests.TransactionError.constructor | src/request.ts:57-78 | the error keeps its cause and transaction, the status code and the normalised message |
| Requests.MetalTransaction.Run | src/request.ts:33-51 | success completes and keeps the response; failure keeps the error response, fails, builds the error and throws it; the emitted states are running then the final one |
| Records.MetalRecord.Changes | src/record.ts:75-77 | `changes` is an object whose keys are keys of the mirror, or a fault |
| Records.MetalRecord.HasChanges | src/record.ts:82-84 | `hasChanges` throws iff `changes` does, and is false iff `changes` is empty |
| Records.MetalRecord.HasChangesIff | src/record.ts:75-84 | `hasChanges` is true iff some key of the mirror differs in the data |
| Records.MetalRecord.constructor | src/record.ts:94-106 | the reference paths, the seed as data, a JSON copy of it as mirror (so `CopyHasChanges` applies), and ready and initialized iff the seed has a truthy id |
| Records.MetalRecord.SetSelected | src/record.ts:61-70 | the setter stores the flag, announces it and tells the query |
| Records.MetalRecord.Mark | src/record.ts:486-489 | selectAll and deselectAll set the flag directly and announce it on the record, changing nothing else |
| Records.MetalRecord.WriteCache | src/record.ts:136-146 | the data goes to the persistent tier at the record's path when either cache is on |
| Records.MetalRecord.Stash | src/record.ts:184-196 | the changes go to the changes path of each tier that is on; reading them may throw |
| Records.MetalRecord.SetKey | src/record.ts:228-238 | the key's dotted path reads back the value, the mirror is kept, the data is announced and stashed |
| Records.MetalRecord.SetData | src/record.ts:228-238 | the partial data is merged, so each key reads as `JsValues.MergeGet` and `JsValues.MergeGetOther` say; the mirror is kept, the data is announced and stashed |
| Records.MetalRecord.Assign | src/record.ts:202-209 | the mirror is a copy of the data given, the keys given are copied onto the data and the others kept, the data is announced, the cache is written |
| Records.MetalRecord.AssignedHasChanges | src/record.ts:202-209 | after `assign(d)`, `hasChanges` does not throw, and is true exactly when a date is reached from `d` through object fields (its copy in the mirror is a string) |
| Records.MetalRecord.CopyHasChanges | src/record.ts:75-84 | when the mirror is a JSON copy of the data, `hasChanges` does not throw, and is true exactly when a date is reached from the data through object fields |
| Records.MetalRecord.ResetIsClean | src/record.ts:214-219 | with the data equal to the mirror, as after `reset()`, `hasChanges` is false |
| Records.MetalRecord.Reset | src/record.ts:214-219 | the data becomes the mirror (a JSON copy of itself, so `ResetIsClean` applies), the data is announced, the cache is written |
| Records.MetalRecord.ApplyCache | src/record.ts:153-162 | it acts only before initialization, assigns cached data with a truthy id, and leaves the record initialized and ready |
| Records.MetalRecord.LoadCaches | src/record.ts:120-130 | the first enabled tier's state is applied, with its data notice and cache write when it has a truthy id; the second cannot act |
| Records.MetalRecord.UnStash | src/record.ts:167-179 | each enabled tier's stashed changes are merged in turn and stashed again; with both on, the second merge reads what the first stashed; the data notices and both tiers are stated per case |
| Records.MetalRecord.SetOption | src/record.ts:242-250 | the option's dotted path reads back the value and nothing else changes |
| Records.MetalRecord.ReplaceOptions | src/record.ts:242-250 | the options are replaced and nothing else changes |
| Records.MetalRecord.SetParam | src/record.ts:259-267 | the param's path under `params` reads back the value |
| Records.MetalRecord.ReplaceParams | src/record.ts:259-267 | `params` is replaced and the other options are kept |
| Records.MetalRecord.Select | src/record.ts:276-284 | `fields` is set and the other options are kept |
| Records.MetalRecord.Exclude | src/record.ts:293-301 | `excludeFields` is set and the other options are kept |
| Records.MetalRecord.Save | src/record.ts:308-333 | with an id: sync, stash, then on success ready with the data as mirror and the cache written; without one, the created data is assigned; a failure is kept, announced and thrown |
| Records.MetalRecord.SaveChanges | src/record.ts:310-318 | the id branch of save: status sync, stash, the update call, then the mirror becomes a copy of the data and the record is ready; a failure keeps the status at sync |
| Records.MetalRecord.SaveNew | src/record.ts:319-322 | the create branch of save: the created data is assigned and the record is ready; a failure leaves the status as it was |
| Records.MetalRecord.Fail | src/record.ts:325-330 | the catch: the error is kept, the error and the current status are announced, and the error is thrown on |
| Records.MetalRecord.Commit | src/record.ts:316-324 | the success path of a save with an id: the mirror becomes a JSON copy of the data, the cache is written, and the record is ready and announced |
| Records.MetalRecord.Receive | src/record.ts:392-394 | the success path of a fetch: the found data is assigned, and the record is ready and announced after the data |
| Records.MetalRecord.Update | src/record.ts:340-349 | the payload is merged and saved. When the stash inside `set` throws, status, error and the store tiers are unchanged. With an id, a failure leaves the status at sync with the error kept; without one, a failed create keeps the status and keeps the error. On success the record is ready, the error unchanged, and the mirror is a JSON copy of the merged data, or of the created data without an id |
| Records.MetalRecord.Delete | src/record.ts:355-368 | success marks the record deleted and ready and announces it; failure leaves it at sync |
| Records.MetalRecord.Fetch | src/record.ts:375-403 | the interim status is announced, then the found data is assigned, the cache written and the record is ready, or the error is kept, announced and thrown |
| Records.MetalRecord.Subscribe | src/record.ts:409-410 | the subscription handle is kept |
| Records.MetalRecord.OnEvent | src/record.ts:410-417 | a delete event marks the record deleted and announces its status; any other event has exactly the outcome of `fetch()` |
| Records.MetalRecord.Unsubscribe | src/record.ts:425-432 | the subscription is dropped |
| Records.SelectedCount | src/record.ts:454-470 | all records are kept by the filter iff all are selected; one is kept iff one is selected |
| Records.SelectedOf | src/record.ts:454-456 | the filter keeps the selected records and only them, and is no longer than the list |
| Records.MetalRecordList.SelectedRecords | src/record.ts:454-456 | the selected records, and only them |
| Records.MetalRecordList.AllRecordsSelected | src/record.ts:461-463 | true iff every record is selected |
| Records.MetalRecordList.FewRecordsSelected | src/record.ts:468-470 | true iff some records are selected and some are not |
| Records.MetalRecordList.SetAllSelected | src/record.ts:485-508 | every record's flag is set and announced, the first record's query is told once, and an empty list throws |

## Left out

- Network, timing and identifiers: transports, `uuid`, start and end dates, and `duration` are not modelled. The awaited calls are parameters.
- Options handed to the collection calls are not modelled; their results are parameters. `init()` is modelled only through `_loadCaches`.
- Transaction status emitters are modelled as a log of emitted states. Record emitters are modelled as `notices`.
- The transport's own `subscription.unsubscribe()` is not modelled.
- Objects passed by reference: the model copies values and does not capture aliasing between a record's data and the objects given to it.
- State store: src/state.ts is not part of this model. The store is two maps from path to data, and a path with no entry reads as an empty object.
- `select(fields, true)` and `exclude(fields, true)`: this is `Select` or `Exclude` followed by `Fetch`. It is not modelled as one operation.
- `MetalRecordList.update`, `MetalRecordList.delete` and both `json()` methods: not modelled, because they only loop over record calls or serialise.
- `Object.setPrototypeOf` in the list constructors: not modelled, because Dafny has no prototypes.
- src/utils/object.ts, src/schema.ts and the `typeOf` helper are not part of this model. The `typeOf` classes are a function of the value datatype.
- `decodeModelURIFromURL`: not modelled, because it only reads `location.search` and calls the decoder.
- `decodeURI` and `location` are not modelled.
- Converter.StrToType: `Number(value)` is modelled on decimal integer literals only. Fractions, exponents, hex, `Infinity` and surrounding white space are left out because numbers are integers here.
- `ToJsString` has placeholder texts for dates, functions and objects; the codec round trips exclude them. Its date text is not the `Date.prototype.toString` text.
- `JsonText`, which stands for `JSON.stringify` of error lists, escapes no characters.
- Dates carry their local-time components as given; time zones and clocks are not modelled.
- NaN, floating point and numeric keys are not modelled: numbers are integers, and object keys are kept in insertion order without moving integer-like keys first.
- Lodash path syntax with brackets (`a[0].b`) is not modelled; paths are split at dots.
- The regular expression `\s` is modelled by the fixed character set in `Filter.IsSpace`.
- Events.EventEmitter.Subscribe: subscriber names that are integer-like keys would be ordered first by JavaScript; the model keeps insertion order.
- Records.MetalRecord.Update: its contract states the data, mirror, status, error and outcome on every path, but the notices log and the store tiers only when the stash inside `set` throws. On the other paths they follow from `SetData` and `Save`.
- Requests.TransactionError.constructor: it requires that the message can be built. A list error with a non-string element makes the JavaScript constructor throw; `Requests.MetalTransaction.Run` models that case as a TypeError.
- Records.MetalRecordList.SetAllSelected: it assumes that a list holds each record once.
- Record operations require the data they are given to be well-formed, since JavaScript objects always have distinct keys.
- JsValues.OwnProps: inherited properties read as undefined. JavaScript reads the prototype's value, such as an array's `map` method or an object's `toString`, so a target key with such a name compares against undefined here.
- JsValues.NumberLess: it compares `target.length < source.length` for a source `length` that is an integer, a boolean, null, a decimal text or an array. A date, or a text with white space, a fraction, an exponent or a hex prefix, is compared as NaN or by its decimal digits only.
- DiffEngine.KeyChange: `new Date(source)` of an object or an array is taken as an invalid date, which throws at `toISOString`. `Date.parse` accepts the joined text of some arrays, such as `[2020]`, and an object with its own `valueOf`; those dates are not modelled.
- DiffEngine.KeyChange: a date compared with null is compared with the seven components of the epoch as given. The source compares ISO texts, which are in UTC.
- JsValues.SetPath: a step through an existing array, date or function replaces it with a new object, while lodash keeps that container and writes the key into it. Index steps into arrays, and `_.set({}, 'a.0', v)` creating an array, are not modelled. This reaches Records.MetalRecord.SetKey and Records.MetalRecord.SetOption.
- Records.MetalRecord.SetKey: it relies on `SetPath`, so it has the gap the `SetPath` line names for steps through arrays, dates and functions.
- JsValues.MergeValue: a plain object merged onto an existing array or an existing date replaces that destination with a new object. This reaches `Records.MetalRecord.SetData`, `Records.MetalRecord.UnStash` and `Records.MetalRecord.Update`, which merge through it. lodash keeps any object-like destination other than a function and merges the object's keys into it. An array merged onto a destination that is not an array becomes a fresh array, as in lodash.
- DiffEngine.StringDiff: characters are Unicode scalar values, one per Dafny `char`. JavaScript's `split('')` and `source[i]` index UTF-16 code units, so a character outside the Basic Multilingual Plane is one position here and two in the source.
- DiffEngine.StringWalk: it has the same indexing gap as `StringDiff` for characters outside the Basic Multilingual Plane.
- Events.EventEmitter.Emit: the listeners are called from the list as it is when the emit starts. A handler that subscribes or unsubscribes during the emit changes the live `for … of` iteration in the source, which this model does not capture.
- Requests.JsonText: `JSON.stringify` of a function gives undefined, not a text, so `this.message` becomes undefined for a function `errors`. The model writes "null" there.
