# ICS node normalisation, modelled in Dafny

The ICS node of this n8n community package parses raw iCalendar text with
`node-ical` and reshapes the parser's object graph into a list of event records.
For each top-level entry, the reshaping does three things:

- It moves every direct property whose value is a `VALARM`-typed object into an
  `alarms` list, stamping each alarm with its property key as `id`.
- It stamps the entry itself with its top-level key as `id`.
- It keeps the entry only when its `type` is `VEVENT`.

This project models that reshaping and proves its properties. The reshaping is
`nodes/ICS/IcsNode.node.ts` lines 55-70.

The files are:

- `js_objects.dfy` (module `JsObjects`) models the JavaScript values the parser
  produces. A plain object is an ordered list of `(key, value)` pairs, so the
  order that `Object.keys` and the spread operator see is the list order. The
  module also models the three object operations the code uses:
  - a property read (`Lookup`),
  - the object literal `{ ...o, k: v }` (`Set`: an existing key keeps its
    position, a new key comes last),
  - `delete o[k]` (`Delete`).

  The values also include `undefined` (an own property holding it) and
  `Opaque`: a class instance the parser builds, such as a `Date` or the `rrule`
  helper, seen only through the string it converts to. `==` against an
  upper-case tag literal is `LooseEqualsTag`. `ToStr` is `String(v)`.
  `LooseEqualsTagExact` proves that, against a non-empty upper-case tag,
  `v == tag` holds exactly when `String(v) == tag`. That is not JavaScript's rule
  in general: a number or boolean is compared with a string numerically, and
  `null` or `undefined` equals no string. Against such a tag the outcomes still
  coincide, since neither side can be true.
- `seqs.dfy` (module `Seqs`) has the order-preserving `map` and `filter` that
  the pipeline goes through, with their algebra:
  - `filter` distributes over concatenation,
  - counting,
  - `filter` commutes with `map`,
  - `filter` keeps distinct keys distinct.
- `ics_normalize.dfy` (module `IcsNormalize`) holds the normaliser itself:
  - The `forEach`/`delete` scan over one entry is an imperative method,
    `ExtractAlarms`, with a loop over `Object.keys`. It reads from the object as
    it is being mutated. It is proved to return exactly the pure `Alarms` and
    `Kept` of the entry.
  - The record assembly is `NormalizeEntry`.
  - The whole `map`/`filter` pipeline is `Normalize`.
- `ics_properties.dfy` (module `IcsProperties`) holds the properties of single
  alarms, single records and the whole output.
- `ics_scenarios.dfy` (module `IcsScenarios`) holds worked calendars:
  - `OneEntry` and `TwoEntries` reduce a one- or two-entry graph to what each
    entry contributes, for every entry.
  - The concrete calendars (`PlainEvent`, `EventWithAlarm`, `TimezoneDropped`,
    `MixedCalendar`, `ExistingIdOverwritten`, `ArrayTagSelects`,
    `DatesAndUndefinedPassThrough`) are each proved to normalise to an exact
    output.
  - `NestedAlarmStays` is about the alarms collected from one entry (`Alarms`),
    not the whole output.

`Graph` is the parser's result: an ordered list of top-level keys, each with its
entry object. `WellFormed(graph)` says that every entry has distinct property
keys, which every JavaScript object does.

## Model

| member | source | states |
|---|---|---|
| JsObjects.Keys | nodes/ICS/IcsNode.node.ts:55-59 | `Object.keys`: the property keys in the object's order (about it: `SetKeys`, `KeysCons`) |
| JsObjects.Lookup | nodes/ICS/IcsNode.node.ts:61 | a property read: the first binding of the key, or `undefined` (about it: `LookupFinds`, `LookupAt`, `LookupAppend`) |
| JsObjects.Delete | nodes/ICS/IcsNode.node.ts:65 | `delete o[k]`: the object without its binding of `k` (about it: `DeleteLookup`, `DeleteAppend`) |
| JsObjects.NatStr | nodes/ICS/IcsNode.node.ts:61 | the decimal spelling of a natural number is non-empty and all digits, so a number never converts to a tag |
| JsObjects.ToStr | nodes/ICS/IcsNode.node.ts:61 | `String(v)` for every modelled value; against an upper-case tag, `==` is proved to agree with comparing this string (about it: `LooseEqualsTagExact`) |
| JsObjects.LooseEqualsTag | nodes/ICS/IcsNode.node.ts:61 | `v == tag` for a tag literal: a string by content, a one-element array by its element, a class instance by its string form, nothing else (about it: `LooseEqualsTagExact`) |
| JsObjects.LooseEqualsTagExact | nodes/ICS/IcsNode.node.ts:61 | for every value and every upper-case tag, `LooseEqualsTag` holds exactly when the value's string conversion equals the tag |
| JsObjects.LookupFinds | nodes/ICS/IcsNode.node.ts:61 | a property read that finds something finds a binding present in the object; it is `undefined` exactly when no property has that key |
| JsObjects.LookupAt | nodes/ICS/IcsNode.node.ts:59-61 | in an object with distinct keys, reading the i-th key of `Object.keys` gives the i-th property's value |
| JsObjects.Set | nodes/ICS/IcsNode.node.ts:68 | `{ ...o, k: v }` reads `v` at `k` and reads every other key exactly as `o` did |
| JsObjects.SetAbsent | nodes/ICS/IcsNode.node.ts:68 | a key the object lacks is appended after all existing properties |
| JsObjects.SetPresent | nodes/ICS/IcsNode.node.ts:68 | a key the object has is rebound at its existing position; nothing else moves |
| JsObjects.SetKeys | nodes/ICS/IcsNode.node.ts:68 | the keys of `{ ...o, k: v }` are the keys of `o`, plus `k` at the end when it was new |
| JsObjects.SetFields | nodes/ICS/IcsNode.node.ts:63 | every property of `{ ...o, k: v }` is a property of `o` or the new binding |
| JsObjects.DeleteLookup | nodes/ICS/IcsNode.node.ts:65 | after `delete o[k]`, `k` reads `undefined` (keys distinct), every other key reads as before, and no property is added |
| JsObjects.LookupAppend | nodes/ICS/IcsNode.node.ts:61 | a read on a split object finds the first part's binding before the second's |
| JsObjects.DeleteAppend | nodes/ICS/IcsNode.node.ts:65 | deleting a key the first part lacks leaves the first part untouched |
| Seqs.Map | nodes/ICS/IcsNode.node.ts:55-56 | `map` gives one result per top-level key, the i-th result being the callback on the i-th key |
| Seqs.Filter | nodes/ICS/IcsNode.node.ts:70 | `filter` keeps exactly the elements that pass, and never lengthens the list |
| Seqs.MapAppend | nodes/ICS/IcsNode.node.ts:56 | `map` distributes over concatenation |
| Seqs.FilterAppend | nodes/ICS/IcsNode.node.ts:70 | `filter` distributes over concatenation, so relative order is kept |
| Seqs.FilterCount | nodes/ICS/IcsNode.node.ts:70 | the filtered length is the number of positions that pass |
| Seqs.FilterAll | nodes/ICS/IcsNode.node.ts:70 | filtering a list whose every element passes returns it unchanged |
| Seqs.FilterMapCommute | nodes/ICS/IcsNode.node.ts:55-70 | filtering the mapped list equals mapping the filtered list when the two predicates agree on each element |
| Seqs.FilterKeepsDistinct | nodes/ICS/IcsNode.node.ts:70 | a key that is distinct across the list stays distinct across the filtered list |
| IcsNormalize.HasType | nodes/ICS/IcsNode.node.ts:61 | `o?.type == tag`: an absent `type` never matches (about it: `TypeTestsCompareStrings`) |
| IcsNormalize.IsAlarm | nodes/ICS/IcsNode.node.ts:61 | `obj?.[k]?.type == 'VALARM'`: only a plain object can carry the tag; a string, array, class instance, `null` or `undefined` field is not an alarm (about it: `TypeTestsCompareStrings`, `AlarmsProvenance`) |
| IcsNormalize.IsEvent | nodes/ICS/IcsNode.node.ts:70 | `obj?.type == 'VEVENT'` on a record (about it: `TypeTestsCompareStrings`, `EventTypeUnchanged`) |
| IcsNormalize.TypeTestsCompareStrings | nodes/ICS/IcsNode.node.ts:61-70 | both type tests hold exactly when `type` is present and converts to the string `VEVENT`, respectively `VALARM` |
| IcsNormalize.Alarms | nodes/ICS/IcsNode.node.ts:58-64 | the `alarms` list the scan builds (about it: `ExtractAlarms`, `AlarmsProvenance`, `AlarmsComplete`, `AlarmsCount`) |
| IcsNormalize.AlarmRecord | nodes/ICS/IcsNode.node.ts:63 | the pushed alarm is an object whose `id` is the field key and whose other properties read as in the sub-object |
| IcsNormalize.Kept | nodes/ICS/IcsNode.node.ts:59-67 | the entry after the scan holds exactly its properties that are not alarms |
| IcsNormalize.ExtractAlarms | nodes/ICS/IcsNode.node.ts:58-67 | the `forEach` over `Object.keys(obj)` with `push` and `delete` returns exactly `Alarms(entry)`, and it leaves exactly `Kept(entry)` |
| IcsNormalize.ScanStep | nodes/ICS/IcsNode.node.ts:60-66 | in iteration i, the key still reads its original value, and handling it advances the scan state by one field |
| IcsNormalize.AlarmsAppend | nodes/ICS/IcsNode.node.ts:59-64 | alarms are collected in field order: collecting from a split entry concatenates the two parts' alarms |
| IcsNormalize.NormalizeEntry | nodes/ICS/IcsNode.node.ts:68 | the record's `id` is the entry's key and its `alarms` is the list of its alarms, whatever the entry held under those names; `alarms` is never absent |
| IcsNormalize.NormalizeKeyed | nodes/ICS/IcsNode.node.ts:56-69 | the `map` callback: one entry's record (about it: `EntryContributionIsLocal`, `EventTypeUnchanged`) |
| IcsNormalize.Normalize | nodes/ICS/IcsNode.node.ts:55-70 | every output record has `type` VEVENT, and there are no more records than top-level entries |
| IcsProperties.AlarmsProvenance | nodes/ICS/IcsNode.node.ts:61-63 | every collected alarm is the stamped copy of some direct VALARM-typed field of the entry |
| IcsProperties.AlarmsComplete | nodes/ICS/IcsNode.node.ts:59-63 | every direct VALARM-typed field of the entry yields its stamped copy in `alarms` |
| IcsProperties.AlarmsAreStampedAlarms | nodes/ICS/IcsNode.node.ts:61-63 | every collected alarm is itself of type VALARM; its `id` is its field key; every other property, nested alarms included, reads as in the sub-object |
| IcsProperties.AlarmsLength | nodes/ICS/IcsNode.node.ts:59-64 | there are as many alarms as alarm fields in the filtered sense |
| IcsProperties.AlarmsCount | nodes/ICS/IcsNode.node.ts:59-64 | the number of alarms equals the number of direct fields holding a VALARM-typed object |
| IcsProperties.NoAlarmFieldsNoAlarms | nodes/ICS/IcsNode.node.ts:58-68 | `alarms` is the empty list exactly when no direct field is an alarm |
| IcsProperties.KeptLookup | nodes/ICS/IcsNode.node.ts:65 | after the scan, an alarm-valued key reads `undefined` and every other key reads as before |
| IcsProperties.EventKeepsFields | nodes/ICS/IcsNode.node.ts:68 | apart from `id` and `alarms`, the record reads every key as the entry did, except that alarm fields are gone |
| IcsProperties.EventHasNoAlarmFields | nodes/ICS/IcsNode.node.ts:59-68 | no property left on the record holds a VALARM-typed object |
| IcsProperties.EventKeys | nodes/ICS/IcsNode.node.ts:68 | the record's keys are the kept keys in order, then `id` and `alarms` unless already present, in which case they keep their place |
| IcsProperties.EventTypeUnchanged | nodes/ICS/IcsNode.node.ts:68-70 | a record is a VEVENT exactly when its input entry was one |
| IcsProperties.NormalizeSelectsEvents | nodes/ICS/IcsNode.node.ts:55-70 | the output is the records of exactly the VEVENT-typed entries, each once, in input order |
| IcsProperties.NormalizeCount | nodes/ICS/IcsNode.node.ts:55-70 | the output length equals the number of VEVENT-typed top-level entries |
| IcsProperties.NormalizeIds | nodes/ICS/IcsNode.node.ts:68-70 | the i-th record has the i-th VEVENT entry's key as `id` and that entry's alarms as `alarms` |
| IcsProperties.NormalizeIdsDistinct | nodes/ICS/IcsNode.node.ts:55-70 | with distinct top-level keys, no two output records share an `id` |
| IcsProperties.EntryContributionIsLocal | nodes/ICS/IcsNode.node.ts:56-69 | what an entry contributes depends only on its key and its own fields, wherever it stands in the graph |
| IcsProperties.PlainEventsKeepEverything | nodes/ICS/IcsNode.node.ts:55-70 | a graph of events without alarm fields gives one record per entry, in order, each with its key as `id` and `alarms` empty |
| IcsScenarios.OneEntry | nodes/ICS/IcsNode.node.ts:55-70 | a one-entry graph outputs that entry's record if it is an event, else nothing |
| IcsScenarios.TwoEntries | nodes/ICS/IcsNode.node.ts:55-70 | a two-entry graph outputs the two contributions in order |
| IcsScenarios.PlainEvent | nodes/ICS/IcsNode.node.ts:55-70 | `{k1: {type: VEVENT, summary: Meeting}}` gives `[{type, summary, id: k1, alarms: []}]` |
| IcsScenarios.EventWithAlarm | nodes/ICS/IcsNode.node.ts:55-70 | adding a field `a1: {type: VALARM, action: DISPLAY}` moves it into `alarms` as `{type, action, id: a1}` |
| IcsScenarios.TimezoneDropped | nodes/ICS/IcsNode.node.ts:70 | a VTIMEZONE entry gives the empty output |
| IcsScenarios.MixedCalendar | nodes/ICS/IcsNode.node.ts:55-70 | a time zone followed by the one-alarm event gives exactly `[{type, summary, id: k1, alarms: [{type, action, id: a1}]}]` |
| IcsScenarios.ExistingIdOverwritten | nodes/ICS/IcsNode.node.ts:68 | a parser-supplied `id` and `alarms` are overwritten where they stand |
| IcsScenarios.ArrayTagSelects | nodes/ICS/IcsNode.node.ts:70 | `{ev3: {type: [VEVENT]}}` gives `[{type: [VEVENT], id: ev3, alarms: []}]`: a one-element array holding the tag is loosely equal to it |
| IcsScenarios.DatesAndUndefinedPassThrough | nodes/ICS/IcsNode.node.ts:55-70 | an event with a `Date` property and an `undefined` property keeps both unchanged, gains `id` and an empty `alarms` |
| IcsScenarios.NestedAlarmStays | nodes/ICS/IcsNode.node.ts:59-63 | an alarm nested inside an alarm field stays inside its parent; it is not extracted |

## Left out

- Parsing: `ICAL.async.parseICS` (line 54) is a call into `node-ical`. The model starts from its result, the `Graph`. Values the library builds, such as `Date` objects and the `rrule` helper, are modelled only as `Opaque`, by the string they convert to; their methods and internal state are not modelled. They have no own `type`, so they are never selected or extracted.
- The `execute` loop over input items and `getNodeParameter` (lines 40-52). Also left out: storing the result under `item.json['ics']` (line 55), `prepareOutputData`, and the error path (lines 71-88) with `continueOnFail` and `NodeOperationError`. These are host plumbing. In continue-on-fail mode the code appends a new item to the list it is iterating over (line 75). It does not mark the failed item in place.
- The node's `description` object (lines 11-34) and `credentials/ICSNodeApi.credentials.ts`. These are static metadata.
- Property order: JavaScript lists integer-like keys first, in ascending order. The model takes keys in the order the parser's object lists them, and it does not reorder integer-like keys.
- Numbers: numbers are modelled as `int`. Floating point is not modelled. Numbers never equal a tag, so this cannot change a result.
- Mutation in place: the source deletes alarm properties from the parser's own object. `ExtractAlarms` mutates a local copy, and the rest of the model works on values. The parser's result is fresh and is not read again after normalisation, so no aliasing is observable.
- Entries that are not objects: a top-level value that is a string, an array or `null` is not modelled. For a string or an array, `Object.keys` would enumerate indices; for `null`, it would throw. A `Graph` holds only objects.
- LooseEqualsTag: models JavaScript `==` only against non-empty upper-case tags such as `VEVENT` and `VALARM`, the only literals the code compares with; `LooseEqualsTagExact` proves it exact for those tags only. It is not general loose equality, and `ToStr` spells numbers as integers only.
- Getters, prototype properties and symbol keys: the model reads own enumerable string-keyed properties only.
