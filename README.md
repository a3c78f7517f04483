# lens-shmens, modelled in Dafny

A model of the lens engine of `lens-shmens` (`src/index.ts`): the `Lens`
primitive with its error-wrapping get and set, `modify`, composition with
`then` and its optional short-circuit, the path labels behind `toString`,
the four factories (`prop`, `index`, `find`, `findBy`), the `pi` optional and
fallback construction, and the recordings built by `buildLensRecording` and
`buildLensModifyRecording`, including `prepend`.

Layout:

- `wrappers.dfy` — `Option` and `Result`.
- `values.dfy` — run-time values (`undefined`, `null`, primitives, plain
  objects, arrays) and the JavaScript behaviour the lenses rely on: property
  reads that throw on null and undefined, object spread, `map`, `filter`,
  string coercion and `join`.
- `lenses.dfy` — a lens as a tree (`Identity`, `Prop`, `Fallback`, `Index`,
  `Find`, `FindBy`, `Composite`); `Get`, `Set` and `Modify` interpret it,
  each factory's getter and setter closure becoming one case. A failure
  carries the operation (`get` or `set`), the innermost cause and, for
  `set`, the value being written, as the constructor's try/catch builds it.
  The `findBy` setter's search loops are the method `LocateMatch`.
- `factory_laws.dfy` — what each factory and `pi` read and write.
- `composition_laws.dfy` — `then`, the optional short-circuit, path labels,
  (non-)associativity, and when `modify` calls its transform.
- `recordings.dfy` — the recording object as a class whose one mutable field
  is the `value.v` cell, with `Apply` and `Prepend` proved against `Set`,
  `Modify` and `Then`.

A lens is a tree rather than a list of steps because `then` consults only
the outer lens's optional flag: regrouping a chain that starts with an
optional lens changes what it reads (`ThenNotAssociativeWhenOuterOptional`),
so `a.then(b).then(c)` and `a.then(b.then(c))`, which `prepend` produces,
are kept apart.

Where the documented behaviour and the code disagree, the model follows the
code:

- `modify` on an optional lens returns the root whenever the value it reads
  is null or undefined, leaf included. The tests at
  `test/pi.test.ts:86-95` and `test/pi.test.ts:190-202` expect the transform
  to be called with `undefined`; `ModifyOptionalLeafAbsent` and
  `ModifyOptionalChainLeafAbsent` state what the code does on those inputs.
- `pi("a").set(obj, x)` on its own writes the field like `p("a")`; the
  optional flag only matters to `modify` and to a later `then`
  (`PiOptional`).
- `then` is associative for `get` only when the first lens is not optional,
  and for `set` only when neither of the first two lenses is optional
  (`ThenAssociativeGet`, `ThenAssociativeSet`); regrouping behind an optional
  first lens changes what `get` reads
  (`ThenNotAssociativeWhenOuterOptional`), and regrouping behind an optional
  middle lens changes what `set` writes
  (`ThenSetNotAssociativeWhenMiddleOptional`).
- The test at `test/pi.test.ts:323-329` expects the prepended recording to
  return the very object it was given. The outer `p("state")` setter always
  spreads a new object (`src/index.ts:489`, reached through
  `src/index.ts:614`), so the code returns an equal copy; `PrependSetNoOp`
  states that equality.
- Writing back what a lens read (`set(root, get(root))`) returns the root
  for the property lens on a present property (`PropGetPut`), for `index`
  (`IndexGetPut`), for `findBy` whenever its getter succeeds
  (`FindByGetPut`), and for a composite whose sides both keep it
  (`ThenGetPut`). Three lenses that are not optional break it: `find(cb)`
  with two distinct matches copies the first over the second
  (`FindGetPutBreaks`), `pi(key, fallback)` on an absent field writes the
  fallback into the root (`PiFallbackGetPutBreaks`), and the property lens
  on an absent field adds it bound to undefined (`PropGetPutAbsentField`).

## Model

| member | source | states |
|---|---|---|
| Values.Member | src/index.ts:483 | a property read `s[key]`; `MemberCases` proves it throws exactly on null and undefined, naming the key, and otherwise reads a field, a position, or undefined |
| Values.PropWrite | src/index.ts:484-490 | the property setter's copy; `PropSetObject` proves it rebinds exactly field `key`, `PropSetArray` that it changes at most the position the key names |
| Lenses.Get | src/index.ts:560-572 | `lens.get(obj)`: the getter under the try/catch; `FailureTags` proves every failure is tagged `get` without a value and `CatchKeepsRootCause` that only the innermost cause is kept |
| Lenses.Set | src/index.ts:573-586 | `lens.set(obj, v)`: the setter under the try/catch; `FailureTags` proves every failure is tagged `set` with `v` and `CatchKeepsRootCause` that only the innermost cause is kept |
| Lenses.Getter | src/index.ts:481-609 | the getter closures of `propKey`, `index`, `find`, `findBy`, `pi` with a fallback (`src/index.ts:180`) and `then`; `PropPutGet`, `IndexGet`, `FindGetFirst`, `FindByGetDefined`, `PiFallback`, `ThenGetOuterFails` and `ThenGetThrough` state each case |
| Lenses.Setter | src/index.ts:484-615 | the setter closures of the same lenses; `PropSetObject`, `IndexSet`, `IndexSetNonArray`, `FindSetAll`, `FindBySetAtMostOne`, `PiFallback` and the `ThenSet*` lemmas state each case |
| Lenses.Modify | src/index.ts:591-598 | `lens.modify(obj, f)`; `ModifyCases` proves it fails as `get` does, returns the root under the optional short-circuit and is otherwise `set(obj, f(get(obj)))`, and `ModifyIgnoresTransform` that a skipped transform does not matter |
| Lenses.Describe | src/index.ts:627-633 | `toString()`; `DescribeThen` proves `a.then(b)` extends `a`'s string by an arrow and `b`'s `to` label, `From` that the `from` labels are never empty |
| Lenses.Pi | src/index.ts:177-189 | the lens `pi(key, fallback?)` adds: optional exactly when no fallback is given, labelled `obj -> key`; `PiOptional` and `PiFallback` give its reads and writes |
| Lenses.IsOptional | src/index.ts:621-623 | the `_optional` flag; `Then` proves a composite is optional exactly when either side is, and `Pi` that `pi` sets it exactly without a fallback |
| Lenses.FilterBy | src/index.ts:530-532 | the findBy getter's `filter`; `FilterByTotal` proves it fails exactly on a null or undefined element and otherwise keeps exactly the hits |
| Lenses.Locate | src/index.ts:536-551 | the findBy setter's search result; `LocateFromFinds`, `LocateBeforeFinds`, `LocateFromSound` and `LocateBeforeSound` prove it is the first (last when reversed) hit, and -1 only when no element is a hit, whatever the elements; it fails only on a null or undefined element the loop reaches |
| FactoryLaws.FindByNullishTargets | src/index.ts:528-551 | `===` compares undefined and null by value: `findBy(key, undefined)` reads and writes an element without the field, `findBy(key, null)` one whose field holds null |
| CompositionLaws.ThenSetNotAssociativeWhenMiddleOptional | src/index.ts:610-615 | with a non-optional first lens and an optional middle lens the two groupings write differently: the left one returns the root, the right one rewrites every `find` match |
| Recordings.GetterValues | src/index.ts:390-394 | the memo the auxiliary getters' reduce builds: one value per getter name, each the successful read of that getter |
| Values.MemberCases | src/index.ts:483 | `s[key]` throws exactly on null and undefined, naming the key; reads an object's field or undefined, an array's position or undefined, and undefined from primitives and from arrays by name |
| Values.ReplaceAt | src/index.ts:505 | the positional `map` keeps the length, puts `v` at the index when it is in range, keeps every other element, and changes nothing out of range |
| Values.FirstIndexIsFirst | src/index.ts:514 | the first-match position is a match with no match before it, or -1 exactly when nothing matches |
| Values.LastIndexIsLast | src/index.ts:530 | the last-match position is a match with no match after it, or -1 exactly when nothing matches |
| Values.FilterEnds | src/index.ts:514 | `filter` is empty exactly when nothing matches; its first and last elements are the first and last matches |
| Lenses.CatchKeepsRootCause | src/index.ts:560-586 | a cause thrown by a raw getter or setter is tagged with the operation and value; re-thrown through an enclosing lens it is unwrapped, so it keeps the original cause and takes only the outer operation and value |
| Lenses.FailureTags | src/index.ts:565-584 | a failed `get` is tagged `get` with no value; a failed `set` is tagged `set` with the value being written |
| Lenses.From | src/index.ts:587 | the `from` labels are never empty |
| Lenses.Then | src/index.ts:600-625 | the composite is optional exactly when either side is, its `from` is the outer's `from` plus the outer's `to`, its `to` is the inner's |
| Lenses.LocateMatch | src/index.ts:535-551 | the findBy setter's forward or reverse search loop computes the search result `Locate`, stopping at the first hit and failing on a null element it reaches |
| FactoryLaws.PropSetObject | src/index.ts:484-490 | on an object the property setter returns a copy with exactly field `key` rebound |
| FactoryLaws.PropSetArray | src/index.ts:485-487 | on an array the property setter keeps the length and changes at most the position named by the key |
| FactoryLaws.PropPutGet | src/index.ts:481-494 | reading a property after writing it gives the written value (objects, and arrays at an in-range position) |
| FactoryLaws.PropGetPut | src/index.ts:481-494 | writing back the value just read returns an equal root when the property is present |
| FactoryLaws.PropGetPutAbsentField | src/index.ts:483-489 | writing back an absent field's undefined adds the field, so the root changes |
| FactoryLaws.IndexGet | src/index.ts:504 | the index getter reads the element or undefined out of range |
| FactoryLaws.IndexSet | src/index.ts:505 | the index setter keeps the length, replaces at most position `n`, nothing out of range |
| FactoryLaws.IndexGetPut | src/index.ts:504-505 | writing back what the index getter read returns an equal array, for every position |
| FactoryLaws.IndexSetNonArray | src/index.ts:505 | the index setter on a non-array fails calling `map` (reading `map` of null or undefined, or `map` not a function) |
| FactoryLaws.FindGetFirst | src/index.ts:514 | the find getter returns the first element satisfying the predicate, undefined when none does |
| FactoryLaws.FindSetAll | src/index.ts:515 | the find setter replaces every satisfying element and keeps the others |
| FactoryLaws.FindFirstVersusAll | src/index.ts:514-515 | with two distinct matches, get returns the first while set rewrites both |
| FactoryLaws.FindGetPutBreaks | src/index.ts:514-515 | with two distinct matches, writing back what get read copies the first match over the second, so the array changes |
| FactoryLaws.FilterByTotal | src/index.ts:530-532 | the findBy getter's filter succeeds exactly when no element is null or undefined, and then keeps exactly the hits |
| FactoryLaws.LocateFromFinds | src/index.ts:545-550 | over elements that are not null, the forward loop returns the first hit at or after its start, or -1 |
| FactoryLaws.LocateBeforeFinds | src/index.ts:538-543 | over elements that are not null, the reverse loop returns the last hit below its start, or -1 |
| FactoryLaws.LocateFromSound | src/index.ts:545-550 | whenever the forward loop succeeds, its result is a hit with no hit before it, or -1 with no element from the start on null, undefined or a hit |
| FactoryLaws.LocateBeforeSound | src/index.ts:538-543 | whenever the reverse loop succeeds, its result is a hit with no hit after it, or -1 with no element below the start null, undefined or a hit |
| FactoryLaws.FindBySetAtMostOne | src/index.ts:535-552 | a successful findBy set replaces at most one element, the located one, which is a hit; it replaces nothing only when no element is a hit |
| FactoryLaws.FindByGetDefined | src/index.ts:528-534 | the findBy getter succeeds exactly when no element is null or undefined |
| FactoryLaws.FindByGetPut | src/index.ts:528-553 | whenever the findBy getter succeeds, writing back what it read returns an equal array |
| FactoryLaws.FindByGetSetAgree | src/index.ts:526-555 | when the getter succeeds, getter and setter pick the same element: the first hit, or the last when reversed; set replaces exactly that one |
| FactoryLaws.FindByGetStricterThanSet | src/index.ts:530-546 | on `[{k: 1}, null]` the getter throws reading `k` of null while the setter succeeds, stopping at the hit |
| FactoryLaws.PiOptional | src/index.ts:177-188 | `pi(key)` without fallback is optional and otherwise reads, writes and labels like `p(key)` |
| FactoryLaws.PiFallback | src/index.ts:177-185 | `pi(key, fallback)` is not optional, reads the fallback in place of null or undefined, writes like `p(key)` and keeps its labels |
| FactoryLaws.PiFallbackSetsCopy | test/pi.test.ts:230-236 | setting below a fallback whose field is absent writes the fallback with that field set |
| FactoryLaws.PiFallbackGetPutBreaks | src/index.ts:180-182 | on an absent field `pi(key, fallback)` reads the fallback, and writing it back adds the field bound to the fallback, so the root changes |
| CompositionLaws.ThenGetOuterFails | src/index.ts:605-606 | a composite read whose outer read fails reports the outer failure |
| CompositionLaws.ThenGetThrough | src/index.ts:605-609 | unless the short-circuit applies, a composite read is the inner read of the outer result |
| CompositionLaws.ThenSetOuterFails | src/index.ts:610-611 | a composite write whose outer read fails is a set failure with the outer cause and the written value |
| CompositionLaws.ThenSetInnerFails | src/index.ts:610-613 | a composite write whose inner write fails reports that failure unchanged |
| CompositionLaws.ThenSetThrough | src/index.ts:610-614 | a composite write is `a.set(obj, b.set(a.get(obj), v))` when both writes succeed |
| CompositionLaws.ThenSetOuterWriteFails | src/index.ts:610-614 | a composite write whose outer write fails reports that cause with the value `v`, not the new parent |
| CompositionLaws.OptionalShortCircuit | test/pi.test.ts:35-40 | behind an optional outer lens whose value is absent a composite reads undefined, writes nothing, and `modify` never runs its transform |
| CompositionLaws.ThenPutGet | src/index.ts:605-615 | put-get holds for a composite when it holds for each side |
| CompositionLaws.ThenGetPut | src/index.ts:605-615 | get-put holds for a composite when it holds for each side: writing back what it read returns the root |
| CompositionLaws.DescribeThen | src/index.ts:617-633 | `a.then(b).toString()` is `a.toString()` followed by an arrow and `b`'s `to` label |
| CompositionLaws.ThenAssociativeGet | src/index.ts:605-609 | regrouping a chain does not change `get` when the first lens is not optional |
| CompositionLaws.ThenAssociativeSet | src/index.ts:610-615 | regrouping a chain does not change `set` when neither of the first two lenses is optional |
| CompositionLaws.ThenNotAssociativeWhenOuterOptional | src/index.ts:601-608 | with an optional first lens the two groupings read differently: undefined against a get failure reading `c` of undefined |
| CompositionLaws.ThenRegroupedPathsDiffer | src/index.ts:617-618 | the two groupings always have different `from` labels |
| CompositionLaws.ModifyCases | src/index.ts:591-598 | `modify` fails as `get` does, returns the root under the optional short-circuit, and is otherwise `set(obj, f(get(obj)))` |
| CompositionLaws.ModifyIgnoresTransform | src/index.ts:592-594 | when the short-circuit applies the result does not depend on the transform |
| CompositionLaws.ModifyOptionalLeafAbsent | test/pi.test.ts:86-95 | `pi("count")` with `count` undefined: `modify` returns the root without calling the transform |
| CompositionLaws.ModifyOptionalChainLeafAbsent | test/pi.test.ts:190-202 | `p("a").pi("b").p("c")` on `{a: {b: {}}}` is optional, reads undefined, and `modify` returns the root |
| Recordings.EvalGetters | src/index.ts:390-394 | the auxiliary getters' reduce succeeds exactly when every getter does, then yields every getter's value by name; otherwise it fails with some getter's failure |
| Recordings.RerootGetters | src/index.ts:429-433 | the prepend reduce keeps the getter names and rebuilds each getter as `outer.then(getter)` |
| Recordings.Recording.Record | src/index.ts:439-463 | a set-recording holds the lens, the literal, the name, the description `path = value`, and the literal in its cell |
| Recordings.Recording.RecordModify | src/index.ts:381-423 | a modify-recording holds the lens, transform, getters and name, the description ``path = `modify` ``, and an undefined cell |
| Recordings.Recording.Apply | src/index.ts:389-400 | applying a set-recording is `lens.set(obj, value)`; a modify-recording fails with a getter's failure when one fails, and is otherwise `lens.modify` with the transform fed the getters' values; the cell changes exactly when the transform runs, to its result |
| Recordings.Recording.Prepend | src/index.ts:424-435 | prepending builds a fresh recording of the same kind and name over `outer.then(lens)`, with every getter rebuilt under `outer`, the description of the composed lens (`path = value` or ``path = `modify` ``), and a reset cell |
| Recordings.PrependSetNoOp | test/pi.test.ts:323-329 | a recording whose set leaves a field's value as it is, prepended under that field, leaves the root as it is |
| Recordings.PrependModifySkips | test/pi.test.ts:331-341 | a prepended recording over an optional lens is optional, and its `modify` skips the transform when the inner value is absent |

## Left out

- Logging (`log`, `src/index.ts:405-415` and `src/index.ts:452-457`) writes to the console; it is output only and not modelled.
- The builder classes (`LensBuilder`, `LensBuilderWithObject`, `lb`, `lf`) and the type-level machinery are left out except for what they construct: chained `p`, `i`, `find`, `findBy`, `pi` and `then` calls are written directly as lens trees. Only the chained `i`, `find` and `findBy` build index, find and findBy lenses. The first step of a builder (`src/index.ts:104-137`, `src/index.ts:231-264`) calls the property factory it is given (`src/index.ts:474`, `src/index.ts:478`) with every argument, so `lb().i(n)` builds the property lens `Prop(Pos(n), false)`, and `lb<T[]>().find(cb)` and `lb<T[]>().findBy(key, value)` build a property lens keyed by the callback or by `key`, ignoring the rest; a property key that is a function is not modelled (a `Key` is a name or a number).
- Error message text is not modelled: a failure keeps its operation, innermost cause and set value, not the message string, and not the `lens` reference it carries.
- `_optional` is assigned after construction in the source; the model sets it when the lens value is built, which is the only time the source assigns it.
- Numbers are integers; floating point, `NaN` and string-to-number coercion are not modelled.
- User callbacks (`find` predicates, `modify` transforms) are total functions: a callback that throws is not modelled.
- Reference identity is not modelled: values are immutable and compared by equality, so "returns the same object" becomes "returns an equal value", and immutability of the input holds by construction.
- Property reads on primitives give undefined, and a field name read on an array gives undefined: string characters and `length`, `length` and canonical index strings of arrays, and prototype members are not modelled.
- `FindBy`: a target that is an object or an array is not modelled, because `===` compares those by reference; targets are undefined, null or primitives, which `===` compares by value.
- Spreading a value that is not a plain object gives no fields (string spread is not modelled); the findBy setter on an array-like object is not modelled.
- `EvalGetters`: the order in which `ObjectUtils.keys` visits getters is not modelled, so when several getters fail the model only promises the failure of one of them.
- Concurrent `apply` calls on one recording are not modelled; the source runs single-threaded.
