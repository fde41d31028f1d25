# culturegr/presenter, modelled in Dafny

This is a package for Laravel. A *presenter* wraps one Eloquent model and decides what the
model shows of itself in an API response. The model here covers three parts of the package:

- **The presentation engine** (`src/Presenter.php`). `make` wraps one model. `collection`
  maps a keyed collection of models to presenters. `pagination` builds the
  `{data, links, meta}` envelope of a paginator. Each presenter also has a read-only
  array view of its `toArray()`, JSON views derived from `toArray()`, read-through access
  to the model's attributes, and `whenLoaded`.
- **The `presentCollection` collection macro** (`src/CollectionMacros.php`). It first rejects
  any class that is not a `Presenter` subclass. It then looks at the call stack. When a
  paginator forwarded the call through its `__call`, it returns `pagination($paginator)`;
  otherwise it returns `collection($this)`.
- **The `Presentable` trait** (`src/Presentable.php`). `present($class)` checks the class, then
  calls `$class::make($this)`.

Every operation is a pure function over value stand-ins:

- `Php`: PHP values and ordered arrays, `isset`, and the `(int)` cast. The cast handles
  strings: leading whitespace, a sign, the leading digits, and 64-bit saturation.
- `Laravel`: the Eloquent model (attributes, loaded relations, declared relations), keyed
  collections, the paginator's accessors, the objects a stack frame can hold, and the
  application's class table.
- The program's presenter classes give their own `toArray()` as a function
  `Program.render`.
- The stack trace is an explicit sequence of frames.

Each core file has its own module: `Presenters`, `CollectionMacros` and `Presentable`.
`Scenarios` holds the concrete values the repository's tests expect.

Two behaviours of the code are easy to miss:

- A key whose value is null is reported as undefined by `offsetGet`, the same as a missing
  key. This is because `offsetExists` uses `isset`.
- Only `present` and `presentCollection` check the presenter class. The static factories do
  not check it. Calling them on an abstract subclass raises PHP's "Cannot instantiate
  abstract class" error. The model keeps this error: `collection` of an empty collection
  still succeeds, because the closure never runs.

Two observations follow from the code as written:

- Every macro call runs under `Macroable::__call`, so frame 1 is always `__call`. That
  leaves frame 2's object as the only deciding input. `CollectionMacros.CallerObjectDecides`
  states this.
- On the paginator path, the collection the macro ran on is ignored.

## Model

| member | source | states |
|---|---|---|
| `Php.Lookup` | src/Presenter.php:163 | reading `$a[$k]` finds a value exactly when some entry has key k, and the value found is stored under k |
| `Php.LookupStored` | src/Presenter.php:163 | in an array without repeated keys, looking up a stored key returns the value stored with it |
| `Php.Isset` | src/Presenter.php:147 | `isset($a[$k])` holds iff some entry has key k and a non-null value |
| `Php.IntCastOfDecimalString` | src/Presenter.php:80-86 | the `(int)` cast reads back every 64-bit integer written as a decimal string, negatives included |
| `Php.StringToInt` | src/Presenter.php:80-86 | only a minus sign after the leading whitespace gives a negative result, and a string with no digit after the whitespace and the optional sign gives 0; the value read is fixed by the lemmas in the next rows |
| `Php.StringToIntIgnoresLeadingSpace` | src/Presenter.php:80-86 | any run of leading whitespace (space, tab, newline, carriage return, vertical tab, form feed) leaves the cast unchanged |
| `Php.StringToIntOfLeadingDigits` | src/Presenter.php:80-86 | a string that starts with a run of digits casts to the value of that run, saturated at the 64-bit bounds, whatever non-digit text follows |
| `Php.StringToIntOfPlusDigits` | src/Presenter.php:80-86 | a plus sign before the run of digits gives the same value |
| `Php.StringToIntOfMinusDigits` | src/Presenter.php:80-86 | a minus sign before the run of digits gives its negation, saturated at the 64-bit bounds |
| `Php.StringToIntOfLeadingNumber` | src/Presenter.php:80-86 | every 64-bit integer written in decimal and followed by text that does not start with a digit casts back to that integer |
| `Php.IntCast` | src/Presenter.php:80-86 | `(int)` keeps integers, sends null to 0, a bool to 1 exactly when it is true, and an array to 0 exactly when it is empty; a string is cast by `StringToInt`, whose value the lemmas above fix |
| `Php.IntCastBasics` | src/Presenter.php:80-86 | `(int)` leaves integers unchanged and sends null, false and the empty array to 0, true to 1 |
| `Laravel.GetAttribute` | src/Presenter.php:99 | the Eloquent read `$model->$name`: an attribute wins; otherwise a loaded relation is returned; a declared relation not yet loaded is loaded by the read, and the value the relation method gives is both stored and returned (the only change to the model); otherwise null |
| `Presenters.ToArray` | src/Presenter.php:33 | the presenter class's own `toArray()` of the wrapped model; as it is abstract it has no contract itself, and `Presenters.JsonViewsAgree` and `Presenters.OffsetWritesChangeNothing` state what the package builds on it |
| `Presenters.Make` | src/Presenter.php:41-44 | `make(m)` succeeds iff the calling class can be instantiated; the presenter's class is the calling class and its model is exactly `m`; an abstract class raises the "Cannot instantiate abstract class" error |
| `Presenters.Collection` | src/Presenter.php:52-57 | same length as the input; entry i keeps the input's key i and wraps model i in a presenter of the calling class; fails exactly when the class is abstract and the input is non-empty |
| `Presenters.CollectionToArray` | tests/PresenterTest.php:173-180 | serialising presented items keeps length and keys, and entry i is presenter i's `toArray()` |
| `Presenters.Pagination` | src/Presenter.php:69-89 | the envelope's data is `collection(items())`; the links are `url(1)`, `url(lastPage())`, `previousPageUrl()` and `nextPageUrl()` exactly as returned; meta holds the `(int)` casts of the numeric accessors, with path passed through |
| `Presenters.EnvelopeToArray` | src/Presenter.php:71-88 | the envelope serialised as data, links and meta; its keys and values are stated by `Presenters.PaginationShape` |
| `Presenters.PaginationShape` | src/Presenter.php:71-88 | the serialised envelope has exactly the keys data, links, meta in that order; links are first/last/prev/next and meta is current_page, from, last_page, path, per_page, to, total, in that order, with their values |
| `Presenters.PaginationDataRendersItems` | src/Presenter.php:72 | serialised data has one entry per page item: the item's key with the presenter class's rendering of that model |
| `Presenters.EmptyPageMeta` | src/Presenter.php:81-85 | a page with no items and null first/last item gives empty data and from = to = 0 |
| `Presenters.OffsetExists` | src/Presenter.php:145-148 | `isset($p[$k])` holds iff `toArray()` has key k with a non-null value |
| `Presenters.OffsetGet` | src/Presenter.php:160-167 | the read succeeds iff `offsetExists`, returning the value `toArray()` stores under k; otherwise it raises `Exception("Undefined offset: k")` |
| `Presenters.OffsetGetOfStoredKey` | src/Presenter.php:145-167 | for every entry of `toArray()`, reading its key returns its value, or raises when that value is null |
| `Presenters.OffsetGetOfMissingKey` | src/Presenter.php:160-167 | a key absent from `toArray()` does not exist and its read raises the undefined-offset exception |
| `Presenters.OffsetSet` | src/Presenter.php:169-172 | writing an offset leaves the presenter's class and wrapped model as they were |
| `Presenters.OffsetUnset` | src/Presenter.php:174-177 | unsetting an offset leaves the presenter's class and wrapped model as they were |
| `Presenters.OffsetWritesChangeNothing` | src/Presenter.php:169-177 | after a write or an unset, `toArray()` and every offset read are unchanged |
| `Presenters.JsonSerialize` | src/Presenter.php:188-191 | the data `json_encode($p)` serialises is `toArray()`; stated by `Presenters.JsonViewsAgree` |
| `Presenters.ToJson` | src/Presenter.php:131-134 | `toJson($options)` encodes `toArray()` with the given options; stated by `Presenters.JsonViewsAgree` |
| `Presenters.ToString` | src/Presenter.php:120-123 | `(string)$p` is `toJson()` with the default options; stated by `Presenters.JsonViewsAgree` |
| `Presenters.JsonViewsAgree` | src/Presenter.php:131-134 | for every option value `toJson` encodes the `jsonSerialize()` data; `json_encode($p)`, `toJson()` and `(string)$p` agree; two presenters with equal `toArray()` encode the same |
| `Presenters.Get` | src/Presenter.php:97-100 | reading a property on the presenter is the same read on the wrapped model |
| `Presenters.WhenLoaded` | src/Presenter.php:199-206 | it never changes the model (no relation gets loaded); it returns null for an unloaded relation, and otherwise the model's value for that name |
| `Presenters.ReadThroughLoadsButWhenLoadedDoesNot` | src/Presenter.php:199-206 | reading a declared, unloaded relation loads it, while `whenLoaded` on the same name returns null and leaves the model alone |
| `Presenters.WhenLoadedReturnsLoadedRelation` | src/Presenter.php:204-205 | a loaded relation that no attribute shadows is returned as loaded |
| `CollectionMacros.Detect` | src/CollectionMacros.php:81-95 | `$isPaginator` is set iff there are at least 3 frames, frame 1's function is `__call`, and frame 2 carries a Paginator or LengthAwarePaginator; `$paginator` is then frame 2's object |
| `CollectionMacros.PresentCollection` | src/CollectionMacros.php:71-104 | a class that is not a Presenter subclass raises the InvalidArgumentException; otherwise the result is `pagination(frame 2's object)` when the guard holds and `collection($this)` when it does not |
| `CollectionMacros.InvalidClassRejectedBeforeDispatch` | src/CollectionMacros.php:73-77 | for an invalid class the outcome is the same exception for any collection and any stack |
| `CollectionMacros.ShortTraceIsDirect` | src/CollectionMacros.php:84-103 | a stack of fewer than three frames always takes the collection path |
| `CollectionMacros.ExactlyOneEntryPoint` | src/CollectionMacros.php:97-103 | for a valid, instantiable class the call succeeds, and it is paginated iff the guard holds |
| `CollectionMacros.NonPaginatorCallerIsDirect` | src/CollectionMacros.php:89-95 | an object reached via `__call` that is not a paginator gets the collection output |
| `CollectionMacros.CallerObjectDecides` | src/CollectionMacros.php:84-99 | with frame 1 at `__call` and a paginator in frame 2, the result depends only on that object, not on the receiving collection or on frame 2's function and class |
| `CollectionMacros.AbstractSubclassOnCollection` | src/Presenter.php:54-56 | an abstract presenter subclass passes the class check; on the collection path it gives an empty result for an empty collection and the instantiation error otherwise |
| `Presentable.Present` | src/Presentable.php:14-23 | a class that is not a Presenter subclass raises the InvalidArgumentException; otherwise the result is `c::make($this)` |
| `Presentable.PresentWrapsReceiver` | src/Presentable.php:22 | on a valid, instantiable class the result is a presenter of that class wrapping the receiving model itself |
| `Presentable.PresentFailures` | src/Presentable.php:16-22 | presenting fails iff the class is not an instantiable presenter subclass; the InvalidArgumentException comes exactly from the class check, before `make` |
| `Scenarios.FixtureUrls` | tests/PresenterTest.php:259-273 | with the model's stand-in URL function (the tests' mock sets no `url` expectation), the URLs for pages 1 and 100 are `http://example.com/pagination?page=1` and `?page=100` |
| `Scenarios.FixtureEnvelope` | tests/PresenterTest.php:259-292 | the mocked paginator's envelope has links {page 1 URL, page 100 URL, null, 2} and meta {1, 1, 100, path, 15, 10, 10} |
| `Scenarios.ForwardedCallIsPagination` | tests/PresentableTraitTest.php:113-146 | a call forwarded by the paginator equals `pagination($paginator)`; the envelope's meta reports current page 1, last page 100, total 10, and the paginator's own accessors still return 1, 100 and 10 |
| `Scenarios.DirectCallIsCollection` | tests/PresentableTraitTest.php:80-111 | a direct call on a collection equals `collection($collection)` |
| `Scenarios.LengthAwarePaginatorIsDetected` | tests/CollectionMacrosTest.php:20-84 | a hand-written LengthAwarePaginator forwarding via `__call` gets the envelope with keys data, links, meta |
| `Scenarios.InvalidClassSameEverywhere` | tests/PresentableTraitTest.php:20-37 | an invalid class raises the same InvalidArgumentException from `present` and from `presentCollection` |

## Left out

- `Presenter::__call` (src/Presenter.php:110-113): it forwards to arbitrary methods of application models, which are application code. Only property reads (`__get`) are modelled.
- `json_encode` (src/Presenter.php:131-134, 120-123): the encoder is a function parameter. Its byte output and the `$options` flags are not modelled.
- `debug_backtrace` (src/CollectionMacros.php:80): the stack is an input sequence of frames. Which frames PHP actually produces is not modelled.
- `$callerClass` (src/CollectionMacros.php:86): the source reads it and never uses it. The model keeps the frame's class and ignores it likewise.
- Dispatch does not modify the paginator (tests/PresentableTraitTest.php:191-204): every value in the model is immutable, so this holds by construction. `Scenarios.ForwardedCallIsPagination` states that the paginator's accessors still return page 1, last page 100 and total 10.
- Php.StringToInt: a numeric string in exponent or fractional notation is read by its integer prefix. PHP reads the whole float, so `"1e3"` gives 1000 in PHP and 1 here.
- PHP values: floats and objects are left out, in the values and in the `(int)` cast.
- Strings: PHP strings are byte strings, and the model's are character sequences. So `json_encode` failing with `false` (for example on invalid UTF-8, src/Presenter.php:133) cannot occur with the model's encoder, which always returns a string.
- Offset keys: PHP's coercion of offset keys is not modelled. This covers `"1"` matching key `1`, and null, bool or float offsets.
- Class overrides: a subclass overriding `make`, `collection`, `pagination` or the constructor is not modelled. Every presenter class uses the base implementations. Properties and methods a subclass declares are not modelled either: PHP reads a declared public property directly, without `__get`, so `Presenters.Get` covers only names the presenter itself does not declare.
- `toArray()` is a pure function of the model. A `toArray()` that lazily loads relations would change the model in PHP; the model does not show that change.
- Laravel.GetAttribute: Eloquent's accessors, mutators, casts, falsy keys, and its guard against lazy loading are not modelled. When the name is a model method that does not return a relation, Eloquent raises a LogicException; the model returns null there.
- Laravel.IsSubclassOf: class names are exact, canonical strings. PHP resolves the class named by `$presenterClass` ignoring case and accepts a leading `\`, so `present('rolepresenter')` succeeds in PHP; the model raises the InvalidArgumentException unless the class table lists that spelling, and then the presenter carries that spelling as its class.
- Simple paginators: every page source supplies `lastPage()` and `total()`, which `pagination` calls (src/Presenter.php:75, 82, 86). Neither is on the `Paginator` contract, and on Laravel's simple `Paginator` these calls fail inside the framework; the model does not show that failure.
- Items that are not models: `new static($model)` raises a TypeError for them in PHP. They are excluded by typing.
- src/PresenterServiceProvider.php: container and console wiring. `MakePresenterCommand` is not part of this model.
