/** The presentation engine: a presenter binds one presenter class to one
    model; the static factories build a presenter, a keyed collection of them,
    or the `{data, links, meta}` envelope of a page; the instance side offers a
    read-only array view of `toArray()`, JSON views derived from it, and
    read-through access to the model. */
module Presenters {
  import opened Php
  import opened Laravel

  /** An instance of presenter class `cls` wrapping `model`; the binding never changes. */
  datatype Presenter = Presenter(cls: ClassName, model: Model)

  /** A class on which the static factories resolve: the base class or a subclass of it. */
  predicate IsPresenterClass(prog: Program, c: ClassName)
  {
    c == PresenterBase || IsSubclassOf(prog, c, PresenterBase)
  }

  /** `new static($model)` succeeds: a declared, non-abstract class (the base is abstract). */
  predicate Instantiable(prog: Program, c: ClassName)
  {
    c != PresenterBase && c in prog.classes && !prog.classes[c].isAbstract
  }

  /** The error PHP raises for `new` on an abstract class. */
  function CannotInstantiate(c: ClassName): Throwable
  {
    Error("Cannot instantiate abstract class " + c)
  }

  /** The exception every entry point raises for a class that is not a presenter. */
  const InvalidPresenterClass: Throwable :=
    InvalidArgumentException("The presenter class must be a subclass of " + PresenterBase)

  /** `c::make($model)`. */
  function Make(prog: Program, c: ClassName, m: Model): (r: Result<Presenter>)
    requires IsPresenterClass(prog, c)
    ensures r.Ok? <==> Instantiable(prog, c)
    ensures r.Ok? ==> r.value.cls == c && r.value.model == m
    ensures r.Err? ==> r.error == CannotInstantiate(c)
  {
    if Instantiable(prog, c) then Ok(Presenter(c, m)) else Err(CannotInstantiate(c))
  }

  /** `c::collection($models)`: `map` with a closure that builds one presenter
      per item, so an abstract class fails only if there is an item. */
  function Collection(prog: Program, c: ClassName, models: Collection<Model>): (r: Result<Collection<Presenter>>)
    requires IsPresenterClass(prog, c)
    ensures r.Ok? <==> (|models| == 0 || Instantiable(prog, c))
    ensures r.Err? ==> r.error == CannotInstantiate(c)
    ensures r.Ok? ==> |r.value| == |models|
    ensures r.Ok? ==> forall i :: 0 <= i < |models| ==>
              r.value[i].0 == models[i].0 && r.value[i].1 == Presenter(c, models[i].1)
  {
    if |models| == 0 then Ok([])
    else
      match Make(prog, c, models[0].1)
      case Err(e) => Err(e)
      case Ok(p) =>
        match Collection(prog, c, models[1..])
        case Err(e) => Err(e)
        case Ok(rest) => Ok([(models[0].0, p)] + rest)
  }

  /** `$presenter->toArray()`: the presenter class's own rendering of its model. */
  function ToArray(prog: Program, p: Presenter): PhpArray
  {
    prog.render(p.cls, p.model)
  }

  /** `$presenters->toArray()`: each presenter replaced by its array, keys kept. */
  function CollectionToArray(prog: Program, ps: Collection<Presenter>): (r: seq<(Key, Value)>)
    ensures |r| == |ps|
    ensures forall i :: 0 <= i < |ps| ==> r[i] == (ps[i].0, Arr(ToArray(prog, ps[i].1)))
  {
    if |ps| == 0 then [] else [(ps[0].0, Arr(ToArray(prog, ps[0].1)))] + CollectionToArray(prog, ps[1..])
  }

  // ---------------------------------------------------------------------------
  // Pagination envelope

  datatype Links = Links(first: Value, last: Value, prev: Value, next: Value)

  datatype Meta = Meta(
    currentPage: Int64,
    from: Int64,
    lastPage: Int64,
    path: Value,
    perPage: Int64,
    to: Int64,
    total: Int64)

  /** The collection `pagination` returns; `data` stays a collection of presenters. */
  datatype Envelope = Envelope(data: Collection<Presenter>, links: Links, meta: Meta)

  /** `c::pagination($paginator)`: the presented items, the four links exactly
      as the paginator reports them, and the meta fields, numeric ones cast to int. */
  function Pagination(prog: Program, c: ClassName, page: PageSource): (r: Result<Envelope>)
    requires IsPresenterClass(prog, c)
    ensures r.Ok? <==> Collection(prog, c, page.items).Ok?
    ensures r.Err? ==> r.error == CannotInstantiate(c)
    ensures r.Ok? ==> r.value.data == Collection(prog, c, page.items).value
    ensures r.Ok? ==> (r.value.links ==
      Links(page.url(Int(1)), page.url(page.lastPage), page.previousPageUrl, page.nextPageUrl))
    ensures r.Ok? ==> (r.value.meta ==
      Meta(IntCast(page.currentPage), IntCast(page.firstItem), IntCast(page.lastPage), page.path,
           IntCast(page.perPage), IntCast(page.lastItem), IntCast(page.total)))
  {
    match Collection(prog, c, page.items)
    case Err(e) => Err(e)
    case Ok(data) =>
      Ok(Envelope(
        data,
        Links(page.url(Int(1)), page.url(page.lastPage), page.previousPageUrl, page.nextPageUrl),
        Meta(IntCast(page.currentPage), IntCast(page.firstItem), IntCast(page.lastPage), page.path,
             IntCast(page.perPage), IntCast(page.lastItem), IntCast(page.total))))
  }

  function LinksArray(l: Links): PhpArray
  {
    [(StrKey("first"), l.first), (StrKey("last"), l.last), (StrKey("prev"), l.prev), (StrKey("next"), l.next)]
  }

  function MetaArray(m: Meta): PhpArray
  {
    [ (StrKey("current_page"), Int(m.currentPage)),
      (StrKey("from"), Int(m.from)),
      (StrKey("last_page"), Int(m.lastPage)),
      (StrKey("path"), m.path),
      (StrKey("per_page"), Int(m.perPage)),
      (StrKey("to"), Int(m.to)),
      (StrKey("total"), Int(m.total)) ]
  }

  /** `$envelope->toArray()`: `data` is converted item by item, `links` and
      `meta` are plain arrays already. */
  function EnvelopeToArray(prog: Program, e: Envelope): PhpArray
  {
    [ (StrKey("data"), Arr(CollectionToArray(prog, e.data))),
      (StrKey("links"), Arr(LinksArray(e.links))),
      (StrKey("meta"), Arr(MetaArray(e.meta))) ]
  }

  function KeysOf(a: seq<(Key, Value)>): (ks: seq<Key>)
    ensures |ks| == |a| && forall i :: 0 <= i < |a| ==> ks[i] == a[i].0
  {
    if |a| == 0 then [] else [a[0].0] + KeysOf(a[1..])
  }

  /** The wire shape of a presented page: exactly the keys data, links and
      meta, in that order; the data is the presented items; the links come
      verbatim from the paginator; the meta fields are, in order, current_page,
      from, last_page, path, per_page, to and total, all but path cast to int. */
  lemma PaginationShape(prog: Program, c: ClassName, page: PageSource)
    requires IsPresenterClass(prog, c)
    requires Pagination(prog, c, page).Ok?
    ensures var a := EnvelopeToArray(prog, Pagination(prog, c, page).value);
      && KeysOf(a) == [StrKey("data"), StrKey("links"), StrKey("meta")]
      && Lookup(a, StrKey("data")) == Some(Arr(CollectionToArray(prog, Collection(prog, c, page.items).value)))
      && Lookup(a, StrKey("links")) == Some(Arr(
           [ (StrKey("first"), page.url(Int(1))),
             (StrKey("last"), page.url(page.lastPage)),
             (StrKey("prev"), page.previousPageUrl),
             (StrKey("next"), page.nextPageUrl) ]))
      && Lookup(a, StrKey("meta")) == Some(Arr(
           [ (StrKey("current_page"), Int(IntCast(page.currentPage))),
             (StrKey("from"), Int(IntCast(page.firstItem))),
             (StrKey("last_page"), Int(IntCast(page.lastPage))),
             (StrKey("path"), page.path),
             (StrKey("per_page"), Int(IntCast(page.perPage))),
             (StrKey("to"), Int(IntCast(page.lastItem))),
             (StrKey("total"), Int(IntCast(page.total))) ]))
  {
    var a := EnvelopeToArray(prog, Pagination(prog, c, page).value);
    LookupStored(a, 0);
    LookupStored(a, 1);
    LookupStored(a, 2);
  }

  /** The serialised data of a page is, entry by entry, the item's key with
      the presenter class's rendering of the item's model. */
  lemma PaginationDataRendersItems(prog: Program, c: ClassName, page: PageSource, i: nat)
    requires IsPresenterClass(prog, c)
    requires Pagination(prog, c, page).Ok?
    requires i < |page.items|
    ensures var data := CollectionToArray(prog, Pagination(prog, c, page).value.data);
      |data| == |page.items| && data[i] == (page.items[i].0, Arr(prog.render(c, page.items[i].1)))
  {
  }

  /** On a page without items the paginator reports null first and last
      items, which the envelope's meta turns into from = to = 0. */
  lemma EmptyPageMeta(prog: Program, c: ClassName, page: PageSource)
    requires IsPresenterClass(prog, c)
    requires page.items == [] && page.firstItem == Null && page.lastItem == Null
    ensures Pagination(prog, c, page).Ok?
    ensures Pagination(prog, c, page).value.data == []
    ensures Pagination(prog, c, page).value.meta.from == 0 && Pagination(prog, c, page).value.meta.to == 0
  {
  }

  // ---------------------------------------------------------------------------
  // Array access, a read-only view of toArray()

  /** `isset($presenter[$k])`. */
  function OffsetExists(prog: Program, p: Presenter, k: Key): (r: bool)
    ensures r <==> exists i :: 0 <= i < |ToArray(prog, p)| &&
                     ToArray(prog, p)[i].0 == k && !ToArray(prog, p)[i].1.Null?
  {
    Isset(ToArray(prog, p), k)
  }

  function UndefinedOffset(k: Key): Throwable
  {
    Exception("Undefined offset: " + KeyString(k))
  }

  /** `$presenter[$k]`. */
  function OffsetGet(prog: Program, p: Presenter, k: Key): (r: Result<Value>)
    ensures r.Ok? <==> OffsetExists(prog, p, k)
    ensures r.Ok? ==> Lookup(ToArray(prog, p), k) == Some(r.value) && !r.value.Null?
    ensures r.Err? ==> r.error == UndefinedOffset(k)
  {
    if OffsetExists(prog, p, k) then Ok(Lookup(ToArray(prog, p), k).value) else Err(UndefinedOffset(k))
  }

  /** Reading an offset gives what toArray() stores under it, unless that is
      null: a key mapped to null reads like a missing key. */
  lemma {:induction false} OffsetGetOfStoredKey(prog: Program, p: Presenter, i: nat)
    requires i < |ToArray(prog, p)|
    ensures var (k, v) := ToArray(prog, p)[i];
      OffsetGet(prog, p, k) == (if v.Null? then Err(UndefinedOffset(k)) else Ok(v))
  {
    var a := ToArray(prog, p);
    LookupStored(a, i);
    if !a[i].1.Null? {
      assert OffsetExists(prog, p, a[i].0);
    }
  }

  /** A key that toArray() does not have neither exists nor reads. */
  lemma OffsetGetOfMissingKey(prog: Program, p: Presenter, k: Key)
    requires forall i :: 0 <= i < |ToArray(prog, p)| ==> ToArray(prog, p)[i].0 != k
    ensures !OffsetExists(prog, p, k)
    ensures OffsetGet(prog, p, k) == Err(UndefinedOffset(k))
  {
  }

  /** `$presenter[$k] = $v`: ignored. */
  function OffsetSet(p: Presenter, k: Key, v: Value): (r: Presenter)
    ensures r.cls == p.cls && r.model == p.model
  {
    p
  }

  /** `unset($presenter[$k])`: ignored. */
  function OffsetUnset(p: Presenter, k: Key): (r: Presenter)
    ensures r.cls == p.cls && r.model == p.model
  {
    p
  }

  /** Writes through the array view leave toArray() and every offset read as they were. */
  lemma OffsetWritesChangeNothing(prog: Program, p: Presenter, k: Key, v: Value, j: Key)
    ensures ToArray(prog, OffsetSet(p, k, v)) == ToArray(prog, p)
    ensures ToArray(prog, OffsetUnset(p, k)) == ToArray(prog, p)
    ensures OffsetGet(prog, OffsetSet(p, k, v), j) == OffsetGet(prog, p, j)
    ensures OffsetGet(prog, OffsetUnset(p, k), j) == OffsetGet(prog, p, j)
  {
  }

  // ---------------------------------------------------------------------------
  // JSON views and read-through

  /** `$presenter->jsonSerialize()`. */
  function JsonSerialize(prog: Program, p: Presenter): PhpArray
  {
    ToArray(prog, p)
  }

  /** `$presenter->toJson($options)`, with `json_encode` as the encoder. */
  function ToJson(prog: Program, p: Presenter, options: int, encode: (Value, int) -> string): string
  {
    encode(Arr(ToArray(prog, p)), options)
  }

  /** `(string) $presenter`. */
  function ToString(prog: Program, p: Presenter, encode: (Value, int) -> string): string
  {
    ToJson(prog, p, 0, encode)
  }

  /** `json_encode($presenter)`, `$presenter->toJson()` and `(string) $presenter`
      agree, and depend on nothing but toArray(). */
  lemma JsonViewsAgree(prog: Program, p: Presenter, q: Presenter, encode: (Value, int) -> string)
    ensures encode(Arr(JsonSerialize(prog, p)), 0) == ToJson(prog, p, 0, encode) == ToString(prog, p, encode)
    ensures forall options :: ToJson(prog, p, options, encode) == encode(Arr(JsonSerialize(prog, p)), options)
    ensures ToArray(prog, p) == ToArray(prog, q) ==> ToString(prog, p, encode) == ToString(prog, q, encode)
  {
  }

  /** `$presenter->$name`: the wrapped model's attribute. */
  function Get(p: Presenter, name: string): (r: Read)
    ensures r == GetAttribute(p.model, name)
  {
    GetAttribute(p.model, name)
  }

  /** `$presenter->whenLoaded($relationship)`: the relation if it is loaded,
      null otherwise; it never loads anything. */
  function WhenLoaded(p: Presenter, relationship: string): (r: Read)
    ensures r.model == p.model
    ensures !RelationLoaded(p.model, relationship) ==> r.value == Null
    ensures RelationLoaded(p.model, relationship) ==> r.value == GetAttribute(p.model, relationship).value
  {
    if !RelationLoaded(p.model, relationship) then Read(Null, p.model)
    else GetAttribute(p.model, relationship)
  }

  /** Reading a declared, unloaded relation through the presenter loads it;
      whenLoaded on the same relation does not. */
  lemma ReadThroughLoadsButWhenLoadedDoesNot(p: Presenter, relationship: string)
    requires relationship in p.model.relationMethods
    requires relationship !in p.model.attributes && !RelationLoaded(p.model, relationship)
    ensures RelationLoaded(Get(p, relationship).model, relationship)
    ensures Get(p, relationship).value == p.model.relationMethods[relationship]
    ensures WhenLoaded(p, relationship) == Read(Null, p.model)
  {
  }

  /** A loaded relation that is not shadowed by an attribute is what
      whenLoaded returns. */
  lemma WhenLoadedReturnsLoadedRelation(p: Presenter, relationship: string)
    requires RelationLoaded(p.model, relationship) && relationship !in p.model.attributes
    ensures WhenLoaded(p, relationship) == Read(p.model.relations[relationship], p.model)
  {
  }
}
