/** Stand-ins for the framework objects the package works with: Eloquent
    models, keyed collections, paginators, the objects a stack frame can hold,
    and the program's class table. Only what the package observes of them is
    kept. */
module Laravel {
  import opened Php

  type ClassName = string

  /** The fully qualified name of the abstract base presenter class. */
  const PresenterBase: ClassName := "CultureGr\\Presenter\\Presenter"

  /** A declared class: its proper ancestors (parents and interfaces) and
      whether it is abstract. */
  datatype ClassDecl = ClassDecl(ancestors: set<ClassName>, isAbstract: bool)

  /** An Eloquent model. `handle` is its object identity; `relations` holds the
      relations loaded so far and `relationMethods` the value each declared
      relation would load. */
  datatype Model = Model(
    handle: nat,
    attributes: map<string, Value>,
    relations: map<string, Value>,
    relationMethods: map<string, Value>)

  /** `$model->relationLoaded($key)`. */
  predicate RelationLoaded(m: Model, key: string)
  {
    key in m.relations
  }

  /** The value a read produced, and the model after it (a read may load a relation). */
  datatype Read = Read(value: Value, model: Model)

  /** `$model->$key`: an attribute if there is one, else a loaded relation,
      else a declared relation, which this read loads; otherwise null. */
  function GetAttribute(m: Model, key: string): (r: Read)
    ensures r.model.handle == m.handle && r.model.attributes == m.attributes
    ensures r.model.relationMethods == m.relationMethods
    ensures r.model.relations.Keys == m.relations.Keys
              + (if key in m.relationMethods && key !in m.attributes then {key} else {})
    ensures forall k :: k in m.relations ==> r.model.relations[k] == m.relations[k]
    ensures key in m.attributes ==> r.value == m.attributes[key]
    ensures key !in m.attributes && key in r.model.relations ==> r.value == r.model.relations[key]
    ensures key !in m.attributes && key !in m.relations && key !in m.relationMethods ==> r.value == Null
    ensures key !in m.attributes && key !in m.relations && key in m.relationMethods ==>
      r.value == m.relationMethods[key] && r.model.relations[key] == m.relationMethods[key]
  {
    if key in m.attributes then Read(m.attributes[key], m)
    else if key in m.relations then Read(m.relations[key], m)
    else if key in m.relationMethods then
      var loaded := m.relationMethods[key];
      Read(loaded, m.(relations := m.relations[key := loaded]))
    else Read(Null, m)
  }

  /** An Illuminate collection: an ordered list of keyed items. */
  type Collection<T> = seq<(Key, T)>

  /** What a paginator reports through the accessors the package calls. The
      values are whatever the paginator returns, before any cast. */
  datatype PageSource = PageSource(
    items: Collection<Model>,
    currentPage: Value,
    firstItem: Value,
    lastItem: Value,
    lastPage: Value,
    perPage: Value,
    total: Value,
    path: Value,
    previousPageUrl: Value,
    nextPageUrl: Value,
    url: Value -> Value)

  /** An object as a stack frame can carry it: one implementing the Paginator
      contract, one implementing the LengthAwarePaginator contract, or any other. */
  datatype Obj =
    | PaginatorObject(source: PageSource)
    | LengthAwarePaginatorObject(source: PageSource)
    | OtherObject(cls: ClassName)

  /** `$o instanceof Paginator || $o instanceof LengthAwarePaginator`. */
  predicate IsPaginator(o: Obj)
  {
    o.PaginatorObject? || o.LengthAwarePaginatorObject?
  }

  /** The application's classes, and each presenter class's own `toArray()`
      applied to a model. */
  datatype Program = Program(
    classes: map<ClassName, ClassDecl>,
    render: (ClassName, Model) -> PhpArray)

  /** `is_subclass_of($c, $parent)`: c is a declared class with parent as a proper ancestor. */
  predicate IsSubclassOf(prog: Program, c: ClassName, parent: ClassName)
  {
    c != parent && c in prog.classes && parent in prog.classes[c].ancestors
  }
}
