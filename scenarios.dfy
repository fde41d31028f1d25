/** Concrete calls with the values the package's tests expect: the mocked
    paginator (page 1 of 100, 15 per page, items 1 to 10 of 10), a direct call on
    a collection, a call forwarded by a paginator, and an invalid class. */
module Scenarios {
  import opened Php
  import opened Laravel
  import opened Presenters
  import opened CollectionMacros
  import opened Presentable

  const FixturePath: string := "http://example.com/pagination"

  /** A stand-in for the paginator's `url($page)`: the path with a `page` query
      parameter. The tests' mock sets no expectation for it; this one is chosen
      to give the URL strings the tests expect. */
  function FixtureUrl(page: Value): Value
  {
    Str(FixturePath + "?page=" + DecimalString(IntCast(page)))
  }

  /** A page source with the values the tests' mocked paginator returns, over
      the given items, and `FixtureUrl` as its URL function. */
  function FixturePage(items: Collection<Model>): PageSource
  {
    PageSource(
      items,
      Int(1), Int(1), Int(10), Int(100), Int(15), Int(10),
      Str(FixturePath), Null, Int(2),
      FixtureUrl)
  }

  const CollectionClass: ClassName := "Illuminate\\Support\\Collection"

  /** The stack inside the macro when a test calls it on a collection; the
      closure runs bound to the collection, as Macroable's `__call` binds it. */
  function DirectTrace(testCase: ClassName): seq<Frame>
  {
    [ Frame(Some("{closure}"), Some(CollectionClass), Some(OtherObject(CollectionClass))),
      Frame(Some("__call"), Some(CollectionClass), Some(OtherObject(CollectionClass))),
      Frame(Some("test"), Some(testCase), Some(OtherObject(testCase))) ]
  }

  /** The stack inside the macro when a paginator's `__call` forwarded the call. */
  function ForwardedTrace(paginator: Obj): seq<Frame>
  {
    [ Frame(Some("{closure}"), Some(CollectionClass), Some(OtherObject(CollectionClass))),
      Frame(Some("__call"), Some(CollectionClass), Some(OtherObject(CollectionClass))),
      Frame(Some("__call"), None, Some(paginator)) ]
  }

  lemma FixtureUrls()
    ensures FixtureUrl(Int(1)) == Str("http://example.com/pagination?page=1")
    ensures FixtureUrl(Int(100)) == Str("http://example.com/pagination?page=100")
  {
    assert NatDigits(1) == "1";
    assert NatDigits(10) == NatDigits(1) + "0";
    assert NatDigits(100) == NatDigits(10) + "0";
  }

  /** The envelope of the mocked paginator carries exactly the expected links
      and meta. */
  lemma FixtureEnvelope(prog: Program, c: ClassName, items: Collection<Model>)
    requires IsSubclassOf(prog, c, PresenterBase) && Instantiable(prog, c)
    ensures Pagination(prog, c, FixturePage(items)).Ok?
    ensures var a := EnvelopeToArray(prog, Pagination(prog, c, FixturePage(items)).value);
      && Lookup(a, StrKey("links")) == Some(Arr(
           [ (StrKey("first"), Str("http://example.com/pagination?page=1")),
             (StrKey("last"), Str("http://example.com/pagination?page=100")),
             (StrKey("prev"), Null),
             (StrKey("next"), Int(2)) ]))
      && Lookup(a, StrKey("meta")) == Some(Arr(
           [ (StrKey("current_page"), Int(1)),
             (StrKey("from"), Int(1)),
             (StrKey("last_page"), Int(100)),
             (StrKey("path"), Str("http://example.com/pagination")),
             (StrKey("per_page"), Int(15)),
             (StrKey("to"), Int(10)),
             (StrKey("total"), Int(10)) ]))
  {
    PaginationShape(prog, c, FixturePage(items));
    FixtureUrls();
  }

  /** `$paginator->presentCollection(c)` equals `c::pagination($paginator)`; the
      envelope's meta reports page 1, last page 100 and total 10, and the
      paginator's own accessors still return those values after the call. */
  lemma ForwardedCallIsPagination(prog: Program, c: ClassName, items: Collection<Model>)
    requires IsSubclassOf(prog, c, PresenterBase) && Instantiable(prog, c)
    ensures var r := PresentCollection(prog, items, c, ForwardedTrace(PaginatorObject(FixturePage(items))));
      && r == AsPaginated(Pagination(prog, c, FixturePage(items)))
      && r.Ok? && r.value.Paginated?
      && r.value.envelope.meta.currentPage == 1
      && r.value.envelope.meta.lastPage == 100
      && r.value.envelope.meta.total == 10
    ensures var page := FixturePage(items);
      page.currentPage == Int(1) && page.lastPage == Int(100) && page.total == Int(10)
  {
  }

  /** `$collection->presentCollection(c)` from a test equals `c::collection($collection)`. */
  lemma DirectCallIsCollection(prog: Program, c: ClassName, items: Collection<Model>, testCase: ClassName)
    requires IsSubclassOf(prog, c, PresenterBase)
    ensures PresentCollection(prog, items, c, DirectTrace(testCase)) == AsPlain(Presenters.Collection(prog, c, items))
  {
  }

  /** A hand-written length-aware paginator that forwards through `__call`
      gets the full envelope, with keys data, links and meta. */
  lemma LengthAwarePaginatorIsDetected(prog: Program, c: ClassName, page: PageSource)
    requires IsSubclassOf(prog, c, PresenterBase) && Instantiable(prog, c)
    ensures var r := PresentCollection(prog, page.items, c, ForwardedTrace(LengthAwarePaginatorObject(page)));
      && r.Ok? && r.value.Paginated?
      && KeysOf(EnvelopeToArray(prog, r.value.envelope)) == [StrKey("data"), StrKey("links"), StrKey("meta")]
  {
    PaginationShape(prog, c, page);
  }

  /** A class that is not a presenter fails the same way on a model and on a collection. */
  lemma InvalidClassSameEverywhere(prog: Program, m: Model, items: Collection<Model>, c: ClassName, trace: seq<Frame>)
    requires !IsSubclassOf(prog, c, PresenterBase)
    ensures Present(prog, m, c).Err? && PresentCollection(prog, items, c, trace).Err?
    ensures Present(prog, m, c).error == PresentCollection(prog, items, c, trace).error == InvalidPresenterClass
    ensures InvalidPresenterClass.InvalidArgumentException?
  {
  }
}
