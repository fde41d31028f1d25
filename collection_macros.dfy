/** The `presentCollection` collection macro: it rejects a class that is not a
    presenter, then reads the call stack to tell a direct call on a collection
    from a call a paginator forwarded through its `__call`, and answers with
    `collection($this)` or `pagination($paginator)` accordingly. */
module CollectionMacros {
  import opened Php
  import opened Laravel
  import opened Presenters

  /** One entry of `debug_backtrace(DEBUG_BACKTRACE_PROVIDE_OBJECT)`: its
      'function', 'class' and 'object' entries, each of which may be missing. */
  datatype Frame = Frame(func: Option<string>, cls: Option<string>, obj: Option<Obj>)

  /** The two local flags the macro computes from the trace. */
  datatype Detection = Detection(isPaginator: bool, paginator: Option<Obj>)

  /** The macro runs inside a paginator's forwarding call: at least three
      frames, frame 1 is a `__call`, and frame 2 carries a paginator object. */
  predicate ForwardedByPaginator(trace: seq<Frame>)
  {
    && |trace| >= 3
    && trace[1].func == Some("__call")
    && trace[2].obj.Some?
    && IsPaginator(trace[2].obj.value)
  }

  /** The nested checks on the trace, with the macro's local flags. */
  function Detect(trace: seq<Frame>): (d: Detection)
    ensures d.isPaginator <==> ForwardedByPaginator(trace)
    ensures d.isPaginator ==> d.paginator == trace[2].obj
    ensures |trace| < 3 ==> d == Detection(false, None)
  {
    if |trace| >= 3 then
      var callerMethod := GetOr(trace[1].func, "");
      if callerMethod == "__call" && trace[2].obj.Some? then
        var paginator := trace[2].obj.value;
        Detection(IsPaginator(paginator), Some(paginator))
      else Detection(false, None)
    else Detection(false, None)
  }

  /** What the macro returns: a pagination envelope or a collection of presenters. */
  datatype Presented = Paginated(envelope: Envelope) | Plain(items: Collection<Presenter>)

  function AsPaginated(r: Result<Envelope>): Result<Presented>
  {
    match r
    case Ok(e) => Ok(Paginated(e))
    case Err(x) => Err(x)
  }

  function AsPlain(r: Result<Collection<Presenter>>): Result<Presented>
  {
    match r
    case Ok(ps) => Ok(Plain(ps))
    case Err(x) => Err(x)
  }

  /** `$this->presentCollection($presenterClass)` on collection `receiver`, with
      the stack the macro finds itself on. */
  function PresentCollection(prog: Program, receiver: Collection<Model>, presenterClass: ClassName, trace: seq<Frame>)
    : (r: Result<Presented>)
    ensures !IsSubclassOf(prog, presenterClass, PresenterBase) ==> r == Err(InvalidPresenterClass)
    ensures IsSubclassOf(prog, presenterClass, PresenterBase) && ForwardedByPaginator(trace) ==>
      r == AsPaginated(Pagination(prog, presenterClass, trace[2].obj.value.source))
    ensures IsSubclassOf(prog, presenterClass, PresenterBase) && !ForwardedByPaginator(trace) ==>
      r == AsPlain(Presenters.Collection(prog, presenterClass, receiver))
  {
    if !IsSubclassOf(prog, presenterClass, PresenterBase) then Err(InvalidPresenterClass)
    else
      var d := Detect(trace);
      if d.isPaginator && d.paginator.Some? then
        AsPaginated(Pagination(prog, presenterClass, d.paginator.value.source))
      else
        AsPlain(Presenters.Collection(prog, presenterClass, receiver))
  }

  /** A class that is not a presenter is refused before the trace is read:
      the outcome is the same whatever the collection and the stack. */
  lemma InvalidClassRejectedBeforeDispatch(
    prog: Program, receiver: Collection<Model>, other: Collection<Model>, c: ClassName, t1: seq<Frame>, t2: seq<Frame>)
    requires !IsSubclassOf(prog, c, PresenterBase)
    ensures PresentCollection(prog, receiver, c, t1) == PresentCollection(prog, other, c, t2) == Err(InvalidPresenterClass)
  {
  }

  /** A stack of fewer than three frames is always a direct call. */
  lemma ShortTraceIsDirect(prog: Program, receiver: Collection<Model>, c: ClassName, trace: seq<Frame>)
    requires IsSubclassOf(prog, c, PresenterBase) && |trace| < 3
    ensures PresentCollection(prog, receiver, c, trace) == AsPlain(Presenters.Collection(prog, c, receiver))
  {
  }

  /** For a valid, instantiable presenter class exactly one entry point runs,
      and it is pagination exactly when the forwarding guard holds. */
  lemma ExactlyOneEntryPoint(prog: Program, receiver: Collection<Model>, c: ClassName, trace: seq<Frame>)
    requires IsSubclassOf(prog, c, PresenterBase) && Instantiable(prog, c)
    ensures PresentCollection(prog, receiver, c, trace).Ok?
    ensures PresentCollection(prog, receiver, c, trace).value.Paginated? <==> ForwardedByPaginator(trace)
  {
  }

  /** An object reached through `__call` that is not a paginator gets the
      collection output. */
  lemma NonPaginatorCallerIsDirect(
    prog: Program, receiver: Collection<Model>, c: ClassName, trace: seq<Frame>)
    requires IsSubclassOf(prog, c, PresenterBase)
    requires |trace| >= 3 && trace[1].func == Some("__call")
    requires trace[2].obj.Some? && !IsPaginator(trace[2].obj.value)
    ensures PresentCollection(prog, receiver, c, trace) == AsPlain(Presenters.Collection(prog, c, receiver))
  {
  }

  /** Every macro call runs under Macroable's `__call`, so frame 1 is always
      `__call` and only frame 2's object decides: once it is a paginator, the
      result is that paginator's page whatever collection the macro ran on and
      whatever frame 2's function and class are. */
  lemma CallerObjectDecides(
    prog: Program, receiver: Collection<Model>, other: Collection<Model>, c: ClassName, t1: seq<Frame>, t2: seq<Frame>)
    requires IsSubclassOf(prog, c, PresenterBase)
    requires |t1| >= 3 && |t2| >= 3
    requires t1[1].func == Some("__call") && t2[1].func == Some("__call")
    requires t1[2].obj == t2[2].obj
    requires t1[2].obj.Some? && IsPaginator(t1[2].obj.value)
    ensures PresentCollection(prog, receiver, c, t1) == PresentCollection(prog, other, c, t2)
  {
  }

  /** An abstract presenter subclass passes the class check; it then fails
      only when there is something to instantiate. */
  lemma AbstractSubclassOnCollection(prog: Program, receiver: Collection<Model>, c: ClassName, trace: seq<Frame>)
    requires IsSubclassOf(prog, c, PresenterBase) && !Instantiable(prog, c)
    requires !ForwardedByPaginator(trace)
    ensures |receiver| == 0 ==> PresentCollection(prog, receiver, c, trace) == Ok(Plain([]))
    ensures |receiver| > 0 ==> PresentCollection(prog, receiver, c, trace) == Err(CannotInstantiate(c))
  {
  }
}
