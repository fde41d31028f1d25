/** The Presentable trait of a model: `present($presenterClass)` checks the
    class and then hands the model itself to the class's `make`. */
module Presentable {
  import opened Php
  import opened Laravel
  import opened Presenters

  /** `$this->present($presenterClass)` on model `receiver`. */
  function Present(prog: Program, receiver: Model, presenterClass: ClassName): (r: Result<Presenter>)
    ensures !IsSubclassOf(prog, presenterClass, PresenterBase) ==> r == Err(InvalidPresenterClass)
    ensures IsSubclassOf(prog, presenterClass, PresenterBase) ==> r == Make(prog, presenterClass, receiver)
  {
    if !IsSubclassOf(prog, presenterClass, PresenterBase) then Err(InvalidPresenterClass)
    else Make(prog, presenterClass, receiver)
  }

  /** On a valid, instantiable class the result is a presenter of that class
      wrapping the receiver itself. */
  lemma PresentWrapsReceiver(prog: Program, receiver: Model, c: ClassName)
    requires IsSubclassOf(prog, c, PresenterBase) && Instantiable(prog, c)
    ensures Present(prog, receiver, c) == Ok(Presenter(c, receiver))
  {
  }

  /** Presenting fails exactly when the class is not an instantiable presenter
      subclass; the class check comes first, so a class that is no presenter
      at all yields the invalid-argument exception and never the error `make`
      would raise. */
  lemma PresentFailures(prog: Program, receiver: Model, c: ClassName)
    ensures Present(prog, receiver, c).Err? <==> !(IsSubclassOf(prog, c, PresenterBase) && Instantiable(prog, c))
    ensures Present(prog, receiver, c) == Err(InvalidPresenterClass) <==> !IsSubclassOf(prog, c, PresenterBase)
  {
  }
}
