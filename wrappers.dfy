/** Optional values and success/failure results shared by every module of the model. */
module Wrappers {

  datatype Option<+T> = None | Some(value: T) {
    function GetOr(default: T): T {
      match this
      case Some(v) => v
      case None => default
    }
  }

  /** The exceptions of the Python and Go sources that the model turns into values. */
  datatype Error =
    | ZeroDivision      // ZeroDivisionError
    | IndexOutOfRange   // IndexError
    | MissingKey        // KeyError
    | WrongType         // TypeError
    | DecodeFailure     // UnicodeDecodeError
    | PatternError      // re.error

  datatype Result<+T> = Success(value: T) | Failure(error: Error)

  /** Applies f to each element in order and stops at the first failure. */
  function Collect<T, U>(xs: seq<T>, f: T -> Result<U>): Result<seq<U>> {
    if xs == [] then Success([])
    else match Collect(xs[..|xs| - 1], f)
      case Failure(e) => Failure(e)
      case Success(init) =>
        match f(xs[|xs| - 1])
        case Failure(e) => Failure(e)
        case Success(a) => Success(init + [a])
  }

  /** Collecting succeeds iff every element succeeds, and then yields their values in order. */
  lemma {:induction false} CollectFacts<T, U>(xs: seq<T>, f: T -> Result<U>)
    ensures Collect(xs, f).Success? <==> forall i :: 0 <= i < |xs| ==> f(xs[i]).Success?
    ensures Collect(xs, f).Success? ==>
      && |Collect(xs, f).value| == |xs|
      && forall i :: 0 <= i < |xs| ==> Collect(xs, f).value[i] == f(xs[i]).value
  {
    if xs != [] {
      var init := xs[..|xs| - 1];
      CollectFacts(init, f);
      assert forall i :: 0 <= i < |init| ==> init[i] == xs[i];
    }
  }

  lemma CollectStep<T, U>(xs: seq<T>, i: nat, f: T -> Result<U>)
    requires i < |xs|
    ensures Collect(xs[..i + 1], f) ==
      match Collect(xs[..i], f)
      case Failure(e) => Failure(e)
      case Success(init) =>
        match f(xs[i])
        case Failure(e) => Failure(e)
        case Success(a) => Success(init + [a])
  {
    assert xs[..i + 1][..i] == xs[..i];
  }
}
