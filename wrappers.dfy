/** Optional values and results with an error, shared by every module of the model. */
module Wrappers {

  /** A value that may be absent: a form field or a dictionary key that is not there. */
  datatype Option<+T> = None | Some(value: T) {
    function GetOr(default: T): T {
      match this
      case Some(v) => v
      case None => default
    }
  }

  /** The outcome of an operation that raises an exception in the source: `Err` carries what was raised. */
  datatype Result<+T, +E> = Ok(value: T) | Err(error: E)

  /** The first `n` outcomes of a sequence of steps that each may raise, run in order until one
      raises: the error of the first step that raises, or the values of all `n` steps. */
  function Collect<T, E>(rs: seq<Result<T, E>>, n: nat): (r: Result<seq<T>, E>)
    requires n <= |rs|
    ensures r.Ok? ==> |r.value| == n && forall j :: 0 <= j < n ==> rs[j].Ok? && r.value[j] == rs[j].value
    decreases n
  {
    if n == 0 then Ok([])
    else
      match Collect(rs, n - 1)
      case Err(e) => Err(e)
      case Ok(done) =>
        match rs[n - 1]
        case Err(e) => Err(e)
        case Ok(v) => Ok(done + [v])
  }

  /** The steps all succeed exactly when none of them raises. */
  lemma {:induction false} CollectOk<T, E>(rs: seq<Result<T, E>>, n: nat)
    requires n <= |rs|
    ensures Collect(rs, n).Ok? <==> forall j :: 0 <= j < n ==> rs[j].Ok?
    decreases n
  {
    if n > 0 {
      CollectOk(rs, n - 1);
    }
  }

  /** A failure reports the error of the first step that raises. */
  lemma {:induction false} CollectFirstError<T, E>(rs: seq<Result<T, E>>, n: nat)
    requires n <= |rs| && Collect(rs, n).Err?
    ensures exists j :: 0 <= j < n && rs[j] == Err(Collect(rs, n).error)
                        && forall j' :: 0 <= j' < j ==> rs[j'].Ok?
    decreases n
  {
    assert n != 0;
    var prev := Collect(rs, n - 1);
    if prev.Err? {
      assert Collect(rs, n) == prev;
      CollectFirstError(rs, n - 1);
    } else {
      assert forall j' :: 0 <= j' < n - 1 ==> rs[j'].Ok?;
      assert rs[n - 1] == Err(Collect(rs, n).error);
    }
  }

  /** Once one of the first `n` steps raises, running more steps keeps that error. */
  lemma {:induction false} CollectErrorStays<T, E>(rs: seq<Result<T, E>>, n: nat, m: nat)
    requires n <= m <= |rs| && Collect(rs, n).Err?
    ensures Collect(rs, m) == Collect(rs, n)
    decreases m
  {
    if n < m {
      CollectErrorStays(rs, n, m - 1);
    }
  }
}
