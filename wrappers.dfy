/** Optional values and results that stand for Python's None and for raised exceptions. */
module Wrappers {

  datatype Option<+T> = None | Some(value: T)

  /** `Err` stands for an exception that the source does not catch where it arises. */
  datatype Result<+T> = Ok(value: T) | Err(error: string)

  /** A loop that computes one result per element and stops at the first exception: all the
      values, or the first error. */
  function AllOk<T>(rs: seq<Result<T>>): Result<seq<T>>
    decreases |rs|
  {
    if rs == [] then Ok([])
    else match AllOk(rs[..|rs| - 1])
      case Err(e) => Err(e)
      case Ok(front) =>
        match rs[|rs| - 1]
        case Err(e) => Err(e)
        case Ok(x) => Ok(front + [x])
  }

  /** Success means every element succeeded, and the values are the elements' values in order. */
  lemma {:induction false} AllOkShape<T>(rs: seq<Result<T>>)
    ensures AllOk(rs).Ok? <==> forall m :: 0 <= m < |rs| ==> rs[m].Ok?
    ensures AllOk(rs).Ok? ==>
              |AllOk(rs).value| == |rs| && forall m :: 0 <= m < |rs| ==> rs[m] == Ok(AllOk(rs).value[m])
    decreases |rs|
  {
    if rs != [] {
      var init := rs[..|rs| - 1];
      AllOkShape(init);
      assert forall m :: 0 <= m < |init| ==> init[m] == rs[m];
    }
  }

  /** The error is that of the first element that fails. */
  lemma {:induction false} AllOkFirstError<T>(rs: seq<Result<T>>, k: nat)
    requires k < |rs| && AllOk(rs[..k]).Ok? && rs[k].Err?
    ensures AllOk(rs) == Err(rs[k].error)
    decreases |rs|
  {
    var init := rs[..|rs| - 1];
    if k < |init| {
      assert init[..k] == rs[..k];
      AllOkFirstError(init, k);
    } else {
      assert init == rs[..k];
    }
  }

  /** Extending a successful prefix by one element. */
  lemma AllOkSnoc<T>(rs: seq<Result<T>>, k: nat)
    requires k < |rs| && AllOk(rs[..k]).Ok?
    ensures AllOk(rs[..k + 1]) == match rs[k]
                                  case Ok(x) => Ok(AllOk(rs[..k]).value + [x])
                                  case Err(e) => Err(e)
  {
    assert rs[..k + 1][..k] == rs[..k];
  }
}
