/** Converting lists element by element, where one panicking element panics the whole. */
module Outcomes {
  import opened Wrappers

  function MapAll<T, U>(xs: seq<T>, f: T -> Outcome<U>): (r: Outcome<seq<U>>)
    ensures r.Ok? ==> |r.value| == |xs| && forall i :: 0 <= i < |xs| ==> f(xs[i]) == Ok(r.value[i])
    ensures !r.Ok? ==> r.Panic? && exists i :: 0 <= i < |xs| && !f(xs[i]).Ok?
  {
    if xs == [] then Ok([])
    else
      match (f(xs[0]), MapAll(xs[1..], f))
      case (Ok(y), Ok(ys)) => Ok([y] + ys)
      case _ => Panic
  }

  lemma MapAllIs<T, U>(xs: seq<T>, f: T -> Outcome<U>, ys: seq<U>)
    requires |xs| == |ys| && forall i :: 0 <= i < |xs| ==> f(xs[i]) == Ok(ys[i])
    ensures MapAll(xs, f) == Ok(ys)
  {
    assert MapAll(xs, f).Ok?;
    assert MapAll(xs, f).value == ys;
  }

  function MapSeq<T, U>(xs: seq<T>, f: T -> U): (r: seq<U>)
    ensures |r| == |xs|
    ensures forall i :: 0 <= i < |xs| ==> r[i] == f(xs[i])
  {
    if xs == [] then [] else [f(xs[0])] + MapSeq(xs[1..], f)
  }

  /** The filling loop the list conversions share: make a list of the right length, then write each slot. */
  method FillAll<T, U>(xs: seq<T>, f: T -> Outcome<U>, blank: U) returns (r: Outcome<seq<U>>)
    ensures r == MapAll(xs, f)
  {
    var filled := new U[|xs|](_ => blank);
    for i := 0 to |xs|
      invariant forall j :: 0 <= j < i ==> f(xs[j]) == Ok(filled[j])
    {
      var y := f(xs[i]);
      if !y.Ok? {
        return Panic;
      }
      filled[i] := y.value;
    }
    MapAllIs(xs, f, filled[..]);
    r := Ok(filled[..]);
  }

  method FillEach<T, U>(xs: seq<T>, f: T -> U, blank: U) returns (r: seq<U>)
    ensures r == MapSeq(xs, f)
  {
    var filled := new U[|xs|](_ => blank);
    for i := 0 to |xs|
      invariant forall j :: 0 <= j < i ==> filled[j] == f(xs[j])
    {
      filled[i] := f(xs[i]);
    }
    r := filled[..];
  }
}
