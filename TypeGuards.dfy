/** `notUndefined` (src/utils/type.ts), the type guard the database uses to
    drop missing results before flattening them. */
module TypeGuards {
  import opened Js

  /** A JavaScript value of type `T | undefined | null`. */
  datatype Nullable<+T> = Undefined | Null | Defined(value: T)

  /** The missing result of a lookup is `undefined`. */
  function FromOption<T>(o: Option<T>): (r: Nullable<T>)
    ensures r.Null? == false
    ensures r.Defined? <==> o.Some?
    ensures r.Defined? ==> r.value == o.value
  {
    match o
    case None => Undefined
    case Some(v) => Defined(v)
  }

  /** `x !== undefined && x !== null`: strict comparison, so a falsy value
      such as 0, '' or false is kept. */
  predicate NotUndefined<T>(x: Nullable<T>) {
    !x.Undefined? && !x.Null?
  }

  /** `xs.filter(notUndefined)`, with the guard's narrowing applied. */
  function KeepDefined<T>(xs: seq<Nullable<T>>): seq<T>
    decreases |xs|
  {
    if xs == [] then []
    else if NotUndefined(xs[0]) then [xs[0].value] + KeepDefined(xs[1..])
    else KeepDefined(xs[1..])
  }

  /** The guard is false exactly on undefined and null. */
  lemma GuardCases<T>(x: Nullable<T>)
    ensures NotUndefined(x) <==> x.Defined?
    ensures !NotUndefined<T>(Undefined) && !NotUndefined<T>(Null)
  {
  }

  /** Falsy values pass the guard. */
  lemma FalsyValuesPass()
    ensures NotUndefined(Defined(0)) && NotUndefined(Defined("")) && NotUndefined(Defined(false))
  {
  }

  /** The filter works piecewise, so the kept elements keep their order. */
  lemma {:induction false} KeepDefinedAppend<T>(xs: seq<Nullable<T>>, ys: seq<Nullable<T>>)
    ensures KeepDefined(xs + ys) == KeepDefined(xs) + KeepDefined(ys)
    decreases |xs|
  {
    if xs == [] {
      assert xs + ys == ys;
    } else {
      assert (xs + ys)[0] == xs[0];
      assert (xs + ys)[1..] == xs[1..] + ys;
      KeepDefinedAppend(xs[1..], ys);
    }
  }

  /** The filter never lengthens its input, is empty exactly when nothing is
      defined, and keeps everything when everything is defined. */
  lemma {:induction false} KeepDefinedLength<T>(xs: seq<Nullable<T>>)
    ensures |KeepDefined(xs)| <= |xs|
    ensures KeepDefined(xs) == [] <==> forall i :: 0 <= i < |xs| ==> !xs[i].Defined?
    ensures (forall i :: 0 <= i < |xs| ==> xs[i].Defined?) ==> |KeepDefined(xs)| == |xs|
    decreases |xs|
  {
    if xs != [] {
      KeepDefinedLength(xs[1..]);
      assert forall i :: 1 <= i < |xs| ==> xs[1..][i - 1] == xs[i];
    }
  }

  /** A single defined element is all that is kept when the others are
      missing. */
  lemma {:induction false} KeepDefinedSingle<T>(xs: seq<Nullable<T>>, k: nat)
    requires k < |xs| && xs[k].Defined?
    requires forall i :: 0 <= i < |xs| && i != k ==> !xs[i].Defined?
    ensures KeepDefined(xs) == [xs[k].value]
  {
    assert xs == xs[..k] + [xs[k]] + xs[k + 1..];
    KeepDefinedAppend(xs[..k] + [xs[k]], xs[k + 1..]);
    KeepDefinedAppend(xs[..k], [xs[k]]);
    KeepDefinedLength(xs[..k]);
    KeepDefinedLength(xs[k + 1..]);
    assert forall i :: 0 <= i < k ==> xs[..k][i] == xs[i];
    assert forall i :: k + 1 <= i < |xs| ==> xs[k + 1..][i - k - 1] == xs[i];
  }

  /** At least two elements are kept exactly when at least two are defined. */
  lemma {:induction false} KeepDefinedMany<T>(xs: seq<Nullable<T>>)
    ensures |KeepDefined(xs)| >= 2 <==> exists i, j :: 0 <= i < j < |xs| && xs[i].Defined? && xs[j].Defined?
    decreases |xs|
  {
    if xs != [] {
      var rest := xs[1..];
      KeepDefinedMany(rest);
      KeepDefinedLength(rest);
      if exists i, j :: 0 <= i < j < |xs| && xs[i].Defined? && xs[j].Defined? {
        var i, j :| 0 <= i < j < |xs| && xs[i].Defined? && xs[j].Defined?;
        assert rest[j - 1] == xs[j];
        if i > 0 {
          assert rest[i - 1] == xs[i];
        }
      }
      if xs[0].Defined? && |KeepDefined(rest)| >= 1 {
        var j :| 0 <= j < |rest| && rest[j].Defined?;
        assert xs[j + 1] == rest[j];
      }
      if !xs[0].Defined? && |KeepDefined(rest)| >= 2 {
        var i, j :| 0 <= i < j < |rest| && rest[i].Defined? && rest[j].Defined?;
        assert xs[i + 1] == rest[i] && xs[j + 1] == rest[j];
      }
    }
  }
}
