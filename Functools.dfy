/** `once` (src/utils/functools.ts): wrap a nullable function and its
    arguments into a zero-argument closure that invokes the function at most
    once successfully. */
module Functools {
  import opened Js

  /** What one invocation of the wrapped function does: return or throw. */
  datatype Outcome<+T> = Returned(value: T) | Threw(exception: Exception)

  /** The closure `once` returns, with its two captured variables: the
      parameter `fn`, which the closure overwrites with null, and the rest
      parameter `args`, which it only reads. */
  class OnceClosure<A, T> {
    var fn: Option<seq<A> -> Outcome<T>>
    const args: seq<A>

    constructor (fn: Option<seq<A> -> Outcome<T>>, args: seq<A>)
      ensures this.fn == fn && this.args == args
    {
      this.fn := fn;
      this.args := args;
    }

    /** One call of the closure. The array `args` is handed to `fn` as its
        single argument, not spread. A thrown exception escapes before
        `fn = null` runs, so `fn` stays armed for the next call; after a
        return `fn` is null and every later call yields undefined without
        invoking anything. */
    method Call() returns (r: Result<Option<T>>)
      modifies this
      ensures old(fn).None? ==> r == Ok(None) && fn == None
      ensures old(fn).Some? && old(fn).value(args).Returned? ==>
                r == Ok(Some(old(fn).value(args).value)) && fn == None
      ensures old(fn).Some? && old(fn).value(args).Threw? ==>
                r == Throw(old(fn).value(args).exception) && fn == old(fn)
    {
      var result: Option<T> := None;
      if fn.Some? {
        var outcome := fn.value(args);
        match outcome
        case Threw(e) =>
          r := Throw(e);
          return;
        case Returned(v) =>
          result := Some(v);
      }
      fn := None;
      r := Ok(result);
    }
  }

  /** `once(fn, ...args)`: every call allocates a new closure, so two
      closures never share the variable one of them overwrites. */
  method Once<A, T>(fn: Option<seq<A> -> Outcome<T>>, args: seq<A>) returns (c: OnceClosure<A, T>)
    ensures fresh(c)
    ensures c.fn == fn && c.args == args
  {
    c := new OnceClosure(fn, args);
  }

  /** Two calls in a row: a function that returns is invoked by the first
      call only, and the second yields undefined. */
  method CallTwice<A, T>(c: OnceClosure<A, T>) returns (first: Result<Option<T>>, second: Result<Option<T>>)
    requires c.fn.Some? && c.fn.value(c.args).Returned?
    modifies c
    ensures first == Ok(Some(old(c.fn).value(c.args).value))
    ensures second == Ok(None) && c.fn == None
  {
    first := c.Call();
    second := c.Call();
  }
}
