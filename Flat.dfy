/** `flat` (src/utils.ts and its identical copy src/utils/flat.ts): the
    concatenation of an array of arrays, built by pushing every element of
    every inner array, in order, onto a fresh accumulator. */
module Flat {
  /** The concatenation of the inner sequences, in order. */
  function Concat<T>(xss: seq<seq<T>>): seq<T>
    decreases |xss|
  {
    if xss == [] then [] else Concat(xss[..|xss| - 1]) + xss[|xss| - 1]
  }

  /** The sum of the inner lengths. */
  function TotalLength<T>(xss: seq<seq<T>>): nat
    decreases |xss|
  {
    if xss == [] then 0 else TotalLength(xss[..|xss| - 1]) + |xss[|xss| - 1]|
  }

  /** `flat` as written: two nested `for...of` loops pushing onto `acc`. The
      input is a value, so it cannot be changed, and `acc` is a fresh local. */
  method Flat<T>(arr: seq<seq<T>>) returns (acc: seq<T>)
    ensures acc == Concat(arr)
  {
    acc := [];
    var i := 0;
    while i < |arr|
      invariant 0 <= i <= |arr|
      invariant acc == Concat(arr[..i])
    {
      var sub := arr[i];
      var j := 0;
      while j < |sub|
        invariant 0 <= j <= |sub|
        invariant acc == Concat(arr[..i]) + sub[..j]
      {
        acc := acc + [sub[j]];
        j := j + 1;
      }
      assert sub[..j] == sub;
      assert arr[..i + 1][..i] == arr[..i];
      i := i + 1;
    }
    assert arr[..i] == arr;
  }

  // ---------------------------------------------------------------------------
  // Properties of the concatenation.

  /** Concatenation distributes over appending outer sequences. */
  lemma {:induction false} ConcatAppend<T>(xss: seq<seq<T>>, yss: seq<seq<T>>)
    ensures Concat(xss + yss) == Concat(xss) + Concat(yss)
    decreases |yss|
  {
    if yss == [] {
      assert xss + yss == xss;
    } else {
      var n := |yss| - 1;
      DropLastOfAppend(xss, yss);
      ConcatAppend(xss, yss[..n]);
    }
  }

  lemma DropLastOfAppend<T>(xs: seq<T>, ys: seq<T>)
    requires ys != []
    ensures (xs + ys)[..|xs + ys| - 1] == xs + ys[..|ys| - 1]
    ensures (xs + ys)[|xs + ys| - 1] == ys[|ys| - 1]
  {
  }

  /** The output length is the sum of the inner lengths. */
  lemma {:induction false} ConcatLength<T>(xss: seq<seq<T>>)
    ensures |Concat(xss)| == TotalLength(xss)
    decreases |xss|
  {
    if xss != [] {
      ConcatLength(xss[..|xss| - 1]);
    }
  }

  /** The output is empty exactly when every inner sequence is (in particular
      when there are none). */
  lemma {:induction false} ConcatEmpty<T>(xss: seq<seq<T>>)
    ensures Concat(xss) == [] <==> forall i :: 0 <= i < |xss| ==> xss[i] == []
    decreases |xss|
  {
    if xss != [] {
      var n := |xss| - 1;
      ConcatEmpty(xss[..n]);
      if Concat(xss) == [] {
        forall i | 0 <= i < |xss| ensures xss[i] == [] {
          if i < n {
            assert xss[..n][i] == xss[i];
          }
        }
      }
    }
  }

  /** Every element of the output comes from some inner sequence at the
      matching position, and the elements of inner sequence `i` sit right
      after those of the sequences before it. */
  lemma {:induction false} ConcatAt<T>(xss: seq<seq<T>>, i: nat, j: nat)
    requires i < |xss| && j < |xss[i]|
    ensures |Concat(xss[..i])| + j < |Concat(xss)|
    ensures Concat(xss)[|Concat(xss[..i])| + j] == xss[i][j]
  {
    ConcatAppend(xss[..i], xss[i..]);
    assert xss[..i] + xss[i..] == xss;
    assert xss[i..] == [xss[i]] + xss[i + 1..];
    ConcatAppend([xss[i]], xss[i + 1..]);
    assert [xss[i]][..0] == [];
  }

  /** An element is in the output exactly when some inner sequence holds it. */
  lemma {:induction false} ConcatMember<T>(xss: seq<seq<T>>, x: T)
    ensures x in Concat(xss) <==> exists i :: 0 <= i < |xss| && x in xss[i]
    decreases |xss|
  {
    if xss != [] {
      var n := |xss| - 1;
      var init := xss[..n];
      ConcatMember(init, x);
      assert Concat(xss) == Concat(init) + xss[n];
      if x in Concat(init) {
        var i :| 0 <= i < n && x in init[i];
        assert xss[i] == init[i];
      }
      if exists i :: 0 <= i < |xss| && x in xss[i] {
        var i :| 0 <= i < |xss| && x in xss[i];
        if i < n {
          assert init[i] == xss[i];
        }
      }
    }
  }
}
