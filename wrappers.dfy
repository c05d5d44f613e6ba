/** Option and Result, the two shapes the pipeline uses for "no value" and "raised". */
module Wrappers {

  datatype Option<+T> = None | Some(value: T)

  datatype Result<+R, +E> = Success(value: R) | Failure(error: E)

  /** The values of the present options, in order: what a loop keeps when it appends only what it found. */
  function Somes<T>(outs: seq<Option<T>>): (r: seq<T>)
    ensures |r| <= |outs|
  {
    if |outs| == 0 then []
    else Somes(outs[..|outs| - 1]) + (if outs[|outs| - 1].Some? then [outs[|outs| - 1].value] else [])
  }

  /** One more outcome: its value, if any, comes last. */
  lemma SomesSnoc<T>(outs: seq<Option<T>>, o: Option<T>)
    ensures Somes(outs + [o]) == Somes(outs) + (if o.Some? then [o.value] else [])
  {
    assert (outs + [o])[..|outs|] == outs;
  }

  /** One more outcome of a longer run: its value, if any, comes last. */
  lemma SomesPrefix<T>(outs: seq<Option<T>>, i: nat)
    requires i < |outs|
    ensures Somes(outs[..i + 1]) == Somes(outs[..i]) + (if outs[i].Some? then [outs[i].value] else [])
  {
    assert outs[..i + 1][..i] == outs[..i];
  }

  /** Keeping the values of two runs of outcomes keeps them in order. */
  lemma {:induction false} SomesAppend<T>(a: seq<Option<T>>, c: seq<Option<T>>)
    ensures Somes(a + c) == Somes(a) + Somes(c)
    decreases |c|
  {
    if |c| == 0 {
      assert a + c == a;
    } else {
      var n := |c| - 1;
      SomesAppend(a, c[..n]);
      assert a + c == (a + c[..n]) + [c[n]];
      assert c == c[..n] + [c[n]];
      SomesSnoc(a + c[..n], c[n]);
      SomesSnoc(c[..n], c[n]);
    }
  }

  /** Every kept value is one of the outcomes. */
  lemma {:induction false} SomesFrom<T>(outs: seq<Option<T>>, x: T)
    requires x in Somes(outs)
    ensures exists i :: 0 <= i < |outs| && outs[i] == Some(x)
    decreases |outs|
  {
    var n := |outs| - 1;
    if x in Somes(outs[..n]) {
      SomesFrom(outs[..n], x);
      var i :| 0 <= i < n && outs[..n][i] == Some(x);
      assert outs[i] == Some(x);
    } else {
      assert outs[n] == Some(x);
    }
  }

  /** No outcome holds a value, so nothing is kept. */
  lemma {:induction false} SomesOfNones<T>(outs: seq<Option<T>>)
    requires forall i :: 0 <= i < |outs| ==> outs[i].None?
    ensures Somes(outs) == []
    decreases |outs|
  {
    if |outs| > 0 {
      var n := |outs| - 1;
      assert forall i :: 0 <= i < n ==> outs[..n][i] == outs[i];
      SomesOfNones(outs[..n]);
    }
  }
}
