/** Filter-and-map over a sequence: the shape of every loop in the core that
    pushes a result for some elements and skips the others. */
module Sequences {

  import opened Types

  /** The values `f` yields over `xs`, in order, skipping the absent ones. */
  function Collect<S, T>(f: S -> Option<T>, xs: seq<S>): (r: seq<T>)
    ensures |r| <= |xs|
    decreases |xs|
  {
    if xs == [] then []
    else
      var n := |xs| - 1;
      Collect(f, xs[..n]) + (if f(xs[n]).Some? then [f(xs[n]).value] else [])
  }

  /** Nothing is collected exactly when `f` yields nothing for every element. */
  lemma {:induction false} CollectEmpty<S, T>(f: S -> Option<T>, xs: seq<S>)
    ensures Collect(f, xs) == [] <==> forall k :: 0 <= k < |xs| ==> f(xs[k]).None?
    decreases |xs|
  {
    if xs != [] {
      var n := |xs| - 1;
      var init := xs[..n];
      CollectEmpty(f, init);
      if Collect(f, xs) == [] {
        forall k | 0 <= k < |xs| ensures f(xs[k]).None? {
          if k < n {
            assert init[k] == xs[k];
          }
        }
      }
      if forall k :: 0 <= k < |xs| ==> f(xs[k]).None? {
        forall k | 0 <= k < n ensures f(init[k]).None? {
          assert init[k] == xs[k];
        }
      }
    }
  }

  /** Every collected value is what `f` yields for some element. */
  lemma {:induction false} CollectFrom<S, T>(f: S -> Option<T>, xs: seq<S>)
    ensures forall t :: t in Collect(f, xs) ==> exists k :: 0 <= k < |xs| && f(xs[k]) == Some(t)
    decreases |xs|
  {
    if xs != [] {
      var n := |xs| - 1;
      var init := xs[..n];
      CollectFrom(f, init);
      forall t | t in Collect(f, xs)
        ensures exists k :: 0 <= k < |xs| && f(xs[k]) == Some(t)
      {
        if t in Collect(f, init) {
          var k :| 0 <= k < n && f(init[k]) == Some(t);
          assert init[k] == xs[k];
        } else {
          assert f(xs[n]) == Some(t);
        }
      }
    }
  }

  /** Every value `f` yields for an element is collected. */
  lemma {:induction false} CollectAll<S, T>(f: S -> Option<T>, xs: seq<S>, k: nat)
    requires k < |xs| && f(xs[k]).Some?
    ensures f(xs[k]).value in Collect(f, xs)
    decreases |xs|
  {
    var n := |xs| - 1;
    if k < n {
      CollectAll(f, xs[..n], k);
      assert xs[..n][k] == xs[k];
    }
  }

  /** Collecting keeps the order: it distributes over concatenation. */
  lemma {:induction false} CollectAppend<S, T>(f: S -> Option<T>, a: seq<S>, b: seq<S>)
    ensures Collect(f, a + b) == Collect(f, a) + Collect(f, b)
    decreases |b|
  {
    if b == [] {
      assert a + b == a;
    } else {
      var n := |b| - 1;
      assert (a + b)[..|a + b| - 1] == a + b[..n];
      assert (a + b)[|a + b| - 1] == b[n];
      CollectAppend(f, a, b[..n]);
    }
  }
}
