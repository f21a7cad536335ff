/** Option and error-carrying result types shared by every profile. */
module Wrappers {

  datatype Option<+T> = None | Some(value: T)

  /** The Python exceptions a converter can raise on the modelled inputs. */
  datatype PyError =
    | IndexError  // a list index past the end of a table row
    | TypeError       // a regex match applied to a missing (None) cell
    | AttributeError  // a str method such as strip() called on a missing (None) cell

  /** The outcome of a converter that may raise: its value, or the exception it raises. */
  datatype Result<+T> = Ok(value: T) | Raise(error: PyError)
}

/** Left folds over sequences: the common shape of every record assembler's loop. */
module Scan {
  import opened Wrappers

  lemma AppendAssoc<T>(a: seq<T>, b: seq<T>, c: seq<T>)
    ensures (a + b) + c == a + (b + c)
  {
  }

  /** Feeds the elements of `xs` to `step`, left to right, starting in state `s`. */
  function Fold<S, X>(step: (S, X) -> S, s: S, xs: seq<X>): S
    decreases |xs|
  {
    if xs == [] then s else Fold(step, step(s, xs[0]), xs[1..])
  }

  /** Folding over a concatenation folds over the second part from where the first part left off. */
  lemma {:induction false} FoldAppend<S, X>(step: (S, X) -> S, s: S, xs: seq<X>, ys: seq<X>)
    ensures Fold(step, s, xs + ys) == Fold(step, Fold(step, s, xs), ys)
    decreases |xs|
  {
    if xs == [] {
      assert xs + ys == ys;
    } else {
      assert (xs + ys)[0] == xs[0];
      assert (xs + ys)[1..] == xs[1..] + ys;
      FoldAppend(step, step(s, xs[0]), xs[1..], ys);
    }
  }

  /** One more element is one more step: what a loop over `xs` needs at each iteration. */
  lemma FoldSnoc<S, X>(step: (S, X) -> S, s: S, xs: seq<X>, x: X)
    ensures Fold(step, s, xs + [x]) == step(Fold(step, s, xs), x)
  {
    FoldAppend(step, s, xs, [x]);
    assert Fold(step, Fold(step, s, xs), [x]) == Fold(step, step(Fold(step, s, xs), x), []);
  }

  /** Folding one more element of a sequence, as a loop does. */
  lemma FoldTake<S, X>(step: (S, X) -> S, s: S, xs: seq<X>, i: nat)
    requires i < |xs|
    ensures Fold(step, s, xs[..i + 1]) == step(Fold(step, s, xs[..i]), xs[i])
  {
    FoldSnoc(step, s, xs[..i], xs[i]);
    assert xs[..i + 1] == xs[..i] + [xs[i]];
  }

  /** A state the step function never leaves stays put, whatever follows. */
  lemma {:induction false} FoldFixpoint<S, X>(step: (S, X) -> S, s: S, xs: seq<X>)
    requires forall x :: step(s, x) == s
    ensures Fold(step, s, xs) == s
    decreases |xs|
  {
    if xs != [] {
      FoldFixpoint(step, step(s, xs[0]), xs[1..]);
    }
  }

  /** A property every step preserves holds of the final state. */
  lemma {:induction false} FoldInvariant<S, X>(step: (S, X) -> S, inv: S -> bool, s: S, xs: seq<X>)
    requires inv(s)
    requires forall t, x :: inv(t) ==> inv(step(t, x))
    ensures inv(Fold(step, s, xs))
    decreases |xs|
  {
    if xs != [] {
      FoldInvariant(step, inv, step(s, xs[0]), xs[1..]);
    }
  }

  /** The elements `f` keeps, each replaced by what `f` makes of it: a loop that appends one
      record per accepted input. */
  function FilterMap<X, Y>(f: X -> Option<Y>, xs: seq<X>): (ys: seq<Y>)
    ensures |ys| <= |xs|
    decreases |xs|
  {
    if xs == [] then []
    else (if f(xs[0]).Some? then [f(xs[0]).value] else []) + FilterMap(f, xs[1..])
  }

  lemma {:induction false} FilterMapAppend<X, Y>(f: X -> Option<Y>, xs: seq<X>, ys: seq<X>)
    ensures FilterMap(f, xs + ys) == FilterMap(f, xs) + FilterMap(f, ys)
    decreases |xs|
  {
    if xs == [] {
      assert xs + ys == ys;
    } else {
      var h: seq<Y> := if f(xs[0]).Some? then [f(xs[0]).value] else [];
      assert (xs + ys)[0] == xs[0];
      assert (xs + ys)[1..] == xs[1..] + ys;
      assert FilterMap(f, xs + ys) == h + FilterMap(f, xs[1..] + ys);
      FilterMapAppend(f, xs[1..], ys);
      assert h + (FilterMap(f, xs[1..]) + FilterMap(f, ys)) == (h + FilterMap(f, xs[1..])) + FilterMap(f, ys);
    }
  }

  /** One more input appends its record, if it has one. */
  lemma FilterMapSnoc<X, Y>(f: X -> Option<Y>, xs: seq<X>, x: X)
    ensures FilterMap(f, xs + [x]) == FilterMap(f, xs) + (if f(x).Some? then [f(x).value] else [])
  {
    FilterMapAppend(f, xs, [x]);
  }

  /** Filtering one more element of a sequence, as a loop does. */
  lemma FilterMapTake<X, Y>(f: X -> Option<Y>, xs: seq<X>, i: nat)
    requires i < |xs|
    ensures FilterMap(f, xs[..i + 1]) == FilterMap(f, xs[..i]) + (if f(xs[i]).Some? then [f(xs[i]).value] else [])
  {
    FilterMapSnoc(f, xs[..i], xs[i]);
    assert xs[..i + 1] == xs[..i] + [xs[i]];
  }

  /** When every input is accepted, the records correspond one to one with the inputs. */
  lemma {:induction false} FilterMapAll<X, Y>(f: X -> Option<Y>, xs: seq<X>)
    requires forall i :: 0 <= i < |xs| ==> f(xs[i]).Some?
    ensures |FilterMap(f, xs)| == |xs|
    ensures forall i :: 0 <= i < |xs| ==> FilterMap(f, xs)[i] == f(xs[i]).value
    decreases |xs|
  {
    if xs != [] {
      FilterMapAll(f, xs[1..]);
    }
  }

  /** Every record comes from some input that `f` accepts. */
  lemma {:induction false} FilterMapSound<X, Y>(f: X -> Option<Y>, xs: seq<X>)
    ensures forall y :: y in FilterMap(f, xs) ==> exists i :: 0 <= i < |xs| && f(xs[i]) == Some(y)
    decreases |xs|
  {
    if xs != [] {
      FilterMapSound(f, xs[1..]);
      forall y | y in FilterMap(f, xs) ensures exists i :: 0 <= i < |xs| && f(xs[i]) == Some(y) {
        if y in FilterMap(f, xs[1..]) {
          var i :| 0 <= i < |xs[1..]| && f(xs[1..][i]) == Some(y);
          assert f(xs[i + 1]) == Some(y);
        } else {
          assert f(xs[0]) == Some(y);
        }
      }
    }
  }

  /** Every accepted input contributes its record. */
  lemma {:induction false} FilterMapComplete<X, Y>(f: X -> Option<Y>, xs: seq<X>)
    ensures forall i :: 0 <= i < |xs| && f(xs[i]).Some? ==> f(xs[i]).value in FilterMap(f, xs)
    decreases |xs|
  {
    if xs != [] {
      FilterMapComplete(f, xs[1..]);
      forall i | 0 <= i < |xs| && f(xs[i]).Some? ensures f(xs[i]).value in FilterMap(f, xs) {
        if i > 0 {
          assert xs[i] == xs[1..][i - 1];
        }
      }
    }
  }

  /** The index of the first element at or after `k` that satisfies `p`. */
  function FindFirst<X>(p: X -> bool, xs: seq<X>, k: nat): (r: Option<nat>)
    requires k <= |xs|
    ensures r.Some? ==> k <= r.value < |xs| && p(xs[r.value])
    decreases |xs| - k
  {
    if k == |xs| then None
    else if p(xs[k]) then Some(k)
    else FindFirst(p, xs, k + 1)
  }

  /** FindFirst finds the first one: nothing before it satisfies `p`. */
  lemma {:induction false} FindFirstLeast<X>(p: X -> bool, xs: seq<X>, k: nat)
    requires k <= |xs|
    ensures forall j :: k <= j < |xs| && (FindFirst(p, xs, k).None? || j < FindFirst(p, xs, k).value) ==> !p(xs[j])
    decreases |xs| - k
  {
    if k < |xs| && !p(xs[k]) {
      FindFirstLeast(p, xs, k + 1);
    }
  }

  /** The first index where `p` holds, given that it holds there and nowhere before. */
  lemma FindFirstIs<X>(p: X -> bool, xs: seq<X>, i: nat)
    requires i < |xs| && p(xs[i]) && forall j :: 0 <= j < i ==> !p(xs[j])
    ensures FindFirst(p, xs, 0) == Some(i)
  {
    FindFirstLeast(p, xs, 0);
  }

  /** Nothing is found when `p` holds nowhere. */
  lemma FindFirstNone<X>(p: X -> bool, xs: seq<X>)
    requires forall j :: 0 <= j < |xs| ==> !p(xs[j])
    ensures FindFirst(p, xs, 0) == None
  {
  }
}
