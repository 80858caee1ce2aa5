/** A loop that pushes what each step produces onto one list and stops at
    the first step that throws. */
module Chains {
  import opened Wrappers

  /** What running `step` over `xs` in order produces: every step's output
      concatenated, or the error of the first step that fails. */
  function Chain<A, B, E>(xs: seq<A>, step: A -> Result<seq<B>, E>): Result<seq<B>, E>
    decreases |xs|
  {
    if xs == [] then Ok([])
    else
      match Chain(xs[..|xs| - 1], step)
      case Err(e) => Err(e)
      case Ok(w) =>
        match step(xs[|xs| - 1])
        case Err(e) => Err(e)
        case Ok(t) => Ok(w + t)
  }

  /** One more step on a successful prefix. */
  lemma ChainStep<A, B, E>(xs: seq<A>, step: A -> Result<seq<B>, E>, i: nat, w: seq<B>, t: seq<B>)
    requires i < |xs| && Chain(xs[..i], step) == Ok(w) && step(xs[i]) == Ok(t)
    ensures Chain(xs[..i + 1], step) == Ok(w + t)
  {
    assert xs[..i + 1][..i] == xs[..i];
  }

  /** Once a prefix has failed, the whole run fails with the same error. */
  lemma {:induction false} ChainErrStays<A, B, E>(xs: seq<A>, step: A -> Result<seq<B>, E>, n: nat, e: E)
    requires n <= |xs| && Chain(xs[..n], step) == Err(e)
    ensures Chain(xs, step) == Err(e)
    decreases |xs| - n
  {
    if n < |xs| {
      assert xs[..n + 1][..n] == xs[..n];
      ChainErrStays(xs, step, n + 1, e);
    } else {
      assert xs[..n] == xs;
    }
  }

  /** A step that fails after a successful prefix decides the outcome. */
  lemma ChainStepErr<A, B, E>(xs: seq<A>, step: A -> Result<seq<B>, E>, i: nat, e: E)
    requires i < |xs| && Chain(xs[..i], step).Ok? && step(xs[i]) == Err(e)
    ensures Chain(xs, step) == Err(e)
  {
    assert xs[..i + 1][..i] == xs[..i];
    ChainErrStays(xs, step, i + 1, e);
  }

  /** The run succeeds exactly when every step does. */
  lemma {:induction false} ChainOk<A, B, E>(xs: seq<A>, step: A -> Result<seq<B>, E>)
    ensures Chain(xs, step).Ok? <==> forall i :: 0 <= i < |xs| ==> step(xs[i]).Ok?
    decreases |xs|
  {
    if xs != [] {
      var init := xs[..|xs| - 1];
      ChainOk(init, step);
      assert forall i :: 0 <= i < |init| ==> init[i] == xs[i];
    }
  }

  /** A failed run reports the error of its first failing step. */
  lemma {:induction false} ChainFirstErr<A, B, E>(xs: seq<A>, step: A -> Result<seq<B>, E>)
    requires Chain(xs, step).Err?
    ensures exists i :: 0 <= i < |xs| && step(xs[i]) == Err(Chain(xs, step).error) &&
                        forall j :: 0 <= j < i ==> step(xs[j]).Ok?
    decreases |xs|
  {
    var init, last := xs[..|xs| - 1], xs[|xs| - 1];
    assert forall i :: 0 <= i < |init| ==> init[i] == xs[i];
    if Chain(init, step).Err? {
      ChainFirstErr(init, step);
    } else {
      ChainOk(init, step);
      assert step(xs[|xs| - 1]) == Err(Chain(xs, step).error);
    }
  }

  /** An item is in a successful run's output exactly when some step produced it. */
  lemma {:induction false} ChainMembers<A, B, E>(xs: seq<A>, step: A -> Result<seq<B>, E>, b: B)
    requires Chain(xs, step).Ok?
    ensures b in Chain(xs, step).value <==>
      exists i :: 0 <= i < |xs| && step(xs[i]).Ok? && b in step(xs[i]).value
    decreases |xs|
  {
    if xs != [] {
      var init := xs[..|xs| - 1];
      ChainMembers(init, step, b);
      assert forall i :: 0 <= i < |init| ==> init[i] == xs[i];
    }
  }

  lemma ChainLast<A, B, E>(xs: seq<A>, step: A -> Result<seq<B>, E>)
    requires xs != [] && Chain(xs, step).Ok?
    ensures Chain(xs[..|xs| - 1], step).Ok? && step(xs[|xs| - 1]).Ok?
    ensures Chain(xs, step).value == Chain(xs[..|xs| - 1], step).value + step(xs[|xs| - 1]).value
  {
  }

  lemma ChainSnoc<A, B, E>(xs: seq<A>, x: A, step: A -> Result<seq<B>, E>)
    requires Chain(xs, step).Ok? && step(x).Ok?
    ensures Chain(xs + [x], step) == Ok(Chain(xs, step).value + step(x).value)
  {
    assert (xs + [x])[..|xs|] == xs;
  }

  lemma AppendAssoc<T>(a: seq<T>, b: seq<T>, c: seq<T>)
    ensures a + (b + c) == (a + b) + c
  {
  }

  lemma AppendSnoc<T>(a: seq<T>, b: seq<T>)
    requires b != []
    ensures a + b == (a + b[..|b| - 1]) + [b[|b| - 1]]
  {
    assert b == b[..|b| - 1] + [b[|b| - 1]];
  }

  /** Runs compose: running over `a + b` is running over `a`, then over `b`. */
  lemma {:induction false} ChainAppend<A, B, E>(a: seq<A>, b: seq<A>, step: A -> Result<seq<B>, E>)
    requires Chain(a, step).Ok? && Chain(b, step).Ok?
    ensures Chain(a + b, step) == Ok(Chain(a, step).value + Chain(b, step).value)
    decreases |b|
  {
    var wa := Chain(a, step).value;
    if b == [] {
      assert a + b == a;
      assert wa + [] == wa;
    } else {
      var b', last := b[..|b| - 1], b[|b| - 1];
      ChainLast(b, step);
      var wb' := Chain(b', step).value;
      var t := step(last).value;
      ChainAppend(a, b', step);
      ChainSnoc(a + b', last, step);
      AppendSnoc(a, b);
      assert wa + (wb' + t) == (wa + wb') + t;
    }
  }

  /** The items `sel` picks out of `xs`, in order. */
  function Pick<X, T>(xs: seq<X>, sel: X -> Option<T>): seq<T>
    decreases |xs|
  {
    if xs == [] then []
    else Pick(xs[..|xs| - 1], sel) + (match sel(xs[|xs| - 1]) case Some(t) => [t] case None => [])
  }

  /** Picking distributes over concatenation. */
  lemma {:induction false} PickAppend<X, T>(a: seq<X>, b: seq<X>, sel: X -> Option<T>)
    ensures Pick(a + b, sel) == Pick(a, sel) + Pick(b, sel)
    decreases |b|
  {
    if b == [] {
      assert a + b == a;
      assert Pick(a, sel) + [] == Pick(a, sel);
    } else {
      var b', last := b[..|b| - 1], b[|b| - 1];
      AppendSnoc(a, b);
      assert (a + b)[..|a + b| - 1] == a + b';
      PickAppend(a, b', sel);
      var tail := match sel(last) case Some(t) => [t] case None => [];
      AppendAssoc(Pick(a, sel), Pick(b', sel), tail);
    }
  }

  /** Nothing is picked from a sequence where `sel` picks nothing. */
  lemma {:induction false} PickNone<X, T>(xs: seq<X>, sel: X -> Option<T>)
    requires forall i :: 0 <= i < |xs| ==> sel(xs[i]).None?
    ensures Pick(xs, sel) == []
    decreases |xs|
  {
    if xs != [] {
      PickNone(xs[..|xs| - 1], sel);
    }
  }

  lemma PickOne<X, T>(x: X, sel: X -> Option<T>)
    ensures Pick([x], sel) == match sel(x) case Some(t) => [t] case None => []
  {
    assert [x][..0] == [];
  }

  /** The outputs of `count` successive calls of `g`, the first with argument `from`. */
  function Calls<T>(g: nat -> T, from: nat, count: nat): (r: seq<T>)
    ensures |r| == count
    decreases count
  {
    if count == 0 then [] else [g(from)] + Calls(g, from + 1, count - 1)
  }

  /** The `k`-th of the calls is the call with argument `from + k`. */
  lemma {:induction false} CallsAt<T>(g: nat -> T, from: nat, count: nat, k: nat)
    requires k < count
    ensures Calls(g, from, count)[k] == g(from + k)
    decreases count
  {
    if k > 0 {
      CallsAt(g, from + 1, count - 1, k - 1);
    }
  }

  lemma {:induction false} CallsAppend<T>(g: nat -> T, from: nat, a: nat, b: nat)
    ensures Calls(g, from, a) + Calls(g, from + a, b) == Calls(g, from, a + b)
    decreases a
  {
    if a == 0 {
      assert Calls(g, from, a) == [];
    } else {
      CallsAppend(g, from + 1, a - 1, b);
      AppendAssoc([g(from)], Calls(g, from + 1, a - 1), Calls(g, from + a, b));
    }
  }

  /** The outputs of `emit` over `xs`, in order, each item told its ordinal:
      the first gets `n`, and each next one `size` of its predecessor more. */
  function Spread<X, T>(xs: seq<X>, size: X -> nat, emit: (X, nat) -> seq<T>, n: nat): seq<T>
    decreases |xs|
  {
    if xs == [] then [] else emit(xs[0], n) + Spread(xs[1..], size, emit, n + size(xs[0]))
  }

  /** The ordinals `Spread` hands out: the sum of the sizes. */
  function Total<X>(xs: seq<X>, size: X -> nat): nat
    decreases |xs|
  {
    if xs == [] then 0 else size(xs[0]) + Total(xs[1..], size)
  }

  /** The outputs of `out` over `xs`, concatenated. */
  function Flat<X, T>(xs: seq<X>, out: X -> seq<T>): seq<T>
    decreases |xs|
  {
    if xs == [] then [] else out(xs[0]) + Flat(xs[1..], out)
  }

  /** A loop over `xs` that is at item `i` has the rest still to emit. */
  lemma SpreadAt<X, T>(xs: seq<X>, size: X -> nat, emit: (X, nat) -> seq<T>, i: nat, n: nat)
    requires i < |xs|
    ensures Spread(xs[i..], size, emit, n) == emit(xs[i], n) + Spread(xs[i + 1..], size, emit, n + size(xs[i]))
  {
    assert xs[i..][1..] == xs[i + 1..];
  }

  /** When what `sel` picks from each item's output does not depend on the
      ordinal, the picks of the whole are those outputs concatenated. */
  lemma {:induction false} SpreadPicked<X, T, U>(xs: seq<X>, size: X -> nat, emit: (X, nat) -> seq<T>, n: nat,
                                                 sel: T -> Option<U>, out: X -> seq<U>)
    requires forall i, k: nat :: 0 <= i < |xs| ==> Pick(emit(xs[i], k), sel) == out(xs[i])
    ensures Pick(Spread(xs, size, emit, n), sel) == Flat(xs, out)
    decreases |xs|
  {
    if xs != [] {
      var rest := xs[1..];
      assert forall i :: 0 <= i < |rest| ==> rest[i] == xs[i + 1];
      SpreadPicked(rest, size, emit, n + size(xs[0]), sel, out);
      PickAppend(emit(xs[0], n), Spread(rest, size, emit, n + size(xs[0])), sel);
    }
  }

  /** When each item's output holds one pick per ordinal it owns, namely
      `g` of that ordinal, the picks of the whole are `g` of every ordinal. */
  lemma {:induction false} SpreadCalls<X, T, U>(xs: seq<X>, size: X -> nat, emit: (X, nat) -> seq<T>, n: nat,
                                                sel: T -> Option<U>, g: nat -> U)
    requires forall i, k: nat {:trigger Pick(emit(xs[i], k), sel)} :: 0 <= i < |xs| ==> Pick(emit(xs[i], k), sel) == Calls(g, k, size(xs[i]))
    ensures Pick(Spread(xs, size, emit, n), sel) == Calls(g, n, Total(xs, size))
    decreases |xs|
  {
    if xs != [] {
      var x, rest := xs[0], xs[1..];
      var m := n + size(x);
      assert forall i :: 0 <= i < |rest| ==> rest[i] == xs[i + 1];
      var a, b := emit(x, n), Spread(rest, size, emit, m);
      assert Spread(xs, size, emit, n) == a + b;
      assert Total(xs, size) == size(x) + Total(rest, size);
      assert Pick(a, sel) == Calls(g, n, size(x));
      SpreadCalls(rest, size, emit, m, sel, g);
      PickAppend(a, b, sel);
      CallsAppend(g, n, size(x), Total(rest, size));
      assert Pick(a + b, sel) == Calls(g, n, size(x) + Total(rest, size));
    } else {
      assert Calls(g, n, Total(xs, size)) == [];
    }
  }

  /** When `sel` picks nothing from any item's output, it picks nothing from the whole. */
  lemma {:induction false} SpreadPickedNone<X, T, U>(xs: seq<X>, size: X -> nat, emit: (X, nat) -> seq<T>, n: nat,
                                                     sel: T -> Option<U>)
    requires forall i, k: nat :: 0 <= i < |xs| ==> Pick(emit(xs[i], k), sel) == []
    ensures Pick(Spread(xs, size, emit, n), sel) == []
    decreases |xs|
  {
    if xs != [] {
      var rest := xs[1..];
      assert forall i :: 0 <= i < |rest| ==> rest[i] == xs[i + 1];
      SpreadPickedNone(rest, size, emit, n + size(xs[0]), sel);
      PickAppend(emit(xs[0], n), Spread(rest, size, emit, n + size(xs[0])), sel);
    }
  }

  /** Every item of a concatenation comes from one of the parts. */
  lemma {:induction false} SpreadMembers<X, T>(xs: seq<X>, size: X -> nat, emit: (X, nat) -> seq<T>, n: nat, t: T)
    requires t in Spread(xs, size, emit, n)
    ensures exists i, k: nat :: 0 <= i < |xs| && t in emit(xs[i], k)
    decreases |xs|
  {
    if t !in emit(xs[0], n) {
      var rest := xs[1..];
      SpreadMembers(rest, size, emit, n + size(xs[0]), t);
      var i, k: nat :| 0 <= i < |rest| && t in emit(rest[i], k);
      assert rest[i] == xs[i + 1];
    }
  }

  /** What item `i` emits whatever its ordinal is in the whole. */
  lemma {:induction false} SpreadContains<X, T>(xs: seq<X>, size: X -> nat, emit: (X, nat) -> seq<T>, n: nat,
                                                i: nat, t: T)
    requires i < |xs| && forall k: nat :: t in emit(xs[i], k)
    ensures t in Spread(xs, size, emit, n)
    decreases i
  {
    if i > 0 {
      assert xs[1..][i - 1] == xs[i];
      SpreadContains(xs[1..], size, emit, n + size(xs[0]), i - 1, t);
    } else {
      assert t in emit(xs[0], n);
    }
  }
}
