/**
 * Building a list by applying a step that may raise to each element in
 * order, stopping at the first exception: the shape of every `for` loop in
 * the core that appends to an output list.
 */
module Sequencing {
  import opened Wrappers
  import opened Models

  /** Apply `f` to each of `xs` in order; the first exception is the result. */
  function Traverse<A, B>(xs: seq<A>, f: A -> Result<B, PyError>): Result<seq<B>, PyError>
  {
    if xs == [] then Ok([])
    else
      match Traverse(xs[..|xs| - 1], f)
      case Err(e) => Err(e)
      case Ok(ys) =>
        match f(xs[|xs| - 1])
        case Err(e) => Err(e)
        case Ok(y) => Ok(ys + [y])
  }

  /** One more element: the step for it runs after all earlier ones. */
  lemma TraverseSnoc<A, B>(xs: seq<A>, x: A, f: A -> Result<B, PyError>)
    ensures Traverse(xs + [x], f) ==
      match Traverse(xs, f)
      case Err(e) => Err(e)
      case Ok(ys) => (match f(x) case Err(e) => Err(e) case Ok(y) => Ok(ys + [y]))
  {
    assert (xs + [x])[..|xs|] == xs;
  }

  /** The traversal succeeds exactly when every step does, and then yields one result per element, in order. */
  lemma {:induction false} TraverseOk<A, B>(xs: seq<A>, f: A -> Result<B, PyError>)
    ensures Traverse(xs, f).Ok? <==> forall k | 0 <= k < |xs| :: f(xs[k]).Ok?
    ensures Traverse(xs, f).Ok? ==>
      |Traverse(xs, f).value| == |xs| && forall k | 0 <= k < |xs| :: f(xs[k]) == Ok(Traverse(xs, f).value[k])
  {
    if xs != [] {
      var init := xs[..|xs| - 1];
      TraverseOk(init, f);
      assert forall k | 0 <= k < |init| :: init[k] == xs[k];
    }
  }

  /** Once a step has raised, later elements change nothing: the exception escapes. */
  lemma {:induction false} TraverseErrPersists<A, B>(xs: seq<A>, ys: seq<A>, f: A -> Result<B, PyError>)
    requires Traverse(xs, f).Err?
    ensures Traverse(xs + ys, f) == Traverse(xs, f)
  {
    if ys != [] {
      var init := ys[..|ys| - 1];
      TraverseErrPersists(xs, init, f);
      assert (xs + ys)[..|xs + ys| - 1] == xs + init;
    } else {
      assert xs + ys == xs;
    }
  }

  /** Traversing a concatenation traverses the first part, then the second. */
  lemma {:induction false} TraverseAppend<A, B>(xs: seq<A>, ys: seq<A>, f: A -> Result<B, PyError>)
    ensures Traverse(xs + ys, f) ==
      match Traverse(xs, f)
      case Err(e) => Err(e)
      case Ok(a) => (match Traverse(ys, f) case Err(e) => Err(e) case Ok(b) => Ok(a + b))
  {
    if ys == [] {
      assert xs + ys == xs;
      assert Traverse(ys, f) == Ok([]);
      if Traverse(xs, f).Ok? {
        assert Traverse(xs, f).value + [] == Traverse(xs, f).value;
      }
    } else {
      var init := ys[..|ys| - 1];
      TraverseAppend(xs, init, f);
      assert (xs + ys)[..|xs + ys| - 1] == xs + init;
      assert (xs + ys)[|xs + ys| - 1] == ys[|ys| - 1];
      match Traverse(xs, f) {
        case Err(e) =>
        case Ok(a) =>
          match Traverse(init, f) {
            case Err(e) =>
            case Ok(b) =>
              match f(ys[|ys| - 1]) {
                case Err(e) =>
                case Ok(y) => assert a + b + [y] == a + (b + [y]);
              }
          }
      }
    }
  }

  /** Apply `f` to each of `xs` in order and concatenate the lists it returns; the first exception is the result. */
  function Gather<A, B>(xs: seq<A>, f: A -> Result<seq<B>, PyError>): Result<seq<B>, PyError>
  {
    if xs == [] then Ok([])
    else
      match Gather(xs[..|xs| - 1], f)
      case Err(e) => Err(e)
      case Ok(ys) =>
        match f(xs[|xs| - 1])
        case Err(e) => Err(e)
        case Ok(zs) => Ok(ys + zs)
  }

  /** One more element: its list comes after all earlier ones. */
  lemma GatherSnoc<A, B>(xs: seq<A>, x: A, f: A -> Result<seq<B>, PyError>)
    ensures Gather(xs + [x], f) ==
      match Gather(xs, f)
      case Err(e) => Err(e)
      case Ok(ys) => (match f(x) case Err(e) => Err(e) case Ok(zs) => Ok(ys + zs))
  {
    assert (xs + [x])[..|xs|] == xs;
  }

  /** Once a step has raised, later elements change nothing. */
  lemma {:induction false} GatherErrPersists<A, B>(xs: seq<A>, ys: seq<A>, f: A -> Result<seq<B>, PyError>)
    requires Gather(xs, f).Err?
    ensures Gather(xs + ys, f) == Gather(xs, f)
  {
    if ys != [] {
      var init := ys[..|ys| - 1];
      GatherErrPersists(xs, init, f);
      assert (xs + ys)[..|xs + ys| - 1] == xs + init;
    } else {
      assert xs + ys == xs;
    }
  }

  /** Gathering a concatenation gathers the first part, then the second. */
  lemma {:induction false} GatherAppend<A, B>(xs: seq<A>, ys: seq<A>, f: A -> Result<seq<B>, PyError>)
    ensures Gather(xs + ys, f) ==
      match Gather(xs, f)
      case Err(e) => Err(e)
      case Ok(a) => (match Gather(ys, f) case Err(e) => Err(e) case Ok(b) => Ok(a + b))
  {
    if ys == [] {
      assert xs + ys == xs;
      if Gather(xs, f).Ok? {
        AppendNil(Gather(xs, f).value);
      }
    } else {
      var init := ys[..|ys| - 1];
      GatherAppend(xs, init, f);
      InitOfAppend(xs, ys);
      match Gather(xs, f) {
        case Err(e) =>
        case Ok(a) =>
          match Gather(init, f) {
            case Err(e) =>
            case Ok(b) =>
              match f(ys[|ys| - 1]) {
                case Err(e) =>
                case Ok(c) => AppendAssoc(a, b, c);
              }
          }
      }
    }
  }

  /** The prefix of `i + 1` elements is the prefix of `i` and one more step. */
  lemma TraverseStep<A, B>(xs: seq<A>, i: nat, f: A -> Result<B, PyError>)
    requires i < |xs|
    ensures Traverse(xs[..i + 1], f) ==
      match Traverse(xs[..i], f)
      case Err(e) => Err(e)
      case Ok(ys) => (match f(xs[i]) case Err(e) => Err(e) case Ok(y) => Ok(ys + [y]))
  {
    assert xs[..i + 1][..i] == xs[..i];
  }

  /** A prefix whose traversal raised decides the traversal of the whole. */
  lemma TraverseStop<A, B>(xs: seq<A>, i: nat, f: A -> Result<B, PyError>)
    requires i <= |xs| && Traverse(xs[..i], f).Err?
    ensures Traverse(xs, f) == Traverse(xs[..i], f)
  {
    TraverseErrPersists(xs[..i], xs[i..], f);
    assert xs[..i] + xs[i..] == xs;
  }

  /** The prefix of `i + 1` elements is the prefix of `i` and one more list. */
  lemma GatherStep<A, B>(xs: seq<A>, i: nat, f: A -> Result<seq<B>, PyError>)
    requires i < |xs|
    ensures Gather(xs[..i + 1], f) ==
      match Gather(xs[..i], f)
      case Err(e) => Err(e)
      case Ok(ys) => (match f(xs[i]) case Err(e) => Err(e) case Ok(zs) => Ok(ys + zs))
  {
    assert xs[..i + 1][..i] == xs[..i];
  }

  /** A prefix whose gathering raised decides the gathering of the whole. */
  lemma GatherStop<A, B>(xs: seq<A>, i: nat, f: A -> Result<seq<B>, PyError>)
    requires i <= |xs| && Gather(xs[..i], f).Err?
    ensures Gather(xs, f) == Gather(xs[..i], f)
  {
    GatherErrPersists(xs[..i], xs[i..], f);
    assert xs[..i] + xs[i..] == xs;
  }

  // ----- sequence identities, stated once for any element type ------------

  lemma AppendNil<T>(a: seq<T>)
    ensures a + [] == a
  {
  }

  lemma AppendAssoc<T>(a: seq<T>, b: seq<T>, c: seq<T>)
    ensures (a + b) + c == a + (b + c)
  {
  }

  lemma TakeAll<T>(a: seq<T>)
    ensures a[..|a|] == a
  {
  }

  lemma TakeOfTake<T>(a: seq<T>, i: nat)
    requires i < |a|
    ensures a[..i + 1][..i] == a[..i]
  {
  }

  lemma InitOfAppend<T>(a: seq<T>, b: seq<T>)
    requires b != []
    ensures (a + b)[..|a + b| - 1] == a + b[..|b| - 1]
    ensures (a + b)[|a + b| - 1] == b[|b| - 1]
  {
  }

  lemma AppendTakeNone<T>(a: seq<T>, b: seq<T>)
    ensures a + b[..0] == a
  {
  }

  lemma AppendTakeSnoc<T>(a: seq<T>, b: seq<T>, j: nat)
    requires j < |b|
    ensures a + b[..j + 1] == (a + b[..j]) + [b[j]]
  {
    assert b[..j + 1] == b[..j] + [b[j]];
  }

  lemma SplitAround<T>(s: seq<T>, i: nat)
    requires i < |s|
    ensures s == (s[..i] + [s[i]]) + s[i + 1..]
  {
  }

  lemma Regroup<T>(before: seq<T>, middle: seq<T>, after: seq<T>, k: nat)
    requires k <= |middle|
    ensures before + middle + after == (before + middle[..k]) + (middle[k..] + after)
  {
    assert middle == middle[..k] + middle[k..];
  }
}
