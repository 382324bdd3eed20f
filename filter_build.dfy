/** Building one entry for every element a test accepts, in order, where building may
    throw and the first throw ends the run: the shape of a `for … of` loop whose body is
    `if (keep(x)) list.push(build(x))`. */
module FilterBuild {
  import opened JsValues

  /** The elements of `xs` that `keep` accepts, in order. */
  function Filter<A>(xs: seq<A>, keep: A -> bool): seq<A>
  {
    if xs == [] then []
    else
      var last := xs[|xs| - 1];
      Filter(xs[..|xs| - 1], keep) + (if keep(last) then [last] else [])
  }

  /** The list after the first `n` elements: the entries built so far, or the first
      throw among them. */
  function BuiltBelow<A, B, E>(xs: seq<A>, n: nat, keep: A -> bool, build: A -> Result<B, E>): Result<seq<B>, E>
    requires n <= |xs|
  {
    if n == 0 then Ok([])
    else
      match BuiltBelow(xs, n - 1, keep, build)
      case Err(e) => Err(e)
      case Ok(built) =>
        if !keep(xs[n - 1]) then Ok(built)
        else
          match build(xs[n - 1])
          case Err(e) => Err(e)
          case Ok(b) => Ok(built + [b])
  }

  /** Once thrown, the error is what the whole run ends with. */
  lemma {:induction false} ErrorPersists<A, B, E>(xs: seq<A>, i: nat, n: nat, keep: A -> bool, build: A -> Result<B, E>)
    requires i <= n <= |xs| && BuiltBelow(xs, i, keep, build).Err?
    ensures BuiltBelow(xs, n, keep, build) == BuiltBelow(xs, i, keep, build)
    decreases n - i
  {
    if i < n {
      ErrorPersists(xs, i, n - 1, keep, build);
    }
  }

  /** The run throws exactly when building some accepted element throws, and it throws
      that element's error. */
  lemma {:induction false} FailsIff<A, B, E>(xs: seq<A>, n: nat, keep: A -> bool, build: A -> Result<B, E>)
    requires n <= |xs|
    ensures BuiltBelow(xs, n, keep, build).Err? <==>
              exists i :: 0 <= i < n && keep(xs[i]) && build(xs[i]).Err?
    ensures BuiltBelow(xs, n, keep, build).Err? ==>
              exists i :: 0 <= i < n && keep(xs[i]) && build(xs[i]) == Err(BuiltBelow(xs, n, keep, build).error)
  {
    if n > 0 {
      FailsIff(xs, n - 1, keep, build);
      if BuiltBelow(xs, n - 1, keep, build).Ok? && BuiltBelow(xs, n, keep, build).Ok? {
        forall i | 0 <= i < n && keep(xs[i]) ensures build(xs[i]).Ok? {
          if i == n - 1 {
            assert build(xs[i]).Ok?;
          }
        }
      }
    }
  }

  /** A run that does not throw holds one entry per accepted element, in order, each
      built from that element. */
  lemma {:induction false} FollowsFilter<A, B, E>(xs: seq<A>, n: nat, keep: A -> bool, build: A -> Result<B, E>)
    requires n <= |xs| && BuiltBelow(xs, n, keep, build).Ok?
    ensures |BuiltBelow(xs, n, keep, build).value| == |Filter(xs[..n], keep)|
    ensures forall j :: 0 <= j < |Filter(xs[..n], keep)| ==>
              build(Filter(xs[..n], keep)[j]) == Ok(BuiltBelow(xs, n, keep, build).value[j])
  {
    if n > 0 {
      FollowsFilter(xs, n - 1, keep, build);
      assert xs[..n][..n - 1] == xs[..n - 1];
      assert xs[..n][n - 1] == xs[n - 1];
    }
  }

  /** The filter keeps exactly the accepted elements, each as often as it occurs. */
  lemma {:induction false} FilterSelect<A>(xs: seq<A>, keep: A -> bool)
    ensures forall x :: multiset(Filter(xs, keep))[x] == if keep(x) then multiset(xs)[x] else 0
  {
    if xs != [] {
      var front := xs[..|xs| - 1];
      FilterSelect(front, keep);
      assert xs == front + [xs[|xs| - 1]];
    }
  }

  /** The filter keeps the order of the elements. */
  lemma {:induction false} FilterConcat<A>(a: seq<A>, b: seq<A>, keep: A -> bool)
    ensures Filter(a + b, keep) == Filter(a, keep) + Filter(b, keep)
  {
    if b == [] {
      assert a + b == a;
    } else {
      var front := b[..|b| - 1];
      FilterConcat(a, front, keep);
      assert (a + b)[..|a + b| - 1] == a + front;
    }
  }
}
