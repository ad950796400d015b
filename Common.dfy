/** Small building blocks shared by every module of the model. */
module Common {

  datatype Option<+T> = None | Some(value: T)

  datatype Result<+T, +E> = Ok(value: T) | Err(error: E)

  datatype Outcome<+E> = Pass | Fail(error: E)

  /** A request parameter handed to a query builder's `when(...)`: the
      narrowing applies only when the value is truthy, so an absent value
      and the integer 0 both leave the query as it is. */
  predicate Given(p: Option<nat>)
  {
    p.Some? && p.value != 0
  }

  /** The rows of `s` that satisfy `p`, in their original order (a `where`
      clause applied to a table). */
  function Filter<T(!new)>(s: seq<T>, p: T -> bool): (r: seq<T>)
    ensures |r| <= |s|
    ensures forall x :: x in r <==> x in s && p(x)
  {
    if s == [] then []
    else if p(s[0]) then [s[0]] + Filter(s[1..], p)
    else Filter(s[1..], p)
  }

  /** When exactly the first `n` rows satisfy `p`, filtering keeps exactly
      those rows. */
  lemma FilterKeepsPrefix<T(!new)>(s: seq<T>, p: T -> bool, n: nat)
    requires n <= |s|
    requires forall i :: 0 <= i < |s| ==> (p(s[i]) <==> i < n)
    ensures forall x :: x in Filter(s, p) <==> x in s[..n]
  {
    forall x | x in s[..n] ensures p(x) {
      var i :| 0 <= i < n && s[..n][i] == x;
      assert s[i] == x;
    }
  }
}
