/** Failure-compatible Option and Result, so that the source's `?` operator can be
    written as Dafny's `:-`. */
module Wrappers {

  datatype Option<+T> = None | Some(value: T) {
    predicate IsFailure() { None? }

    function PropagateFailure<U>(): Option<U>
      requires None?
    {
      None
    }

    function Extract(): T
      requires Some?
    {
      value
    }
  }

  /** The source's `Result<T, Error>`: the error carries no information. */
  datatype Result<+T> = Ok(value: T) | Err {
    predicate IsFailure() { Err? }

    function PropagateFailure<U>(): Result<U>
      requires Err?
    {
      Err
    }

    function Extract(): T
      requires Ok?
    {
      value
    }
  }

  /** `option.ok_or(Error)` */
  function OkOr<T>(o: Option<T>): (r: Result<T>)
    ensures r.Ok? <==> o.Some?
    ensures r.Ok? ==> r.value == o.value
  {
    match o
    case Some(v) => Ok(v)
    case None => Err
  }
}

/** First-hit search over a sequence, the shape of the source's `iter().find(..)`
    and `iter().find_map(..)`. */
module Sequences {

  /** Index of the first element satisfying `p`, or `|s|` when there is none. */
  function FirstIndex<T>(s: seq<T>, p: T -> bool): (i: nat)
    ensures i <= |s|
    ensures i < |s| ==> p(s[i])
    ensures forall j :: 0 <= j < i ==> !p(s[j])
  {
    if s == [] then 0
    else if p(s[0]) then 0
    else 1 + FirstIndex(s[1..], p)
  }

  /** The search looks at nothing past the element it returns: two predicates that
      agree on the elements up to and including the hit give the same answer. */
  lemma {:induction false} FirstIndexLocal<T>(s: seq<T>, p: T -> bool, q: T -> bool)
    requires forall j :: 0 <= j < |s| && j <= FirstIndex(s, p) ==> p(s[j]) == q(s[j])
    ensures FirstIndex(s, q) == FirstIndex(s, p)
  {
    if s != [] && !p(s[0]) {
      assert !q(s[0]);
      forall j | 0 <= j < |s[1..]| && j <= FirstIndex(s[1..], p)
        ensures p(s[1..][j]) == q(s[1..][j])
      {
        assert s[1..][j] == s[j + 1];
      }
      FirstIndexLocal(s[1..], p, q);
    }
  }

  /** Removing an element that fails the test shifts the hit by one if it lay
      after that element, and leaves it in place if it lay before. */
  lemma {:induction false} FirstIndexSkip<T>(s: seq<T>, p: T -> bool, k: nat)
    requires k < |s| && !p(s[k])
    ensures var i := FirstIndex(s, p);
            var j := FirstIndex(s[..k] + s[k + 1..], p);
      && i != k
      && (i < k ==> j == i)
      && (i > k ==> j == i - 1)
  {
    var t := s[..k] + s[k + 1..];
    if k == 0 {
      assert t == s[1..];
    } else if !p(s[0]) {
      assert t[0] == s[0];
      assert t[1..] == s[1..][..k - 1] + s[1..][k..];
      FirstIndexSkip(s[1..], p, k - 1);
    } else {
      assert t[0] == s[0];
    }
  }
}
