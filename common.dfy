/** Small building blocks shared by the reader and the wrapper: optional values, results
    that carry a failure, Ruby's `select` on arrays, and flattening of nested sequences. */
module Common {

  /** Ruby's `nil` versus a present value. */
  datatype Option<+T> = None | Some(value: T) {
    /** `x || default` for a value that may be nil. */
    function GetOr(default: T): T {
      if Some? then value else default
    }
  }

  /** A computation that either produces a value or fails with an error. */
  datatype Result<+T, +E> = Ok(value: T) | Err(error: E)

  /** Why an analytics call gives no result. Four are the ways the Ruby code raises at run
      time: a section that was never parsed (`nil.each`, `nil.select`), a missing cell
      that is downcased or matched (`nil.downcase`), an OS label without a version
      (`nil.captures`), and a negative `take`. `ZeroTotal` is the model's own: a
      percentage of a zero total, which Ruby computes in floating point as Infinity or
      NaN, is reported instead of being given a value. */
  datatype Fault = NoSection | NilCell(column: string) | NoVersion(name: string) | ZeroTotal | NegativeLimit(limit: int)

  /** `Array#select`: the elements of `s` that satisfy `f`, in their original order. */
  function Select<T>(s: seq<T>, f: T -> bool): (r: seq<T>)
    ensures |r| <= |s|
    ensures forall i :: 0 <= i < |r| ==> f(r[i])
  {
    if s == [] then []
    else Select(s[..|s| - 1], f) + (if f(s[|s| - 1]) then [s[|s| - 1]] else [])
  }

  /** An element is selected exactly when it occurs in the input and passes the test. */
  lemma {:induction false} SelectMember<T>(s: seq<T>, f: T -> bool, x: T)
    ensures x in Select(s, f) <==> x in s && f(x)
    decreases |s|
  {
    if s != [] {
      var s' := s[..|s| - 1];
      SelectMember(s', f, x);
      assert s == s' + [s[|s| - 1]];
    }
  }

  /** Selecting distributes over concatenation: the order of the input is kept. */
  lemma {:induction false} SelectAppend<T>(a: seq<T>, b: seq<T>, f: T -> bool)
    ensures Select(a + b, f) == Select(a, f) + Select(b, f)
    decreases |b|
  {
    if b == [] {
      assert a + b == a;
    } else {
      var b' := b[..|b| - 1];
      assert (a + b)[..|a + b| - 1] == a + b';
      assert (a + b)[|a + b| - 1] == b[|b| - 1];
      SelectAppend(a, b', f);
    }
  }

  /** Selecting twice with the same test is selecting once. */
  lemma {:induction false} SelectIdempotent<T>(s: seq<T>, f: T -> bool)
    ensures Select(Select(s, f), f) == Select(s, f)
    decreases |s|
  {
    if s != [] {
      var s' := s[..|s| - 1];
      var x := s[|s| - 1];
      SelectIdempotent(s', f);
      SelectAppend(Select(s', f), if f(x) then [x] else [], f);
      if f(x) {
        assert Select([x], f) == Select([], f) + [x];
      }
    }
  }

  /** When every element passes the test, nothing is dropped. */
  lemma {:induction false} SelectAll<T>(s: seq<T>, f: T -> bool)
    requires forall i :: 0 <= i < |s| ==> f(s[i])
    ensures Select(s, f) == s
    decreases |s|
  {
    if s != [] {
      SelectAll(s[..|s| - 1], f);
      assert s[..|s| - 1] + [s[|s| - 1]] == s;
    }
  }

  /** A test and its negation split a sequence: every element lands in exactly one of
      the two results. */
  lemma {:induction false} SelectComplement<T>(s: seq<T>, f: T -> bool, g: T -> bool)
    requires forall i :: 0 <= i < |s| ==> g(s[i]) == !f(s[i])
    ensures multiset(Select(s, f)) + multiset(Select(s, g)) == multiset(s)
    ensures |Select(s, f)| + |Select(s, g)| == |s|
    decreases |s|
  {
    if s != [] {
      var s' := s[..|s| - 1];
      SelectComplement(s', f, g);
      assert s == s' + [s[|s| - 1]];
    }
  }

  /** The concatenation of a sequence of sequences (Ruby's `flatten(1)` / `join`). */
  function Concat<T>(ss: seq<seq<T>>): (r: seq<T>)
    ensures ss == [] ==> r == []
  {
    if ss == [] then [] else Concat(ss[..|ss| - 1]) + ss[|ss| - 1]
  }

  lemma {:induction false} ConcatAppend<T>(a: seq<seq<T>>, b: seq<seq<T>>)
    ensures Concat(a + b) == Concat(a) + Concat(b)
    decreases |b|
  {
    if b == [] {
      assert a + b == a;
    } else {
      var b' := b[..|b| - 1];
      assert (a + b)[..|a + b| - 1] == a + b';
      assert (a + b)[|a + b| - 1] == b[|b| - 1];
      ConcatAppend(a, b');
    }
  }

  /** Selecting from a sequence extended by one element. */
  lemma SelectSnoc<T>(a: seq<T>, x: T, f: T -> bool)
    ensures Select(a + [x], f) == if f(x) then Select(a, f) + [x] else Select(a, f)
  {
    assert (a + [x])[..|a|] == a;
    assert Select(a, f) + [] == Select(a, f);
  }
}
