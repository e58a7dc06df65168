/** Sequence facts shared by the relay model: the all-or-nothing collection
    of per-element conversion results, duplicate detection through a set, and
    strictly increasing index lists. */
module Sequences {
  import opened Wrappers

  /** The errors among `rs`, in element order. */
  function Errors<T, E>(rs: seq<Result<T, E>>): (es: seq<E>)
    ensures |es| == 0 <==> forall i :: 0 <= i < |rs| ==> rs[i].Success?
  {
    if |rs| == 0 then []
    else (if rs[0].Failure? then [rs[0].error] else []) + Errors(rs[1..])
  }

  /** Every element of `rs` as a success carrying the matching element of `xs`. */
  ghost predicate Wraps<T, E>(rs: seq<Result<T, E>>, xs: seq<T>)
  {
    |rs| == |xs| && forall i :: 0 <= i < |rs| ==> rs[i] == Success(xs[i])
  }

  /** Collecting an iterator of results into a result of a vector: the first
      failure in element order is returned; otherwise every value, in order. */
  function Collect<T, E>(rs: seq<Result<T, E>>): (r: Result<seq<T>, E>)
    ensures r.Success? <==> |Errors(rs)| == 0
    ensures r.Success? ==> Wraps(rs, r.value)
    ensures r.Failure? ==> r.error == Errors(rs)[0]
  {
    if |rs| == 0 then Success([])
    else
      match rs[0]
      case Failure(e) => Failure(e)
      case Success(x) =>
        match Collect(rs[1..])
        case Failure(e) => Failure(e)
        case Success(xs) => Success([x] + xs)
  }

  /** A vector of plain values, each wrapped as a successful conversion. */
  function Succeed<T, E>(xs: seq<T>): (rs: seq<Result<T, E>>)
    ensures Wraps(rs, xs)
  {
    seq(|xs|, i requires 0 <= i < |xs| => Success(xs[i]))
  }

  /** Collecting wrapped values gives the values back, and only those. */
  lemma CollectSucceed<T, E>(rs: seq<Result<T, E>>, xs: seq<T>)
    ensures Collect(rs) == Success(xs) <==> rs == Succeed(xs)
  {
    if Collect(rs) == Success(xs) {
      assert Wraps(rs, xs);
      assert rs == Succeed(xs);
    }
    if rs == Succeed(xs) {
      assert |Errors(rs)| == 0;
      var ys := Collect(rs).value;
      assert Wraps(rs, ys);
      assert ys == xs;
    }
  }

  /** No value occurs twice. */
  ghost predicate Distinct<T>(s: seq<T>)
  {
    forall i, j :: 0 <= i < j < |s| ==> s[i] != s[j]
  }

  /** The set of the values of `s`. */
  function Elements<T>(s: seq<T>): set<T>
  {
    set x | x in s
  }

  /** A sequence has as many distinct values as elements exactly when no
      value repeats. */
  lemma {:induction false} ElementsCardinality<T>(s: seq<T>)
    ensures |Elements(s)| <= |s|
    ensures |Elements(s)| == |s| <==> Distinct(s)
  {
    if |s| == 0 {
      assert Elements(s) == {};
    } else {
      var t := s[1..];
      ElementsCardinality(t);
      assert Elements(s) == {s[0]} + Elements(t);
      if s[0] in t {
        assert Elements(s) == Elements(t);
        var j :| 0 <= j < |t| && t[j] == s[0];
        assert s[0] == s[j + 1];
        assert !Distinct(s);
      } else {
        assert |Elements(s)| == |Elements(t)| + 1;
        if Distinct(t) {
          forall i, j | 0 <= i < j < |s|
            ensures s[i] != s[j]
          {
            if i == 0 {
              assert s[j] == t[j - 1];
            } else {
              assert s[i] == t[i - 1] && s[j] == t[j - 1];
            }
          }
        } else {
          var i, j :| 0 <= i < j < |t| && t[i] == t[j];
          assert s[i + 1] == s[j + 1];
        }
      }
    }
  }

  /** Every element is smaller than the next one. */
  ghost predicate AdjacentIncreasing(s: seq<nat>)
  {
    forall i :: 0 <= i < |s| - 1 ==> s[i] < s[i + 1]
  }

  /** Every element is smaller than every later one. */
  ghost predicate StrictlyIncreasing(s: seq<nat>)
  {
    forall i, j :: 0 <= i < j < |s| ==> s[i] < s[j]
  }

  /** Checking adjacent pairs is enough to order the whole sequence. */
  lemma {:induction false} AdjacentIncreasingIsIncreasing(s: seq<nat>)
    ensures AdjacentIncreasing(s) <==> StrictlyIncreasing(s)
  {
    if AdjacentIncreasing(s) && |s| > 1 {
      var t := s[1..];
      assert AdjacentIncreasing(t) by {
        forall i | 0 <= i < |t| - 1 ensures t[i] < t[i + 1] {
          assert t[i] == s[i + 1] && t[i + 1] == s[i + 2];
        }
      }
      AdjacentIncreasingIsIncreasing(t);
      forall i, j | 0 <= i < j < |s| ensures s[i] < s[j] {
        if i == 0 {
          assert s[0] < s[1];
          if j > 1 {
            assert s[1] == t[0] && s[j] == t[j - 1];
          }
        } else {
          assert s[i] == t[i - 1] && s[j] == t[j - 1];
        }
      }
    }
  }

  /** Two strictly increasing sequences with the same values are equal. */
  lemma {:induction false} IncreasingDeterminedByElements(a: seq<nat>, b: seq<nat>)
    requires StrictlyIncreasing(a) && StrictlyIncreasing(b)
    requires forall x :: x in a <==> x in b
    ensures a == b
  {
    // Either both are empty or neither is.
    if |a| > 0 { assert a[0] in b; }
    if |b| > 0 { assert b[0] in a; }
    if |a| > 0 {
      // The first element of each is the minimum of the common values.
      assert a[0] == b[0] by {
        assert a[0] in b && b[0] in a;
        var i :| 0 <= i < |b| && b[i] == a[0];
        var j :| 0 <= j < |a| && a[j] == b[0];
        assert b[0] <= b[i] && a[0] <= a[j];
      }
      var a', b' := a[1..], b[1..];
      forall x ensures x in a' <==> x in b' {
        if x in a' {
          var i :| 0 <= i < |a'| && a'[i] == x;
          assert a[i + 1] == x && a[0] < x;
          assert x in a;
          var j :| 0 <= j < |b| && b[j] == x;
          assert j != 0;
          assert b'[j - 1] == x;
        }
        if x in b' {
          var i :| 0 <= i < |b'| && b'[i] == x;
          assert b[i + 1] == x && b[0] < x;
          assert x in b;
          var j :| 0 <= j < |a| && a[j] == x;
          assert j != 0;
          assert a'[j - 1] == x;
        }
      }
      IncreasingDeterminedByElements(a', b');
      assert a == [a[0]] + a' && b == [b[0]] + b';
    }
  }
}
