/** Lists of checks that are made in order until one of them finds a problem. */
module Checks {
  import opened Wrappers

  /** A check that finds the problem if its condition is broken. */
  function When<T>(broken: bool, problem: T): Option<T> {
    if broken then Some(problem) else None
  }

  function Then<T>(a: Option<T>, b: Option<T>): Option<T> {
    if a.Some? then a else b
  }

  /** The first problem found. */
  function First<T>(checks: seq<Option<T>>): Option<T> {
    if checks == [] then None else Then(checks[0], First(checks[1..]))
  }

  /** None exactly if no check finds anything; else what one finds before which none finds anything. */
  lemma {:induction false} FirstMeaning<T>(checks: seq<Option<T>>)
    ensures First(checks).None? <==> forall i :: 0 <= i < |checks| ==> checks[i].None?
    ensures First(checks).Some? ==>
              exists i :: 0 <= i < |checks| && checks[i] == First(checks) && forall j :: 0 <= j < i ==> checks[j].None?
  {
    if checks != [] {
      var rest := checks[1..];
      FirstMeaning(rest);
      assert forall i :: 0 <= i < |rest| ==> rest[i] == checks[i + 1];
      if checks[0].None? && First(rest).Some? {
        var i :| 0 <= i < |rest| && rest[i] == First(rest) && forall j :: 0 <= j < i ==> rest[j].None?;
        assert checks[i + 1] == First(checks);
        assert forall j :: 1 <= j < i + 1 ==> checks[j] == rest[j - 1];
      }
    }
  }

  lemma {:induction false} FirstJoin<T>(a: seq<Option<T>>, b: seq<Option<T>>)
    ensures First(a + b) == Then(First(a), First(b))
  {
    if a == [] {
      assert a + b == b;
    } else {
      assert (a + b)[1..] == a[1..] + b;
      FirstJoin(a[1..], b);
    }
  }

  lemma FirstOfOne<T>(a: Option<T>)
    ensures First([a]) == a
  {
    assert [a][1..] == [];
  }

  lemma FirstOfTwo<T>(a: Option<T>, b: Option<T>)
    ensures First([a, b]) == Then(a, b)
  {
    FirstOfOne(b);
    assert [a, b][1..] == [b];
  }

  lemma FirstOfThree<T>(a: Option<T>, b: Option<T>, c: Option<T>)
    ensures First([a, b, c]) == Then(a, Then(b, c))
  {
    FirstOfTwo(b, c);
    assert [a, b, c][1..] == [b, c];
  }

  lemma FirstOfFour<T>(a: Option<T>, b: Option<T>, c: Option<T>, d: Option<T>)
    ensures First([a, b, c, d]) == Then(a, Then(b, Then(c, d)))
  {
    FirstOfThree(b, c, d);
    assert [a, b, c, d][1..] == [b, c, d];
  }

  lemma FirstOfSix<T>(a: Option<T>, b: Option<T>, c: Option<T>, d: Option<T>, e: Option<T>, f: Option<T>)
    ensures First([a, b, c, d, e, f]) == Then(a, Then(b, Then(c, Then(d, Then(e, f)))))
  {
    FirstOfFour(c, d, e, f);
    FirstOfTwo(a, b);
    FirstJoin([a, b], [c, d, e, f]);
    assert [a, b] + [c, d, e, f] == [a, b, c, d, e, f];
  }
}
