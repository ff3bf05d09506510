/** Types and sequence operations shared by the services: the .NET value
    types the core stores, its error outcomes, and the LINQ and
    `Array.Reverse` operations it applies to lists. */
module Common {

  datatype Option<T> = None | Some(value: T)

  /** The exceptions the modelled code can raise. */
  datatype Error =
    | InvalidOperation(message: string)  // InvalidOperationException
    | IndexOutOfRange                    // IndexOutOfRangeException

  /** A value, or the exception that replaced it. */
  datatype Result<T> = Success(value: T) | Failure(error: Error)

  /** A C# `long`. */
  type Long = x: int | -0x8000_0000_0000_0000 <= x < 0x8000_0000_0000_0000

  /** A `DateTime` (or `DateTimeOffset`) as its count of 100-nanosecond
      ticks; `new DateTime()` is tick 0. */
  type DateTime = int

  const TicksPerDay: int := 864_000_000_000

  /** `DateTime.AddDays` for a whole number of days. */
  function AddDays(t: DateTime, days: int): (r: DateTime)
    ensures days >= 0 ==> r >= t
    ensures days <= 0 ==> r <= t
    ensures r - t == days * TicksPerDay
  {
    t + days * TicksPerDay
  }

  /** `Enumerable.Where(...).ToList()`: the elements of `xs` that satisfy
      `p`, each as often as in `xs`, in their original order (FilterCounts,
      FilterMembers, FilterAppend). */
  function Filter<T>(xs: seq<T>, p: T -> bool): (r: seq<T>)
    ensures |r| <= |xs|
  {
    if xs == [] then [] else (if p(xs[0]) then [xs[0]] else []) + Filter(xs[1..], p)
  }

  /** Each element of `xs` satisfying `p` is kept as often as it occurs;
      nothing else is. */
  lemma {:induction false} FilterCounts<T(!new)>(xs: seq<T>, p: T -> bool)
    ensures forall x :: multiset(Filter(xs, p))[x] == if p(x) then multiset(xs)[x] else 0
  {
    if xs != [] {
      assert xs == [xs[0]] + xs[1..];
      FilterCounts(xs[1..], p);
    }
  }

  /** The elements kept are exactly the elements of `xs` satisfying `p`. */
  lemma FilterMembers<T(!new)>(xs: seq<T>, p: T -> bool)
    ensures forall x :: x in Filter(xs, p) <==> x in xs && p(x)
  {
    FilterCounts(xs, p);
    forall x ensures x in Filter(xs, p) <==> x in xs && p(x) {
      assert x in Filter(xs, p) <==> multiset(Filter(xs, p))[x] > 0;
      assert x in xs <==> multiset(xs)[x] > 0;
    }
  }

  /** `xs.Select(f).ToArray()` where `f` can throw: every result in order,
      or the failure of the first element on which `f` fails. */
  function SelectAll<T, U>(xs: seq<T>, f: T -> Result<U>): (r: Result<seq<U>>)
    ensures r.Success? <==> forall j :: 0 <= j < |xs| ==> f(xs[j]).Success?
    ensures r.Success? ==>
              |r.value| == |xs| && forall j :: 0 <= j < |xs| ==> r.value[j] == f(xs[j]).value
    ensures r.Failure? ==>
              exists j :: 0 <= j < |xs| && f(xs[j]) == Failure(r.error)
                          && forall k :: 0 <= k < j ==> f(xs[k]).Success?
  {
    if xs == [] then Success([])
    else
      var first := f(xs[0]);
      if first.Failure? then Failure(first.error)
      else
        var rest := SelectAll(xs[1..], f);
        assert forall j :: 1 <= j < |xs| ==> xs[j] == xs[1..][j - 1];
        if rest.Failure? then
          var j :| 0 <= j < |xs[1..]| && f(xs[1..][j]) == Failure(rest.error)
                   && forall k :: 0 <= k < j ==> f(xs[1..][k]).Success?;
          assert f(xs[j + 1]) == Failure(rest.error);
          rest
        else Success([first.value] + rest.value)
  }

  /** Filtering commutes with concatenation, so kept elements keep their
      relative order. */
  lemma {:induction false} FilterAppend<T>(a: seq<T>, b: seq<T>, p: T -> bool)
    ensures Filter(a + b, p) == Filter(a, p) + Filter(b, p)
  {
    if a == [] {
      assert a + b == b;
    } else {
      var head := if p(a[0]) then [a[0]] else [];
      assert (a + b)[0] == a[0];
      assert (a + b)[1..] == a[1..] + b;
      FilterAppend(a[1..], b, p);
      assert Filter(a + b, p) == head + (Filter(a[1..], p) + Filter(b, p));
      assert Filter(a, p) == head + Filter(a[1..], p);
    }
  }

  /** `Array.Reverse` / `List.Reverse`, as a value. */
  function Reversed<T>(s: seq<T>): (r: seq<T>)
    ensures |r| == |s|
    ensures forall i :: 0 <= i < |s| ==> r[i] == s[|s| - 1 - i]
  {
    if s == [] then [] else [s[|s| - 1]] + Reversed(s[..|s| - 1])
  }

  /** Reversing keeps every element and its multiplicity. */
  lemma {:induction false} ReversedPermutes<T>(s: seq<T>)
    ensures multiset(Reversed(s)) == multiset(s)
  {
    if s != [] {
      ReversedPermutes(s[..|s| - 1]);
      assert s == s[..|s| - 1] + [s[|s| - 1]];
    }
  }
}
