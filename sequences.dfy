/**
 * The two loop shapes the discovery backends share, as functions on
 * sequences: "push the entry of every element that yields one" and
 * "the first element that yields something, then `break`".
 */
module Sequences {
  import opened Wrappers

  /** An optional entry as the zero or one elements it pushes. */
  function Contribution<U>(e: Option<U>): (r: seq<U>)
    ensures |r| <= 1 && (r == [] <==> e.None?)
    ensures e.Some? ==> r[0] == e.value
  {
    match e
    case Some(u) => [u]
    case None => []
  }

  /** The entries yielded by the elements of `xs`, in the order of `xs`. */
  function FilterMap<T, U>(xs: seq<T>, f: T --> Option<U>): seq<U>
    requires forall x | x in xs :: f.requires(x)
  {
    if xs == [] then []
    else FilterMap(xs[..|xs| - 1], f) + Contribution(f(xs[|xs| - 1]))
  }

  /** Handling one more element appends its entry, if it yields one. */
  lemma FilterMapStep<T, U>(xs: seq<T>, i: nat, f: T --> Option<U>)
    requires i < |xs| && forall x | x in xs :: f.requires(x)
    ensures forall x | x in xs[..i + 1] :: f.requires(x)
    ensures FilterMap(xs[..i + 1], f) == FilterMap(xs[..i], f) + Contribution(f(xs[i]))
  {
    assert xs[..i + 1][..i] == xs[..i];
  }

  /** Every entry comes from some element. */
  lemma {:induction false} FilterMapSound<T, U>(xs: seq<T>, f: T --> Option<U>)
    requires forall x | x in xs :: f.requires(x)
    ensures forall k | 0 <= k < |FilterMap(xs, f)| ::
      exists i | 0 <= i < |xs| :: f(xs[i]) == Some(FilterMap(xs, f)[k])
  {
    if xs != [] {
      var n := |xs| - 1;
      var init := xs[..n];
      FilterMapSound(init, f);
      var p := FilterMap(init, f);
      var r := FilterMap(xs, f);
      assert r == p + Contribution(f(xs[n]));
      forall k | 0 <= k < |r|
        ensures exists i | 0 <= i < |xs| :: f(xs[i]) == Some(r[k])
      {
        if k < |p| {
          assert r[k] == p[k];
          var i :| 0 <= i < |init| && f(init[i]) == Some(p[k]);
          assert xs[i] == init[i];
          assert f(xs[i]) == Some(r[k]);
        } else {
          assert f(xs[n]) == Some(r[k]);
        }
      }
      assert forall k | 0 <= k < |r| :: exists i | 0 <= i < |xs| :: f(xs[i]) == Some(r[k]);
    } else {
      assert FilterMap(xs, f) == [];
    }
  }

  /** Every element that yields an entry has it in the result. */
  lemma {:induction false} FilterMapComplete<T, U>(xs: seq<T>, f: T --> Option<U>)
    requires forall x | x in xs :: f.requires(x)
    ensures forall i | 0 <= i < |xs| && f(xs[i]).Some? :: f(xs[i]).value in FilterMap(xs, f)
  {
    if xs != [] {
      var n := |xs| - 1;
      var init := xs[..n];
      FilterMapComplete(init, f);
      forall i | 0 <= i < |xs| && f(xs[i]).Some?
        ensures f(xs[i]).value in FilterMap(xs, f)
      {
        if i < n {
          assert xs[i] == init[i];
        }
      }
    }
  }

  /** An entry is in the result exactly when some element yields it. */
  lemma FilterMapMembers<T, U>(xs: seq<T>, f: T --> Option<U>)
    requires forall x | x in xs :: f.requires(x)
    ensures forall u :: u in FilterMap(xs, f) <==> exists i | 0 <= i < |xs| :: f(xs[i]) == Some(u)
  {
    FilterMapSound(xs, f);
    FilterMapComplete(xs, f);
    forall u | u in FilterMap(xs, f)
      ensures exists i | 0 <= i < |xs| :: f(xs[i]) == Some(u)
    {
      var k :| 0 <= k < |FilterMap(xs, f)| && FilterMap(xs, f)[k] == u;
    }
  }

  /** Entries whose keys are the distinct elements they come from have distinct keys. */
  lemma {:induction false} FilterMapDistinctBy<T, U>(xs: seq<T>, f: T --> Option<U>, key: U -> T)
    requires forall x | x in xs :: f.requires(x)
    requires forall i, j | 0 <= i < j < |xs| :: xs[i] != xs[j]
    requires forall i | 0 <= i < |xs| && f(xs[i]).Some? :: key(f(xs[i]).value) == xs[i]
    ensures forall k, l | 0 <= k < l < |FilterMap(xs, f)| :: key(FilterMap(xs, f)[k]) != key(FilterMap(xs, f)[l])
  {
    if xs != [] {
      var n := |xs| - 1;
      var init := xs[..n];
      FilterMapDistinctBy(init, f, key);
      FilterMapSound(init, f);
      var p := FilterMap(init, f);
      var r := FilterMap(xs, f);
      forall k, l | 0 <= k < l < |r|
        ensures key(r[k]) != key(r[l])
      {
        if l >= |p| {
          var i :| 0 <= i < |init| && f(init[i]) == Some(p[k]);
          assert xs[i] == init[i];
          assert f(xs[n]) == Some(r[l]);
        }
      }
    }
  }

  /** What the first element that yields something yields. */
  function FirstSome<T, U>(xs: seq<T>, f: T --> Option<U>): Option<U>
    requires forall x | x in xs :: f.requires(x)
  {
    if xs == [] then None
    else if f(xs[0]).Some? then f(xs[0])
    else FirstSome(xs[1..], f)
  }

  /** The search finds something exactly when some element yields something, and then what the first such element yields. */
  lemma {:induction false} FirstSomeIsFirst<T, U>(xs: seq<T>, f: T --> Option<U>)
    requires forall x | x in xs :: f.requires(x)
    ensures FirstSome(xs, f).None? <==> forall i | 0 <= i < |xs| :: f(xs[i]).None?
    ensures FirstSome(xs, f).Some? ==>
      exists i | 0 <= i < |xs| :: f(xs[i]) == FirstSome(xs, f) && forall j | 0 <= j < i :: f(xs[j]).None?
  {
    if xs != [] && f(xs[0]).None? {
      var rest := xs[1..];
      FirstSomeIsFirst(rest, f);
      assert forall i | 1 <= i < |xs| :: rest[i - 1] == xs[i];
      if FirstSome(xs, f).Some? {
        var i :| 0 <= i < |rest| && f(rest[i]) == FirstSome(xs, f) && forall j | 0 <= j < i :: f(rest[j]).None?;
        assert f(xs[i + 1]) == FirstSome(xs, f);
        assert forall j | 1 <= j < i + 1 :: f(xs[j]).None? by {
          forall j | 1 <= j < i + 1 ensures f(xs[j]).None? { assert xs[j] == rest[j - 1]; }
        }
      }
    }
  }

  /** Searching from position `i` gives what searching the whole sequence gives, while nothing before `i` yields. */
  lemma FirstSomeSkip<T, U>(xs: seq<T>, i: nat, f: T --> Option<U>)
    requires i < |xs| && forall x | x in xs :: f.requires(x)
    ensures forall x | x in xs[i..] :: f.requires(x)
    ensures FirstSome(xs[i..], f) == if f(xs[i]).Some? then f(xs[i]) else FirstSome(xs[i + 1..], f)
  {
    assert xs[i..][0] == xs[i];
    assert xs[i..][1..] == xs[i + 1..];
  }

  /** What the last element that yields something yields: the outcome of "every such element overwrites". */
  function LastSome<T, U>(xs: seq<T>, f: T --> Option<U>): Option<U>
    requires forall x | x in xs :: f.requires(x)
  {
    if xs == [] then None
    else if f(xs[|xs| - 1]).Some? then f(xs[|xs| - 1])
    else LastSome(xs[..|xs| - 1], f)
  }

  /** Handling one more element: it overwrites when it yields something. */
  lemma LastSomeStep<T, U>(xs: seq<T>, i: nat, f: T --> Option<U>)
    requires i < |xs| && forall x | x in xs :: f.requires(x)
    ensures forall x | x in xs[..i + 1] :: f.requires(x)
    ensures LastSome(xs[..i + 1], f) == if f(xs[i]).Some? then f(xs[i]) else LastSome(xs[..i], f)
  {
    assert xs[..i + 1][..i] == xs[..i];
  }

  /** The overwriting finds something exactly when some element yields something, and then what the last such element yields. */
  lemma {:induction false} LastSomeIsLast<T, U>(xs: seq<T>, f: T --> Option<U>)
    requires forall x | x in xs :: f.requires(x)
    ensures LastSome(xs, f).None? <==> forall i | 0 <= i < |xs| :: f(xs[i]).None?
    ensures LastSome(xs, f).Some? ==>
      exists i | 0 <= i < |xs| :: f(xs[i]) == LastSome(xs, f) && forall j | i < j < |xs| :: f(xs[j]).None?
  {
    if xs != [] {
      var n := |xs| - 1;
      var init := xs[..n];
      if f(xs[n]).None? {
        LastSomeIsLast(init, f);
        assert forall i | 0 <= i < n :: init[i] == xs[i];
        if LastSome(xs, f).Some? {
          var i :| 0 <= i < |init| && f(init[i]) == LastSome(xs, f) && forall j | i < j < |init| :: f(init[j]).None?;
          assert f(xs[i]) == LastSome(xs, f);
        }
      }
    }
  }

  /** The elements of `xs` without repetitions, each where it first occurs. */
  function Dedup<T(==)>(xs: seq<T>): seq<T> {
    if xs == [] then []
    else
      var n := |xs| - 1;
      var d := Dedup(xs[..n]);
      if xs[n] in d then d else d + [xs[n]]
  }

  /** Deduplicating keeps exactly the elements of `xs`, and no element twice. */
  lemma {:induction false} DedupSpec<T>(xs: seq<T>)
    ensures forall x :: x in Dedup(xs) <==> x in xs
    ensures forall i, j | 0 <= i < j < |Dedup(xs)| :: Dedup(xs)[i] != Dedup(xs)[j]
  {
    if xs != [] {
      var n := |xs| - 1;
      var d := Dedup(xs[..n]);
      DedupSpec(xs[..n]);
      assert xs == xs[..n] + [xs[n]];
      if xs[n] !in d {
        var r := d + [xs[n]];
        forall i, j | 0 <= i < j < |r| ensures r[i] != r[j] {
          assert r[i] == d[i];
          if j == |d| {
            assert d[i] in d;
          } else {
            assert r[j] == d[j];
          }
        }
      }
    }
  }

  /** The entries the push-if-new loop keeps: distinct, and exactly those some element yields. */
  lemma {:induction false} DedupFilterMap<T, U>(xs: seq<T>, f: T -> Option<U>)
    ensures forall u :: u in Dedup(FilterMap(xs, f)) <==> exists i | 0 <= i < |xs| :: f(xs[i]) == Some(u)
    ensures forall i, j | 0 <= i < j < |Dedup(FilterMap(xs, f))| :: Dedup(FilterMap(xs, f))[i] != Dedup(FilterMap(xs, f))[j]
  {
    DedupSpec(FilterMap(xs, f));
    FilterMapMembers(xs, f);
  }

  /** A property every yielded entry has holds of every entry of the result. */
  lemma {:induction false} FilterMapAll<T, U>(xs: seq<T>, f: T -> Option<U>, p: U -> bool)
    requires forall i | 0 <= i < |xs| && f(xs[i]).Some? :: p(f(xs[i]).value)
    ensures forall u | u in FilterMap(xs, f) :: p(u)
  {
    if xs != [] {
      var n := |xs| - 1;
      forall i | 0 <= i < n && f(xs[..n][i]).Some? ensures p(f(xs[..n][i]).value) {
        assert xs[..n][i] == xs[i];
      }
      FilterMapAll(xs[..n], f, p);
    }
  }

  /** Deduplicating keeps a property every element has. */
  lemma DedupAll<T>(xs: seq<T>, p: T -> bool)
    requires forall x | x in xs :: p(x)
    ensures forall x | x in Dedup(xs) :: p(x)
  {
    DedupSpec(xs);
  }

  /** A property every yielded entry has holds of every entry the push-if-new loop keeps. */
  lemma {:induction false} DedupFilterMapAll<T, U>(xs: seq<T>, f: T -> Option<U>, p: U -> bool)
    requires forall i | 0 <= i < |xs| && f(xs[i]).Some? :: p(f(xs[i]).value)
    ensures forall u | u in Dedup(FilterMap(xs, f)) :: p(u)
  {
    FilterMapAll(xs, f, p);
    DedupAll(FilterMap(xs, f), p);
  }

  /** Deduplicating one more optional entry pushes it when it is new. */
  lemma DedupStep<T>(xs: seq<T>, e: Option<T>)
    ensures Dedup(xs + Contribution(e)) ==
      if e.Some? && e.value !in Dedup(xs) then Dedup(xs) + [e.value] else Dedup(xs)
  {
    if e.Some? {
      assert (xs + [e.value])[..|xs|] == xs;
    } else {
      assert xs + [] == xs;
    }
  }

  /**
   * The loop "for each element, if it yields an entry not pushed yet, push
   * it": the deduplicated entries, in the order they first appear.
   */
  method PushNewEntries<T, U(==)>(xs: seq<T>, f: T -> Option<U>) returns (r: seq<U>)
    ensures r == Dedup(FilterMap(xs, f))
  {
    r := [];
    for i := 0 to |xs|
      invariant r == Dedup(FilterMap(xs[..i], f))
    {
      var e := f(xs[i]);
      FilterMapStep(xs, i, f);
      DedupStep(FilterMap(xs[..i], f), e);
      if e.Some? && e.value !in r {
        r := r + [e.value];
      }
    }
    assert xs[..|xs|] == xs;
  }
}
