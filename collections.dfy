/** Ordered, duplicate-free collections as the JavaScript code builds them: an
    array grown with `if (!a.includes(x)) a.push(x)`, and a `Set`, whose
    iteration order is the order of first insertion. Both are the same
    operation on a sequence, `AppendNew`. */
module Collections {

  /** No element occurs twice. */
  predicate Distinct<T(==)>(s: seq<T>) {
    forall i, j | 0 <= i < j < |s| :: s[i] != s[j]
  }

  /** Append `x` unless it is already present. */
  function AppendNew<T(==)>(s: seq<T>, x: T): (r: seq<T>)
    ensures x in r
    ensures s <= r && |r| <= |s| + 1
    ensures x in s ==> r == s
    ensures Distinct(s) ==> Distinct(r)
    ensures forall y | y in r :: y in s || y == x
  {
    if x in s then s else s + [x]
  }

  /** `AppendNew` every element of `xs`, in order. */
  function AddAll<T(==)>(acc: seq<T>, xs: seq<T>): seq<T>
    decreases xs
  {
    if xs == [] then acc else AddAll(AppendNew(acc, xs[0]), xs[1..])
  }

  /** The old collection is kept, in its order, at the front. */
  lemma {:induction false} AddAllPrefix<T>(acc: seq<T>, xs: seq<T>)
    ensures acc <= AddAll(acc, xs)
    decreases xs
  {
    if xs != [] {
      AddAllPrefix(AppendNew(acc, xs[0]), xs[1..]);
    }
  }

  /** Nothing is lost and nothing is invented. */
  lemma {:induction false} AddAllMembers<T>(acc: seq<T>, xs: seq<T>)
    ensures forall y :: y in AddAll(acc, xs) <==> y in acc || y in xs
    decreases xs
  {
    if xs != [] {
      AddAllMembers(AppendNew(acc, xs[0]), xs[1..]);
      assert xs == [xs[0]] + xs[1..];
    }
  }

  /** A duplicate-free collection stays duplicate-free. */
  lemma {:induction false} AddAllDistinct<T>(acc: seq<T>, xs: seq<T>)
    requires Distinct(acc)
    ensures Distinct(AddAll(acc, xs))
    decreases xs
  {
    if xs != [] {
      AddAllDistinct(AppendNew(acc, xs[0]), xs[1..]);
    }
  }

  /** Adding `a + b` is adding `a`, then `b`. */
  lemma {:induction false} AddAllSplit<T>(acc: seq<T>, a: seq<T>, b: seq<T>)
    ensures AddAll(acc, a + b) == AddAll(AddAll(acc, a), b)
    decreases a
  {
    if a == [] {
      assert a + b == b;
    } else {
      assert (a + b)[0] == a[0];
      assert (a + b)[1..] == a[1..] + b;
      AddAllSplit(AppendNew(acc, a[0]), a[1..], b);
    }
  }

  /** Adding one more element at the end of the input is one more `AppendNew`. */
  lemma AddAllSnoc<T>(acc: seq<T>, xs: seq<T>, x: T)
    ensures AddAll(acc, xs + [x]) == AppendNew(AddAll(acc, xs), x)
  {
    AddAllSplit(acc, xs, [x]);
    assert [x][1..] == [];
  }

  /** When everything offered is already present, nothing changes. */
  lemma {:induction false} AddAllPresent<T>(acc: seq<T>, xs: seq<T>)
    requires forall y :: y in xs ==> y in acc
    ensures AddAll(acc, xs) == acc
  {
    if xs != [] {
      assert xs[0] in xs;
      forall y | y in xs[1..] ensures y in acc {
        assert y in xs;
      }
      AddAllPresent(acc, xs[1..]);
    }
  }

  /** Adding the same elements a second time changes nothing. */
  lemma AddAllIdempotent<T>(acc: seq<T>, xs: seq<T>)
    ensures AddAll(AddAll(acc, xs), xs) == AddAll(acc, xs)
  {
    AddAllMembers(acc, xs);
    AddAllPresent(AddAll(acc, xs), xs);
  }

  /** Maps each element to a (possibly empty) run and joins the runs in order:
      `xs.flatMap(f)`, the shape of a filter that keeps or drops each element. */
  function FlatMap<T, U>(f: T -> seq<U>, xs: seq<T>): seq<U>
    decreases xs
  {
    if xs == [] then [] else f(xs[0]) + FlatMap(f, xs[1..])
  }

  /** One more element at the end contributes its run at the end. */
  lemma {:induction false} FlatMapSnoc<T, U>(f: T -> seq<U>, xs: seq<T>, x: T)
    ensures FlatMap(f, xs + [x]) == FlatMap(f, xs) + f(x)
    decreases xs
  {
    if xs == [] {
      assert xs + [x] == [x];
      assert [x][1..] == [];
    } else {
      assert (xs + [x])[0] == xs[0];
      assert (xs + [x])[1..] == xs[1..] + [x];
      FlatMapSnoc(f, xs[1..], x);
    }
  }
}
