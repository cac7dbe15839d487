/**
 * The three `Aggregate` extension methods: a left fold over a sequence,
 * with the argument checks in the order the source makes them. A null
 * reference (the sequence or a delegate) is `None`.
 */
module Enumerables {
  import opened Wrappers
  import opened Exceptions

  const NoElements := "The source contains no elements."

  /** The fold that all three overloads compute: `f(...f(f(acc, s[0]), s[1])..., s[n-1])`. */
  function FoldLeft<A, T>(f: (A, T) -> A, acc: A, s: seq<T>): A
    decreases |s|
  {
    if s == [] then acc else FoldLeft(f, f(acc, s[0]), s[1..])
  }

  /** Folding a concatenation folds the second part from where the first ended. */
  lemma {:induction false} FoldLeftAppend<A, T>(f: (A, T) -> A, acc: A, s: seq<T>, t: seq<T>)
    ensures FoldLeft(f, acc, s + t) == FoldLeft(f, FoldLeft(f, acc, s), t)
    decreases |s|
  {
    if s != [] {
      assert (s + t)[0] == s[0] && (s + t)[1..] == s[1..] + t;
      FoldLeftAppend(f, f(acc, s[0]), s[1..], t);
      assert FoldLeft(f, acc, s + t) == FoldLeft(f, f(acc, s[0]), s[1..] + t);
      assert FoldLeft(f, acc, s) == FoldLeft(f, f(acc, s[0]), s[1..]);
    } else {
      assert s + t == t;
    }
  }

  /** One more element is one more application of `f`. */
  lemma FoldLeftSnoc<A, T>(f: (A, T) -> A, acc: A, s: seq<T>, x: T)
    ensures FoldLeft(f, acc, s + [x]) == f(FoldLeft(f, acc, s), x)
  {
    FoldLeftAppend(f, acc, s, [x]);
    assert [x][1..] == [];
  }

  /**
   * The seedless overload: the first element is the initial accumulator
   * and `func` folds in the others, in order. A null sequence is reported
   * before a null function, and both before an empty sequence.
   */
  method Aggregate<T>(source: Option<seq<T>>, func: Option<(T, T) -> T>) returns (r: Result<T, Exception>)
    ensures source.None? ==> r == Err(ArgumentNullException("source"))
    ensures source.Some? && func.None? ==> r == Err(ArgumentNullException("func"))
    ensures source.Some? && func.Some? && source.value == [] ==>
      r == Err(InvalidOperationException(NoElements))
    ensures source.Some? && func.Some? && source.value != [] ==>
      r == Ok(FoldLeft(func.value, source.value[0], source.value[1..]))
    ensures source.Some? && func.Some? && |source.value| == 1 ==> r == Ok(source.value[0])
  {
    if source.None? {
      return Err(ArgumentNullException("source"));
    }
    if func.None? {
      return Err(ArgumentNullException("func"));
    }
    var s, f := source.value, func.value;
    if |s| == 0 {
      return Err(InvalidOperationException(NoElements));
    }
    var current := s[0];
    var i := 1;
    while i < |s|
      invariant 1 <= i <= |s|
      invariant current == FoldLeft(f, s[0], s[1..i])
    {
      FoldLeftSnoc(f, s[0], s[1..i], s[i]);
      assert s[1..i + 1] == s[1..i] + [s[i]];
      current := f(current, s[i]);
      i := i + 1;
    }
    assert s[1..i] == s[1..];
    return Ok(current);
  }

  /** The seeded overload: the fold starts from `seed`. */
  function AggregateSeeded<A, T>(source: Option<seq<T>>, seed: A, func: Option<(A, T) -> A>): (r: Result<A, Exception>)
    ensures source.None? ==> r == Err(ArgumentNullException("source"))
    ensures source.Some? && func.None? ==> r == Err(ArgumentNullException("func"))
    ensures source.Some? && func.Some? ==> r.Ok?
    ensures source.Some? && func.Some? && source.value == [] ==> r == Ok(seed)
  {
    if source.None? then Err(ArgumentNullException("source"))
    else if func.None? then Err(ArgumentNullException("func"))
    else Ok(FoldLeft(func.value, seed, source.value))
  }

  /** The overload with a result selector, applied once to the final accumulator. */
  function AggregateSelect<A, T, R>(source: Option<seq<T>>, seed: A, func: Option<(A, T) -> A>,
                                   resultSelector: Option<A -> R>): (r: Result<R, Exception>)
    ensures source.None? ==> r == Err(ArgumentNullException("source"))
    ensures source.Some? && func.None? ==> r == Err(ArgumentNullException("func"))
    ensures source.Some? && func.Some? && resultSelector.None? ==>
      r == Err(ArgumentNullException("resultSelector"))
    ensures source.Some? && func.Some? && resultSelector.Some? ==>
      r == Ok(resultSelector.value(AggregateSeeded(source, seed, func).value))
  {
    if source.None? then Err(ArgumentNullException("source"))
    else if func.None? then Err(ArgumentNullException("func"))
    else if resultSelector.None? then Err(ArgumentNullException("resultSelector"))
    else Ok(resultSelector.value(FoldLeft(func.value, seed, source.value)))
  }

  /** Splitting the sequence: aggregating `s + t` continues from `s`'s result. */
  lemma SeededAppend<A, T>(s: seq<T>, t: seq<T>, seed: A, f: (A, T) -> A)
    ensures AggregateSeeded(Some(s + t), seed, Some(f)) ==
      AggregateSeeded(Some(t), AggregateSeeded(Some(s), seed, Some(f)).value, Some(f))
  {
    FoldLeftAppend(f, seed, s, t);
  }
}
