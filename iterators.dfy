/**
 * The traversal side of the lazy views: the state of an iterator returned by
 * one of the views, what it will still yield (Peek), and how one call to
 * next() changes it (Step). The four kinds of state correspond to the
 * iterators the views obtain: the iterator of a caller's collection, and the
 * effect, as Iterables.java relies on it, of the helpers that concatenate,
 * cycle and limit iterators. Skipping has no state of its own: it advances an iterator in
 * place (Cursor.Skip).
 */
module Iterators {

  function Min(a: nat, b: nat): nat { if a <= b then a else b }

  /** The sequence without its first n elements (empty when it is shorter than n). */
  function Drop<T>(s: seq<T>, n: nat): (r: seq<T>)
    ensures |r| == if n <= |s| then |s| - n else 0
    ensures forall i :: 0 <= i < |r| ==> r[i] == s[n + i]
  {
    if n <= |s| then s[n..] else []
  }

  /** The state of one traversal. */
  datatype Iterator<T> =
      /** The iterator of a caller's list; `rest` is what it has not yet returned. */
    | ListIterator(rest: seq<T>)
      /** Iterators.concat: the iterators of the inputs, drained in order. */
    | ConcatIterator(iterators: seq<Iterator<T>>)
      /** Iterators.cycle over a buffer; `pos` is the index of the next element to return. */
    | CycleIterator(buffer: seq<T>, pos: nat)
      /** Iterators.limit: at most `remaining` more elements of `source`. */
    | LimitIterator(source: Iterator<T>, remaining: nat)

  /** The next k elements the iterator will return (fewer when it ends sooner). */
  function Peek<T>(it: Iterator<T>, k: nat): (r: seq<T>)
    ensures |r| <= k
    decreases it, 1
  {
    match it
    case ListIterator(rest) => rest[..Min(k, |rest|)]
    case ConcatIterator(its) => PeekAll(its, k)
    case CycleIterator(buffer, pos) => CyclePeek(buffer, pos, k)
    case LimitIterator(inner, remaining) => Peek(inner, Min(k, remaining))
  }

  /** The position after `pos` in a cyclic buffer: back to 0 after the last element. */
  function CycleNext(n: nat, pos: nat): nat
  {
    if pos + 1 < n then pos + 1 else 0
  }

  /** The next k elements of a cycle over `buffer` from `pos`: without end unless `pos` is outside it. */
  function CyclePeek<T>(buffer: seq<T>, pos: nat, k: nat): (r: seq<T>)
    ensures |r| == if pos < |buffer| then k else 0
    decreases k
  {
    if k == 0 || pos >= |buffer| then []
    else [buffer[pos]] + CyclePeek(buffer, CycleNext(|buffer|, pos), k - 1)
  }

  function PeekAll<T>(its: seq<Iterator<T>>, k: nat): (r: seq<T>)
    ensures |r| <= k
    decreases its, 0
  {
    if its == [] then []
    else
      var head := Peek(its[0], k);
      head + PeekAll(its[1..], k - |head|)
  }

  /** hasNext(): computed from the state, as each iterator kind answers it. */
  predicate HasMore<T>(it: Iterator<T>)
    decreases it, 1
  {
    match it
    case ListIterator(rest) => rest != []
    case ConcatIterator(its) => HasMoreAll(its)
    case CycleIterator(buffer, pos) => pos < |buffer|
    case LimitIterator(inner, remaining) => remaining > 0 && HasMore(inner)
  }

  predicate HasMoreAll<T>(its: seq<Iterator<T>>)
    decreases its, 0
  {
    its != [] && (HasMore(its[0]) || HasMoreAll(its[1..]))
  }

  /** next(): the element returned and the state afterwards. */
  function Step<T>(it: Iterator<T>): (T, Iterator<T>)
    requires HasMore(it)
    decreases it, 1
  {
    match it
    case ListIterator(rest) => (rest[0], ListIterator(rest[1..]))
    case ConcatIterator(its) =>
      var (x, its') := StepAll(its);
      (x, ConcatIterator(its'))
    case CycleIterator(buffer, pos) =>
      (buffer[pos], CycleIterator(buffer, CycleNext(|buffer|, pos)))
    case LimitIterator(inner, remaining) =>
      var (x, inner') := Step(inner);
      (x, LimitIterator(inner', remaining - 1))
  }

  /** The concatenating iterator polls the current input and moves past exhausted ones. */
  function StepAll<T>(its: seq<Iterator<T>>): (T, seq<Iterator<T>>)
    requires HasMoreAll(its)
    decreases its, 0
  {
    if HasMore(its[0]) then
      var (x, first) := Step(its[0]);
      (x, [first] + its[1..])
    else
      StepAll(its[1..])
  }

  /** Iterators.skip: call next() n times, or until the iterator is exhausted. */
  function Advance<T>(it: Iterator<T>, n: nat): Iterator<T>
    decreases n
  {
    if n == 0 || !HasMore(it) then it else Advance(Step(it).1, n - 1)
  }

  /** hasNext() answers true exactly when there is a next element to return. */
  lemma {:induction false} HasMorePeek<T>(it: Iterator<T>, k: nat)
    requires k > 0
    ensures HasMore(it) <==> Peek(it, k) != []
    decreases it, 1
  {
    match it
    case ListIterator(rest) =>
    case ConcatIterator(its) => HasMoreAllPeek(its, k);
    case CycleIterator(buffer, pos) =>
    case LimitIterator(inner, remaining) =>
      if remaining > 0 { HasMorePeek(inner, Min(k, remaining)); }
  }

  lemma {:induction false} HasMoreAllPeek<T>(its: seq<Iterator<T>>, k: nat)
    requires k > 0
    ensures HasMoreAll(its) <==> PeekAll(its, k) != []
    decreases its, 0
  {
    if its != [] {
      HasMorePeek(its[0], k);
      if !HasMore(its[0]) {
        HasMoreAllPeek(its[1..], k);
      }
    }
  }

  /** An exhausted iterator yields nothing more, however many elements are asked for. */
  lemma ExhaustedPeek<T>(it: Iterator<T>, k: nat)
    requires !HasMore(it)
    ensures Peek(it, k) == []
  {
    if k > 0 { HasMorePeek(it, k); }
  }

  /** next() returns the first of the upcoming elements and leaves exactly the others. */
  lemma {:induction false} StepPeek<T>(it: Iterator<T>, k: nat)
    requires HasMore(it)
    ensures Peek(it, k + 1) == [Step(it).0] + Peek(Step(it).1, k)
    decreases it, 1
  {
    match it
    case ListIterator(rest) => ListStepPeek(rest, k);
    case ConcatIterator(its) =>
      StepAllPeek(its, k);
      assert Step(it) == (StepAll(its).0, ConcatIterator(StepAll(its).1));
    case CycleIterator(buffer, pos) =>
    case LimitIterator(inner, remaining) =>
      StepPeek(inner, Min(k, remaining - 1));
      LimitStepPeek(inner, remaining, k);
      assert Step(it) == (Step(inner).0, LimitIterator(Step(inner).1, remaining - 1));
  }

  lemma ListStepPeek<T>(rest: seq<T>, k: nat)
    requires rest != []
    ensures Peek(ListIterator(rest), k + 1) == [rest[0]] + Peek(ListIterator(rest[1..]), k)
  {
    assert rest[..Min(k + 1, |rest|)] == [rest[0]] + rest[1..][..Min(k, |rest| - 1)];
  }

  /** The limiting case of StepPeek, given the fact for the limited iterator. */
  lemma LimitStepPeek<T>(inner: Iterator<T>, remaining: nat, k: nat)
    requires remaining > 0 && HasMore(inner)
    requires Peek(inner, Min(k, remaining - 1) + 1)
          == [Step(inner).0] + Peek(Step(inner).1, Min(k, remaining - 1))
    ensures Peek(LimitIterator(inner, remaining), k + 1)
         == [Step(inner).0] + Peek(LimitIterator(Step(inner).1, remaining - 1), k)
  {
    assert Min(k + 1, remaining) == Min(k, remaining - 1) + 1;
  }

  lemma {:induction false} StepAllPeek<T>(its: seq<Iterator<T>>, k: nat)
    requires HasMoreAll(its)
    ensures PeekAll(its, k + 1) == [StepAll(its).0] + PeekAll(StepAll(its).1, k)
    decreases its, 0
  {
    if HasMore(its[0]) {
      StepPeek(its[0], k);
      var (x, first) := Step(its[0]);
      var its' := [first] + its[1..];
      assert StepAll(its) == (x, its');
      assert its'[0] == first && its'[1..] == its[1..];
      var tail := Peek(first, k);
      assert Peek(its[0], k + 1) == [x] + tail;
      assert PeekAll(its, k + 1) == [x] + tail + PeekAll(its[1..], k - |tail|);
      assert PeekAll(its', k) == tail + PeekAll(its[1..], k - |tail|);
    } else {
      HasMorePeek(its[0], k + 1);
      assert PeekAll(its, k + 1) == PeekAll(its[1..], k + 1);
      assert StepAll(its) == StepAll(its[1..]);
      StepAllPeek(its[1..], k);
    }
  }

  lemma DropCons<T>(x: T, tail: seq<T>, n: nat)
    requires n > 0
    ensures Drop([x] + tail, n) == Drop(tail, n - 1)
  {
    if n - 1 <= |tail| {
      assert ([x] + tail)[n..] == tail[n - 1..];
    }
  }

  /** Skipping n elements leaves exactly what followed the first n (nothing if there were fewer). */
  lemma {:induction false} AdvancePeek<T>(it: Iterator<T>, n: nat, k: nat)
    ensures Peek(Advance(it, n), k) == Drop(Peek(it, n + k), n)
    decreases n
  {
    if n == 0 {
      assert Drop(Peek(it, k), 0) == Peek(it, k);
    } else if !HasMore(it) {
      AdvanceExhaustedPeek(it, n, k);
    } else {
      AdvancePeek(Step(it).1, n - 1, k);
      AdvanceStepPeek(it, n, k);
    }
  }

  /** Skipping on an exhausted iterator leaves it exhausted. */
  lemma AdvanceExhaustedPeek<T>(it: Iterator<T>, n: nat, k: nat)
    requires !HasMore(it)
    ensures Peek(Advance(it, n), k) == Drop(Peek(it, n + k), n) == []
  {
    assert Advance(it, n) == it;
    ExhaustedPeek(it, k);
    ExhaustedPeek(it, n + k);
  }

  /** The inductive step of AdvancePeek: skipping n is one next() and then skipping n - 1. */
  lemma AdvanceStepPeek<T>(it: Iterator<T>, n: nat, k: nat)
    requires n > 0 && HasMore(it)
    requires Peek(Advance(Step(it).1, n - 1), k) == Drop(Peek(Step(it).1, n - 1 + k), n - 1)
    ensures Peek(Advance(it, n), k) == Drop(Peek(it, n + k), n)
  {
    var x, it' := Step(it).0, Step(it).1;
    var tail := Peek(it', n - 1 + k);
    assert Advance(it, n) == Advance(it', n - 1);
    assert Peek(it, n + k) == [x] + tail by {
      StepPeek(it, n - 1 + k);
    }
    DropCons(x, tail, n);
  }

  /**
   * An iterator object as handed to the caller: each call to Next changes its
   * state in place. Two cursors never share state, so traversals do not
   * interfere.
   */
  class Cursor<T> {
    var state: Iterator<T>

    constructor (it: Iterator<T>)
      ensures state == it
    {
      state := it;
    }

    function HasNext(): (b: bool)
      reads this
      ensures b <==> Peek(state, 1) != []
    {
      HasMorePeek(state, 1);
      HasMore(state)
    }

    method Next() returns (x: T)
      requires HasNext()
      modifies this
      ensures (x, state) == Step(old(state))
      ensures [x] == Peek(old(state), 1)
    {
      StepPeek(state, 0);
      var (y, after) := Step(state);
      x, state := y, after;
    }

    /** Iterators.skip applied to this cursor: advance past up to n elements in place. */
    method Skip(n: nat)
      modifies this
      ensures state == Advance(old(state), n)
      ensures forall k: nat :: Peek(state, k) == Drop(Peek(old(state), n + k), n)
    {
      ghost var before := state;
      var i := 0;
      while i < n && HasNext()
        invariant 0 <= i <= n
        invariant Advance(before, n) == Advance(state, n - i)
      {
        var _ := Next();
        i := i + 1;
      }
      forall k: nat ensures Peek(state, k) == Drop(Peek(before, n + k), n) {
        AdvancePeek(before, n, k);
      }
    }
  }
}
