/**
 * The lazy views of the Iterables utility class (concat, cycle, limit, skip)
 * and its eager reducers (toList, toSet, toString).
 *
 * A view is an immutable descriptor (Iterable). The caller's own lists are
 * named by a ListId; `lists` gives their contents at the moment a traversal
 * starts, so a view that refers to a list sees whatever the caller has put in
 * it since the view was built. The meaning of a view is Traverse(v, lists, k):
 * the first k elements a traversal yields. Every view except the cyclic one
 * refers to the caller's lists; the cyclic one owns a copy taken when it was
 * built. Start(v, lists) is the iterator state that iterator() returns, and
 * StartPeek proves that it yields exactly what Traverse says.
 */
module Iterables {
  import opened Iterators

  datatype Option<T> = None | Some(value: T)

  /** The two exceptions the factories throw before any traversal begins. */
  datatype Error = NullReference | IllegalArgument

  datatype Result<T> = Ok(value: T) | Err(error: Error)

  /** The identity of one of the caller's lists. */
  type ListId = nat

  /** The contents of every caller's list at one moment. */
  type Lists<T> = ListId -> seq<T>

  datatype Iterable<T> =
      /** A caller's list, iterated from its first element. */
    | ListIterable(list: ListId)
      /** ConcatIterable: its inputs, one after the other. */
    | ConcatIterable(iterables: seq<Iterable<T>>)
      /** CyclicIterable: a private copy of the elements, repeated without end. */
    | CyclicIterable(snapshot: seq<T>)
      /** LimitIterable: at most `limit` elements of `iterable`. */
    | LimitIterable(iterable: Iterable<T>, limit: nat)
      /** SkipIterable: `iterable` without its first `n` elements. */
    | SkipIterable(iterable: Iterable<T>, n: nat)

  /** The caller's lists a view reads when it is traversed. */
  function Sources<T>(v: Iterable<T>): set<ListId>
    decreases v, 1
  {
    match v
    case ListIterable(list) => {list}
    case ConcatIterable(parts) => SourcesAll(parts)
    case CyclicIterable(_) => {}
    case LimitIterable(src, _) => Sources(src)
    case SkipIterable(src, _) => Sources(src)
  }

  function SourcesAll<T>(parts: seq<Iterable<T>>): set<ListId>
    decreases parts, 0
  {
    if parts == [] then {} else Sources(parts[0]) + SourcesAll(parts[1..])
  }

  /** The first k elements of a buffer played again and again (nothing if it is empty). */
  function Repeat<T>(buffer: seq<T>, k: nat): (r: seq<T>)
    ensures |r| == if buffer == [] then 0 else k
    decreases k
  {
    if buffer == [] then []
    else if k <= |buffer| then buffer[..k]
    else buffer + Repeat(buffer, k - |buffer|)
  }

  /** The first k elements a traversal of v yields (all of them if there are fewer). */
  function Traverse<T>(v: Iterable<T>, lists: Lists<T>, k: nat): (r: seq<T>)
    ensures |r| <= k
    decreases v, 1
  {
    match v
    case ListIterable(list) => lists(list)[..Min(k, |lists(list)|)]
    case ConcatIterable(parts) => TraverseAll(parts, lists, k)
    case CyclicIterable(snapshot) => Repeat(snapshot, k)
    case LimitIterable(src, limit) => Traverse(src, lists, Min(k, limit))
    case SkipIterable(src, n) => Drop(Traverse(src, lists, n + k), n)
  }

  function TraverseAll<T>(parts: seq<Iterable<T>>, lists: Lists<T>, k: nat): (r: seq<T>)
    ensures |r| <= k
    decreases parts, 0
  {
    if parts == [] then []
    else
      var head := Traverse(parts[0], lists, k);
      head + TraverseAll(parts[1..], lists, k - |head|)
  }

  /** How many elements a traversal yields; None when it never ends. */
  function Size<T>(v: Iterable<T>, lists: Lists<T>): Option<nat>
    decreases v, 1
  {
    match v
    case ListIterable(list) => Some(|lists(list)|)
    case ConcatIterable(parts) => SizeAll(parts, lists)
    case CyclicIterable(snapshot) => if snapshot == [] then Some(0) else None
    case LimitIterable(src, limit) =>
      Some(match Size(src, lists) case None => limit case Some(m) => Min(m, limit))
    case SkipIterable(src, n) =>
      match Size(src, lists)
      case None => None
      case Some(m) => Some(if n <= m then m - n else 0)
  }

  function SizeAll<T>(parts: seq<Iterable<T>>, lists: Lists<T>): Option<nat>
    decreases parts, 0
  {
    if parts == [] then Some(0)
    else
      var first, rest := Size(parts[0], lists), SizeAll(parts[1..], lists);
      if first.Some? && rest.Some? then Some(first.value + rest.value) else None
  }

  predicate Finite<T>(v: Iterable<T>, lists: Lists<T>)
  {
    Size(v, lists).Some?
  }

  /** The length of a k-element prefix of a traversal of the given size. */
  function Cap(size: Option<nat>, k: nat): nat
  {
    match size
    case None => k
    case Some(m) => Min(k, m)
  }

  /** A traversal yields as many elements as its size says, and never ends when it has none. */
  lemma {:induction false} TraverseLength<T>(v: Iterable<T>, lists: Lists<T>, k: nat)
    ensures |Traverse(v, lists, k)| == Cap(Size(v, lists), k)
    decreases v, 1
  {
    match v
    case ListIterable(list) =>
    case ConcatIterable(parts) => TraverseAllLength(parts, lists, k);
    case CyclicIterable(snapshot) =>
    case LimitIterable(src, limit) => TraverseLength(src, lists, Min(k, limit));
    case SkipIterable(src, n) => TraverseLength(src, lists, n + k);
  }

  lemma {:induction false} TraverseAllLength<T>(parts: seq<Iterable<T>>, lists: Lists<T>, k: nat)
    ensures |TraverseAll(parts, lists, k)| == Cap(SizeAll(parts, lists), k)
    decreases parts, 0
  {
    if parts != [] {
      var head := Traverse(parts[0], lists, k);
      assert TraverseAll(parts, lists, k) == head + TraverseAll(parts[1..], lists, k - |head|);
      TraverseLength(parts[0], lists, k);
      TraverseAllLength(parts[1..], lists, k - |head|);
    }
  }

  /** Arithmetic for the modulo property of cycling. */
  lemma MulAtLeast(d: int, n: int)
    requires d >= 1 && n > 0
    ensures d * n >= n
  {
    var e := d - 1;
    assert d * n == e * n + n;
    assert e * n >= 0;
  }

  lemma ModUnique(x: int, n: int, q: int, r: int)
    requires n > 0 && 0 <= r < n && x == q * n + r
    ensures x % n == r
  {
    var q', r' := x / n, x % n;
    assert x == q' * n + r';
    assert (q - q') * n == r' - r;
    if q > q' {
      MulAtLeast(q - q', n);
    } else if q < q' {
      MulAtLeast(q' - q, n);
    }
  }

  lemma ModSub(i: nat, n: nat)
    requires n > 0 && i >= n
    ensures (i - n) % n == i % n
  {
    var q, r := i / n, i % n;
    assert i - n == (q - 1) * n + r;
    ModUnique(i - n, n, q - 1, r);
  }

  /** From `pos`, a cycle first yields the rest of the buffer in order... */
  lemma {:induction false} CyclePeekWithin<T>(buffer: seq<T>, pos: nat, k: nat)
    requires pos < |buffer| && k <= |buffer| - pos
    ensures CyclePeek(buffer, pos, k) == buffer[pos..pos + k]
    decreases k
  {
    if k > 0 {
      var next := CycleNext(|buffer|, pos);
      assert CyclePeek(buffer, pos, k) == [buffer[pos]] + CyclePeek(buffer, next, k - 1);
      if k > 1 {
        assert next == pos + 1;
        CyclePeekWithin(buffer, pos + 1, k - 1);
        assert buffer[pos..pos + k] == [buffer[pos]] + buffer[pos + 1..pos + k];
      }
    }
  }

  /** ...and then starts over from its first element. */
  lemma {:induction false} CyclePeekWrap<T>(buffer: seq<T>, pos: nat, k: nat)
    requires pos < |buffer| && k > |buffer| - pos
    ensures CyclePeek(buffer, pos, k) == buffer[pos..] + CyclePeek(buffer, 0, k - (|buffer| - pos))
    decreases |buffer| - pos
  {
    var next := CycleNext(|buffer|, pos);
    assert CyclePeek(buffer, pos, k) == [buffer[pos]] + CyclePeek(buffer, next, k - 1);
    if pos + 1 < |buffer| {
      CyclePeekWrap(buffer, pos + 1, k - 1);
      assert buffer[pos..] == [buffer[pos]] + buffer[pos + 1..];
    } else {
      assert buffer[pos..] == [buffer[pos]];
    }
  }

  /** A cycle started at the first element yields the buffer repeated. */
  lemma {:induction false} CyclePeekRepeat<T>(buffer: seq<T>, k: nat)
    ensures CyclePeek(buffer, 0, k) == Repeat(buffer, k)
    decreases k
  {
    if buffer != [] {
      if k <= |buffer| {
        CyclePeekWithin(buffer, 0, k);
      } else {
        CyclePeekWrap(buffer, 0, k);
        CyclePeekRepeat(buffer, k - |buffer|);
      }
    }
  }

  /** Element i of the repeated buffer is buffer[i mod |buffer|]. */
  lemma {:induction false} RepeatAt<T>(buffer: seq<T>, k: nat, i: nat)
    requires buffer != [] && i < k
    ensures Repeat(buffer, k)[i] == buffer[i % |buffer|]
    decreases k
  {
    var n := |buffer|;
    if k <= n {
      ModUnique(i, n, 0, i);
    } else {
      assert Repeat(buffer, k) == buffer + Repeat(buffer, k - n);
      if i >= n {
        RepeatAt(buffer, k - n, i - n);
        ModSub(i, n);
      } else {
        ModUnique(i, n, 0, i);
      }
    }
  }

  lemma DropPrefix<T>(a: seq<T>, b: seq<T>, n: nat)
    requires a <= b
    ensures Drop(a, n) <= Drop(b, n)
  {
  }

  /** Asking for more elements only extends what was yielded. */
  lemma {:induction false} TraversePrefix<T>(v: Iterable<T>, lists: Lists<T>, j: nat, k: nat)
    requires j <= k
    ensures Traverse(v, lists, j) <= Traverse(v, lists, k)
    decreases v, 1
  {
    match v
    case ListIterable(list) =>
    case ConcatIterable(parts) => TraverseAllPrefix(parts, lists, j, k);
    case CyclicIterable(snapshot) =>
      if snapshot != [] {
        forall i | 0 <= i < j ensures Repeat(snapshot, j)[i] == Repeat(snapshot, k)[i] {
          RepeatAt(snapshot, j, i);
          RepeatAt(snapshot, k, i);
        }
      }
    case LimitIterable(src, limit) => TraversePrefix(src, lists, Min(j, limit), Min(k, limit));
    case SkipIterable(src, n) =>
      TraversePrefix(src, lists, n + j, n + k);
      DropPrefix(Traverse(src, lists, n + j), Traverse(src, lists, n + k), n);
  }

  lemma {:induction false} TraverseAllPrefix<T>(parts: seq<Iterable<T>>, lists: Lists<T>, j: nat, k: nat)
    requires j <= k
    ensures TraverseAll(parts, lists, j) <= TraverseAll(parts, lists, k)
    decreases parts, 0
  {
    if parts != [] {
      var hj, hk := Traverse(parts[0], lists, j), Traverse(parts[0], lists, k);
      TraversePrefix(parts[0], lists, j, k);
      if |hj| == j {
        assert TraverseAll(parts[1..], lists, 0) == [];
      } else {
        TraverseLength(parts[0], lists, j);
        TraverseLength(parts[0], lists, k);
        assert hj == hk;
        TraverseAllPrefix(parts[1..], lists, j - |hj|, k - |hj|);
      }
    }
  }

  /** Everything a finite traversal yields. */
  function Elements<T>(v: Iterable<T>, lists: Lists<T>): (r: seq<T>)
    requires Finite(v, lists)
    ensures |r| == Size(v, lists).value
  {
    TraverseLength(v, lists, Size(v, lists).value);
    Traverse(v, lists, Size(v, lists).value)
  }

  /** Once a finite traversal has ended, asking for more yields nothing new. */
  lemma TraverseSaturates<T>(v: Iterable<T>, lists: Lists<T>, k: nat)
    requires Finite(v, lists) && Size(v, lists).value <= k
    ensures Traverse(v, lists, k) == Elements(v, lists)
  {
    TraversePrefix(v, lists, Size(v, lists).value, k);
    TraverseLength(v, lists, k);
  }

  /**
   * A traversal reads nothing but the view's own sources: changing any other
   * list leaves it as it was, and a view with no sources (a cycle) is not
   * affected by any change the caller makes after building it.
   */
  lemma {:induction false} SameSourcesSameTraversal<T>(v: Iterable<T>, before: Lists<T>, after: Lists<T>, k: nat)
    requires forall id :: id in Sources(v) ==> before(id) == after(id)
    ensures Traverse(v, before, k) == Traverse(v, after, k)
    ensures Size(v, before) == Size(v, after)
    decreases v, 1
  {
    match v
    case ListIterable(list) =>
    case ConcatIterable(parts) => SameSourcesSameTraverseAll(parts, before, after, k);
    case CyclicIterable(snapshot) =>
    case LimitIterable(src, limit) => SameSourcesSameTraversal(src, before, after, Min(k, limit));
    case SkipIterable(src, n) => SameSourcesSameTraversal(src, before, after, n + k);
  }

  lemma {:induction false} SameSourcesSameTraverseAll<T>(parts: seq<Iterable<T>>, before: Lists<T>, after: Lists<T>, k: nat)
    requires forall id :: id in SourcesAll(parts) ==> before(id) == after(id)
    ensures TraverseAll(parts, before, k) == TraverseAll(parts, after, k)
    ensures SizeAll(parts, before) == SizeAll(parts, after)
    decreases parts, 0
  {
    if parts != [] {
      assert SourcesAll(parts) == Sources(parts[0]) + SourcesAll(parts[1..]);
      SameSourcesSameTraversal(parts[0], before, after, k);
      var rest := k - |Traverse(parts[0], before, k)|;
      SameSourcesSameTraverseAll(parts[1..], before, after, rest);
      assert TraverseAll(parts, before, k) == Traverse(parts[0], before, k) + TraverseAll(parts[1..], before, rest);
      assert TraverseAll(parts, after, k) == Traverse(parts[0], after, k) + TraverseAll(parts[1..], after, rest);
    }
  }

  /** A view over a list is live: its traversal follows the list's current contents. */
  lemma LimitOfList<T>(list: ListId, limit: nat, lists: Lists<T>)
    ensures Finite(LimitIterable(ListIterable(list), limit), lists)
    ensures Elements(LimitIterable(ListIterable(list), limit), lists)
         == lists(list)[..Min(limit, |lists(list)|)]
  {
    var l, v := lists(list), LimitIterable(ListIterable(list), limit);
    var m := Min(|l|, limit);
    assert Size(v, lists) == Some(m);
    assert Elements(v, lists) == Traverse(v, lists, m) == Traverse(ListIterable(list), lists, m);
  }

  /** cycle: the k-th element is snapshot[k mod |snapshot|], and the traversal never ends. */
  lemma CycleModulo<T>(snapshot: seq<T>, lists: Lists<T>, k: nat)
    ensures snapshot == [] ==>
              Size(CyclicIterable(snapshot), lists) == Some(0) && Traverse(CyclicIterable(snapshot), lists, k) == []
    ensures snapshot != [] ==>
              Size(CyclicIterable(snapshot), lists) == None && |Traverse(CyclicIterable(snapshot), lists, k)| == k
    ensures snapshot != [] ==> forall i :: 0 <= i < k ==>
              Traverse(CyclicIterable(snapshot), lists, k)[i] == snapshot[i % |snapshot|]
  {
    if snapshot != [] {
      forall i | 0 <= i < k
        ensures Traverse(CyclicIterable(snapshot), lists, k)[i] == snapshot[i % |snapshot|]
      {
        RepeatAt(snapshot, k, i);
      }
    }
  }

  /** limit(cycle(S), k) yields exactly k elements S[0], S[1], ..., S[(k-1) mod |S|]; none if S is empty. */
  lemma LimitCycle<T>(snapshot: seq<T>, lists: Lists<T>, k: nat)
    ensures Finite(LimitIterable(CyclicIterable(snapshot), k), lists)
    ensures snapshot == [] ==> Elements(LimitIterable(CyclicIterable(snapshot), k), lists) == []
    ensures snapshot != [] ==> |Elements(LimitIterable(CyclicIterable(snapshot), k), lists)| == k
    ensures snapshot != [] ==> forall i :: 0 <= i < k ==>
              Elements(LimitIterable(CyclicIterable(snapshot), k), lists)[i] == snapshot[i % |snapshot|]
  {
    CycleModulo(snapshot, lists, k);
  }

  /** The concrete case: cycle("x", "y") limited to 5 yields x, y, x, y, x. */
  lemma CycleLimitFive(lists: Lists<string>)
    ensures Elements(LimitIterable(CyclicIterable(["x", "y"]), 5), lists) == ["x", "y", "x", "y", "x"]
  {
    var r := Elements(LimitIterable(CyclicIterable(["x", "y"]), 5), lists);
    LimitCycle(["x", "y"], lists, 5);
    assert r[0] == "x" && r[1] == "y" && r[2] == "x" && r[3] == "y" && r[4] == "x" by {
      assert 2 % 2 == 0 && 3 % 2 == 1 && 4 % 2 == 0;
    }
  }

  /** limit(S, n) yields the first min(n, |S|) elements of S in order; limit(S, 0) yields nothing. */
  lemma LimitElements<T>(src: Iterable<T>, lists: Lists<T>, limit: nat)
    ensures Finite(LimitIterable(src, limit), lists)
    ensures Elements(LimitIterable(src, 0), lists) == []
    ensures Finite(src, lists) ==>
              Elements(LimitIterable(src, limit), lists) == Elements(src, lists)[..Min(limit, |Elements(src, lists)|)]
  {
    if Finite(src, lists) {
      var m := Size(src, lists).value;
      TraversePrefix(src, lists, Min(limit, m), m);
    }
  }

  /** skip(S, n) yields S[min(n, |S|)..]: nothing at all once n >= |S|. */
  lemma SkipElements<T>(src: Iterable<T>, lists: Lists<T>, n: nat)
    requires Finite(src, lists)
    ensures Finite(SkipIterable(src, n), lists)
    ensures Elements(SkipIterable(src, n), lists) == Elements(src, lists)[Min(n, |Elements(src, lists)|)..]
    ensures n >= |Elements(src, lists)| ==> Elements(SkipIterable(src, n), lists) == []
  {
    var m := Size(src, lists).value;
    var rest := if n <= m then m - n else 0;
    TraverseSaturates(src, lists, n + rest);
  }

  function Flatten<T>(ss: seq<seq<T>>): seq<T>
  {
    if ss == [] then [] else ss[0] + Flatten(ss[1..])
  }

  function TotalLength<T>(ss: seq<seq<T>>): nat
  {
    if ss == [] then 0 else |ss[0]| + TotalLength(ss[1..])
  }

  lemma {:induction false} FlattenLength<T>(ss: seq<seq<T>>)
    ensures |Flatten(ss)| == TotalLength(ss)
  {
    if ss != [] { FlattenLength(ss[1..]); }
  }

  /** The elements of each of a list of finite views, in order. */
  function ElementsEach<T>(parts: seq<Iterable<T>>, lists: Lists<T>): (r: seq<seq<T>>)
    requires SizeAll(parts, lists).Some?
    ensures |r| == |parts|
  {
    if parts == [] then [] else [Elements(parts[0], lists)] + ElementsEach(parts[1..], lists)
  }

  /** One step of concat: the first input's elements, then those of the remaining inputs. */
  lemma ConcatCons<T>(first: Iterable<T>, rest: seq<Iterable<T>>, lists: Lists<T>)
    requires Finite(first, lists) && Finite(ConcatIterable(rest), lists)
    ensures Finite(ConcatIterable([first] + rest), lists)
    ensures Elements(ConcatIterable([first] + rest), lists)
         == Elements(first, lists) + Elements(ConcatIterable(rest), lists)
  {
    var parts := [first] + rest;
    assert parts[0] == first && parts[1..] == rest;
    var a, b := Size(first, lists).value, SizeAll(rest, lists).value;
    assert Size(ConcatIterable(parts), lists) == Some(a + b);
    TraverseSaturates(first, lists, a + b);
    var head := Traverse(first, lists, a + b);
    assert |head| == a;
    assert Elements(ConcatIterable(parts), lists) == TraverseAll(parts, lists, a + b);
    assert TraverseAll(parts, lists, a + b) == head + TraverseAll(rest, lists, b);
    assert Elements(ConcatIterable(rest), lists) == TraverseAll(rest, lists, b);
  }

  /**
   * concat yields all elements of its first input, then all of the second,
   * and so on, in encounter order; its length is the sum of theirs, and with
   * no inputs it yields nothing.
   */
  lemma {:induction false} ConcatElements<T>(parts: seq<Iterable<T>>, lists: Lists<T>)
    requires Finite(ConcatIterable(parts), lists)
    ensures Elements(ConcatIterable(parts), lists) == Flatten(ElementsEach(parts, lists))
    ensures |Elements(ConcatIterable(parts), lists)| == TotalLength(ElementsEach(parts, lists))
    ensures parts == [] ==> Elements(ConcatIterable(parts), lists) == []
    decreases parts
  {
    if parts != [] {
      assert SizeAll(parts, lists).Some?;
      assert Finite(ConcatIterable(parts[1..]), lists);
      ConcatElements(parts[1..], lists);
      assert [parts[0]] + parts[1..] == parts;
      ConcatCons(parts[0], parts[1..], lists);
      assert ElementsEach(parts, lists)[1..] == ElementsEach(parts[1..], lists);
    }
    FlattenLength(ElementsEach(parts, lists));
  }

  /** The concrete form: concat(A, B, C) yields A, then B, then C. */
  lemma ConcatThree<T>(a: Iterable<T>, b: Iterable<T>, c: Iterable<T>, lists: Lists<T>)
    requires Finite(a, lists) && Finite(b, lists) && Finite(c, lists)
    ensures Finite(ConcatIterable([a, b, c]), lists)
    ensures Elements(ConcatIterable([a, b, c]), lists)
         == Elements(a, lists) + Elements(b, lists) + Elements(c, lists)
  {
    var ea, eb, ec := Elements(a, lists), Elements(b, lists), Elements(c, lists);
    assert Finite(ConcatIterable([c]), lists) && Elements(ConcatIterable([c]), lists) == ec by {
      assert Elements(ConcatIterable([]), lists) == [];
      assert [c] + [] == [c];
      ConcatCons(c, [], lists);
    }
    assert Finite(ConcatIterable([b, c]), lists) && Elements(ConcatIterable([b, c]), lists) == eb + ec by {
      assert [b] + [c] == [b, c];
      ConcatCons(b, [c], lists);
    }
    assert [a] + [b, c] == [a, b, c];
    ConcatCons(a, [b, c], lists);
  }

  /** The iterator state iterator() returns: a fresh traversal from the beginning. */
  function Start<T>(v: Iterable<T>, lists: Lists<T>): Iterator<T>
    decreases v, 1
  {
    match v
    case ListIterable(list) => ListIterator(lists(list))
    case ConcatIterable(parts) => ConcatIterator(StartAll(parts, lists))
    case CyclicIterable(snapshot) => CycleIterator(snapshot, 0)
    case LimitIterable(src, limit) => LimitIterator(Start(src, lists), limit)
    case SkipIterable(src, n) => Advance(Start(src, lists), n)
  }

  function StartAll<T>(parts: seq<Iterable<T>>, lists: Lists<T>): (r: seq<Iterator<T>>)
    ensures |r| == |parts|
    decreases parts, 0
  {
    if parts == [] then [] else [Start(parts[0], lists)] + StartAll(parts[1..], lists)
  }

  lemma {:induction false} StartAllAt<T>(parts: seq<Iterable<T>>, lists: Lists<T>, j: nat)
    requires j < |parts|
    ensures StartAll(parts, lists)[j] == Start(parts[j], lists)
    decreases parts
  {
    if j > 0 { StartAllAt(parts[1..], lists, j - 1); }
  }

  /** A fresh iterator yields exactly the view's traversal. */
  lemma {:induction false} StartPeek<T>(v: Iterable<T>, lists: Lists<T>, k: nat)
    ensures Peek(Start(v, lists), k) == Traverse(v, lists, k)
    decreases v, 1
  {
    match v
    case ListIterable(list) =>
    case ConcatIterable(parts) => StartAllPeek(parts, lists, k);
    case CyclicIterable(snapshot) => CyclePeekRepeat(snapshot, k);
    case LimitIterable(src, limit) => StartPeek(src, lists, Min(k, limit));
    case SkipIterable(src, n) =>
      AdvancePeek(Start(src, lists), n, k);
      StartPeek(src, lists, n + k);
  }

  lemma {:induction false} StartAllPeek<T>(parts: seq<Iterable<T>>, lists: Lists<T>, k: nat)
    ensures PeekAll(StartAll(parts, lists), k) == TraverseAll(parts, lists, k)
    decreases parts, 0
  {
    if parts != [] {
      var its := StartAll(parts, lists);
      assert its[0] == Start(parts[0], lists) && its[1..] == StartAll(parts[1..], lists);
      StartPeek(parts[0], lists, k);
      StartAllPeek(parts[1..], lists, k - |Traverse(parts[0], lists, k)|);
    }
  }

  /** concat(Iterable): a view reading the inputs' own sources. */
  function Concat<T>(iterables: seq<Iterable<T>>): (r: Iterable<T>)
    ensures Sources(r) == SourcesAll(iterables)
  {
    ConcatIterable(iterables)
  }

  /** concat(Iterable...): Arrays.asList rejects a null array; otherwise the same view as concat(Iterable). */
  function ConcatOf<T>(iterables: Option<seq<Iterable<T>>>): (r: Result<Iterable<T>>)
    ensures iterables.None? <==> r == Err(NullReference)
    ensures iterables.Some? ==> r == Ok(Concat(iterables.value))
  {
    if iterables.None? then Err(NullReference) else Ok(Concat(iterables.value))
  }

  /** What a successful concat yields: each input's elements in turn. */
  lemma ConcatResult<T>(iterables: seq<Iterable<T>>, lists: Lists<T>)
    requires Finite(ConcatIterable(iterables), lists)
    ensures ConcatOf(Some(iterables)).Ok?
    ensures Elements(ConcatOf(Some(iterables)).value, lists) == Flatten(ElementsEach(iterables, lists))
    ensures Elements(Concat(iterables), lists) == Flatten(ElementsEach(iterables, lists))
  {
    ConcatElements(iterables, lists);
  }

  /** cycle(T...): the elements are copied into a new private list. */
  function CycleOf<T>(elements: Option<seq<T>>): (r: Result<Iterable<T>>)
    ensures elements.None? <==> r == Err(NullReference)
    ensures elements.Some? ==> r == Ok(CyclicIterable(elements.value)) && Sources(r.value) == {}
  {
    if elements.None? then Err(NullReference) else Ok(CyclicIterable(elements.value))
  }

  /** limit: rejects a null source, then a negative bound; otherwise a view over the same source. */
  function Limit<T>(iterable: Option<Iterable<T>>, limit: int): (r: Result<Iterable<T>>)
    ensures iterable.None? ==> r == Err(NullReference)
    ensures iterable.Some? && limit < 0 ==> r == Err(IllegalArgument)
    ensures r.Ok? <==> iterable.Some? && limit >= 0
    ensures r.Ok? ==> Sources(r.value) == Sources(iterable.value)
  {
    if iterable.None? then Err(NullReference)
    else if limit < 0 then Err(IllegalArgument)
    else Ok(LimitIterable(iterable.value, limit))
  }

  /** skip: rejects a null source, then a negative count; otherwise a view over the same source. */
  function Skip<T>(iterable: Option<Iterable<T>>, n: int): (r: Result<Iterable<T>>)
    ensures iterable.None? ==> r == Err(NullReference)
    ensures iterable.Some? && n < 0 ==> r == Err(IllegalArgument)
    ensures r.Ok? <==> iterable.Some? && n >= 0
    ensures r.Ok? ==> Sources(r.value) == Sources(iterable.value)
  {
    if iterable.None? then Err(NullReference)
    else if n < 0 then Err(IllegalArgument)
    else Ok(SkipIterable(iterable.value, n))
  }

  /** What a successful cycle(T...) yields: element i is elements[i mod |elements|], without end. */
  lemma CycleOfResult<T>(elements: seq<T>, lists: Lists<T>, k: nat)
    requires elements != []
    ensures CycleOf(Some(elements)).Ok?
    ensures Size(CycleOf(Some(elements)).value, lists) == None
    ensures |Traverse(CycleOf(Some(elements)).value, lists, k)| == k
    ensures forall i :: 0 <= i < k ==>
              Traverse(CycleOf(Some(elements)).value, lists, k)[i] == elements[i % |elements|]
  {
    CycleModulo(elements, lists, k);
  }

  /** What a successful limit yields: the first min(limit, |S|) elements of its source. */
  lemma LimitResult<T>(iterable: Iterable<T>, limit: nat, lists: Lists<T>)
    requires Finite(iterable, lists)
    ensures Limit(Some(iterable), limit).Ok?
    ensures Finite(Limit(Some(iterable), limit).value, lists)
    ensures Elements(Limit(Some(iterable), limit).value, lists)
         == Elements(iterable, lists)[..Min(limit, |Elements(iterable, lists)|)]
  {
    LimitElements(iterable, lists, limit);
  }

  /** What a successful skip yields: its source without the first min(n, |S|) elements. */
  lemma SkipResult<T>(iterable: Iterable<T>, n: nat, lists: Lists<T>)
    requires Finite(iterable, lists)
    ensures Skip(Some(iterable), n).Ok?
    ensures Finite(Skip(Some(iterable), n).value, lists)
    ensures Elements(Skip(Some(iterable), n).value, lists)
         == Elements(iterable, lists)[Min(n, |Elements(iterable, lists)|)..]
  {
    SkipElements(iterable, lists, n);
  }

  /**
   * iterator(): a new cursor positioned before the first element. The
   * concatenating view first collects one iterator per input; the skipping
   * view advances its source's iterator in place before handing it out.
   */
  method NewIterator<T>(v: Iterable<T>, lists: Lists<T>) returns (c: Cursor<T>)
    ensures fresh(c)
    ensures c.state == Start(v, lists)
    ensures forall k: nat :: Peek(c.state, k) == Traverse(v, lists, k)
    decreases v
  {
    match v {
      case ListIterable(list) =>
        c := new Cursor(ListIterator(lists(list)));
      case ConcatIterable(parts) =>
        var iterators: seq<Iterator<T>> := [];
        var i := 0;
        while i < |parts|
          invariant 0 <= i <= |parts|
          invariant |iterators| == i
          invariant forall j :: 0 <= j < i ==> iterators[j] == Start(parts[j], lists)
        {
          var sub := NewIterator(parts[i], lists);
          iterators := iterators + [sub.state];
          i := i + 1;
        }
        forall j | 0 <= j < |parts| ensures iterators[j] == StartAll(parts, lists)[j] {
          StartAllAt(parts, lists, j);
        }
        c := new Cursor(ConcatIterator(iterators));
      case CyclicIterable(snapshot) =>
        c := new Cursor(CycleIterator(snapshot, 0));
      case LimitIterable(src, limit) =>
        var inner := NewIterator(src, lists);
        c := new Cursor(LimitIterator(inner.state, limit));
      case SkipIterable(src, n) =>
        c := NewIterator(src, lists);
        c.Skip(n);
    }
    assert c.state == Start(v, lists);
    forall k: nat ensures Peek(c.state, k) == Traverse(v, lists, k) {
      StartPeek(v, lists, k);
    }
  }

  /**
   * What a drain loop over a finite view knows: `seen` followed by everything
   * `it` will still yield is the whole traversal. Peeking one element past the
   * remaining count also says that `it` yields nothing beyond it.
   */
  ghost predicate Drained<T>(v: Iterable<T>, lists: Lists<T>, seen: seq<T>, it: Iterator<T>)
    requires Finite(v, lists)
  {
    var size := Size(v, lists).value;
    |seen| <= size && seen + Peek(it, size - |seen| + 1) == Elements(v, lists)
  }

  /** A fresh iterator has drained nothing. */
  lemma DrainStart<T>(v: Iterable<T>, lists: Lists<T>)
    requires Finite(v, lists)
    ensures Drained(v, lists, [], Start(v, lists))
  {
    var size := Size(v, lists).value;
    StartPeek(v, lists, size + 1);
    TraverseSaturates(v, lists, size + 1);
  }

  /** One more next() moves exactly the next element of the traversal into `seen`. */
  lemma DrainStep<T>(v: Iterable<T>, lists: Lists<T>, seen: seq<T>, it: Iterator<T>)
    requires Finite(v, lists) && Drained(v, lists, seen, it) && HasMore(it)
    ensures |seen| < Size(v, lists).value
    ensures Drained(v, lists, seen + [Step(it).0], Step(it).1)
  {
    var r := Size(v, lists).value - |seen|;
    var x, it' := Step(it).0, Step(it).1;
    StepPeek(it, r);
    assert seen + [x] + Peek(it', r) == seen + ([x] + Peek(it', r));
  }

  /** When hasNext() is false, everything has been drained. */
  lemma DrainEnd<T>(v: Iterable<T>, lists: Lists<T>, seen: seq<T>, it: Iterator<T>)
    requires Finite(v, lists) && Drained(v, lists, seen, it) && !HasMore(it)
    ensures seen == Elements(v, lists)
  {
    ExhaustedPeek(it, Size(v, lists).value - |seen| + 1);
  }

  /** toList: drains a traversal into a new list, element by element. */
  method ToList<T>(iterable: Iterable<T>, lists: Lists<T>) returns (list: seq<T>)
    requires Finite(iterable, lists)
    ensures list == Elements(iterable, lists)
  {
    var it := NewIterator(iterable, lists);
    DrainStart(iterable, lists);
    list := [];
    while it.HasNext()
      invariant Drained(iterable, lists, list, it.state)
      decreases Size(iterable, lists).value - |list|
    {
      DrainStep(iterable, lists, list, it.state);
      var x := it.Next();
      list := list + [x];
    }
    DrainEnd(iterable, lists, list, it.state);
  }

  /** The set of the elements of a sequence, built from the front as toSet adds them. */
  ghost function Members<T>(xs: seq<T>): set<T>
  {
    if xs == [] then {} else Members(xs[..|xs| - 1]) + {xs[|xs| - 1]}
  }

  lemma MembersAppend<T>(xs: seq<T>, x: T)
    ensures Members(xs + [x]) == Members(xs) + {x}
  {
    assert (xs + [x])[..|xs|] == xs;
  }

  lemma {:induction false} MembersIn<T>(xs: seq<T>)
    ensures forall x :: x in Members(xs) <==> x in xs
  {
    if xs != [] {
      MembersIn(xs[..|xs| - 1]);
      assert xs == xs[..|xs| - 1] + [xs[|xs| - 1]];
    }
  }

  /** toSet: drains a traversal into a new set; duplicates collapse. */
  method ToSet<T(==)>(iterable: Iterable<T>, lists: Lists<T>) returns (s: set<T>)
    requires Finite(iterable, lists)
    ensures forall x :: x in s <==> x in Elements(iterable, lists)
  {
    var it := NewIterator(iterable, lists);
    DrainStart(iterable, lists);
    ghost var seen: seq<T> := [];
    s := {};
    while it.HasNext()
      invariant Drained(iterable, lists, seen, it.state)
      invariant s == Members(seen)
      decreases Size(iterable, lists).value - |seen|
    {
      DrainStep(iterable, lists, seen, it.state);
      var x := it.Next();
      MembersAppend(seen, x);
      s := s + {x};
      seen := seen + [x];
    }
    DrainEnd(iterable, lists, seen, it.state);
    MembersIn(seen);
  }

  /** cycle(Iterable): the source is drained by toList once, when the view is built. */
  method Cycle<T>(iterable: Option<Iterable<T>>, lists: Lists<T>) returns (r: Result<Iterable<T>>)
    requires iterable.Some? ==> Finite(iterable.value, lists)
    ensures iterable.None? <==> r == Err(NullReference)
    ensures iterable.Some? ==> r.Ok? && Sources(r.value) == {}
    ensures iterable.Some? ==> forall later: Lists<T>, k ::
              Traverse(r.value, later, k) == Repeat(Elements(iterable.value, lists), k)
  {
    if iterable.None? {
      return Err(NullReference);
    }
    var list := ToList(iterable.value, lists);
    r := Ok(CyclicIterable(list));
  }

  /** The elements' texts separated by ", ". */
  function Join<T>(xs: seq<T>, show: T -> string): string
  {
    if xs == [] then ""
    else if |xs| == 1 then show(xs[0])
    else show(xs[0]) + ", " + Join(xs[1..], show)
  }

  /** The list format [e1, e2, ..., en]. */
  function Render<T>(xs: seq<T>, show: T -> string): (r: string)
    ensures |r| >= 2 && r[0] == '[' && r[|r| - 1] == ']'
    ensures xs == [] ==> r == "[]"
  {
    "[" + Join(xs, show) + "]"
  }

  lemma {:induction false} JoinAppend<T>(xs: seq<T>, x: T, show: T -> string)
    ensures Join(xs + [x], show) == if xs == [] then show(x) else Join(xs, show) + ", " + show(x)
  {
    if |xs| > 1 {
      assert (xs + [x])[1..] == xs[1..] + [x];
      JoinAppend(xs[1..], x, show);
    } else if |xs| == 1 {
      assert (xs + [x])[1..] == [x];
    }
  }

  /** Appending an element adds ", " (unless it is the first) and its text before the closing bracket. */
  lemma RenderAppend<T>(xs: seq<T>, x: T, show: T -> string)
    ensures Render(xs + [x], show)
         == Render(xs, show)[..|Render(xs, show)| - 1] + (if xs == [] then "" else ", ") + show(x) + "]"
  {
    JoinAppend(xs, x, show);
    var r := Render(xs, show);
    assert r[..|r| - 1] == "[" + Join(xs, show);
  }

  /** toString: the traversal rendered as [e1, e2, ..., en]. */
  method ToString<T>(iterable: Iterable<T>, lists: Lists<T>, show: T -> string) returns (text: string)
    requires Finite(iterable, lists)
    ensures text == Render(Elements(iterable, lists), show)
  {
    var list := ToList(iterable, lists);
    text := Render(list, show);
  }
}
