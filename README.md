# Iterables: lazy views over a caller's collections

This project models the `Iterables` utility class of the pitaya library
(`src/org/kocakosm/pitaya/collection/Iterables.java`):

- the four lazy views: `concat` (a list of iterables, or varargs), `cycle`
  (an iterable, or varargs elements), `limit` and `skip`;
- the private view classes behind them (`ConcatIterable`, `CyclicIterable`,
  `LimitIterable`, `SkipIterable`) and what their `iterator()` methods do;
- the eager reducers `toList`, `toSet` and `toString`.

Two files, one module each:

- `iterators.dfy` (module `Iterators`) holds the iterator side. The datatype
  `Iterator` is the state of one traversal. `Peek(it, k)` is the next k
  elements that traversal will return, `HasMore` is `hasNext()`, and `Step`
  is one call to `next()`. The class `Cursor` is an iterator object as the
  caller holds it: `Next` and `Skip` update its state in place.
  `Iterators.java` is not part of this model. Its `concat`, `cycle`, `limit`
  and `skip` helpers are modelled by the effect their names and their use
  in Iterables.java imply.
- `iterables.dfy` (module `Iterables`) holds the views.
  - A view is the immutable descriptor `Iterable`. The caller's own
    collections are named by a `ListId`, and `lists` gives their contents
    when a traversal starts.
  - The meaning of a view is `Traverse(v, lists, k)`: the first k elements a
    traversal yields. `Size` is how many elements there are in total, or
    `None` when the traversal never ends.
  - `Start(v, lists)` is the state `iterator()` returns, and `StartPeek`
    proves that this state yields exactly `Traverse`.
  - The factories validate their arguments as the constructors do. `null` is
    `None`, and the two exceptions are `Err(NullReference)` and
    `Err(IllegalArgument)`.

`cycle` follows the code, not its doc comment. The comment on
`cycle(Iterable)` says the view sees later modifications of the source.
The code instead drains the source with `toList` when the view is built,
and `CyclicIterable` cycles over that private list. So `Cycle` returns a
view with no sources (`Sources(r) == {}`), and
`SameSourcesSameTraversal` shows that nothing the caller changes afterwards
affects it. `limit` and `skip` stay live views over their sources
(`LimitOfList`). So does `concat` for the contents of its inputs. The
collection of inputs itself is fixed when the view is built (see
"## Left out").

## Model

| member | source | states |
|---|---|---|
| Iterables.Concat | src/org/kocakosm/pitaya/collection/Iterables.java:87-90 | concat(Iterable) builds a view that reads exactly the inputs' own sources, and no others |
| Iterables.ConcatOf | src/org/kocakosm/pitaya/collection/Iterables.java:67-70 | concat(Iterable...) rejects a null array with NullPointerException, as Arrays.asList does. Otherwise it builds the same view as concat(Iterable) |
| Iterables.ConcatResult | src/org/kocakosm/pitaya/collection/Iterables.java:67-90 | a successful concat of finite inputs yields the flattening of the inputs' elements, in order |
| Iterables.ConcatElements | src/org/kocakosm/pitaya/collection/Iterables.java:52-57 | concat yields all of the first input, then all of the next, and so on, in order. Its length is the sum of the inputs' lengths, and with no inputs it yields nothing |
| Iterables.ConcatCons | src/org/kocakosm/pitaya/collection/Iterables.java:262-270 | the concatenating iterator yields all of its first input's elements before any of the remaining inputs' |
| Iterables.ConcatThree | src/org/kocakosm/pitaya/collection/Iterables.java:67-70 | concat(A, B, C) yields A's elements, then B's, then C's |
| Iterables.CycleOfResult | src/org/kocakosm/pitaya/collection/Iterables.java:114-130 | a successful cycle(T...) over non-empty elements never ends, and its element i is elements[i mod \|elements\|] |
| Iterables.CycleOf | src/org/kocakosm/pitaya/collection/Iterables.java:114-130 | cycle(T...) rejects a null array; otherwise it cycles over a private copy of the elements and refers to no caller list |
| Iterables.Cycle | src/org/kocakosm/pitaya/collection/Iterables.java:109-112 | cycle(Iterable) rejects null. Otherwise, for every later state of the caller's lists, the view yields the source's elements as they were at construction, repeated |
| Iterables.CycleModulo | src/org/kocakosm/pitaya/collection/Iterables.java:92-96 | for a non-empty snapshot S, element i of a cycle traversal is S[i mod \|S\|] and the traversal never ends. For an empty snapshot it yields nothing |
| Iterables.CyclePeekRepeat | src/org/kocakosm/pitaya/collection/Iterables.java:283-287 | a cycling iterator started on a buffer yields the buffer again and again: after its last element it wraps to the first |
| Iterables.LimitCycle | src/org/kocakosm/pitaya/collection/Iterables.java:283-307 | limit(cycle(S), k) yields exactly k elements S[i mod \|S\|] when S is non-empty, and nothing when S is empty |
| Iterables.CycleLimitFive | src/org/kocakosm/pitaya/collection/Iterables.java:127-150 | cycle("x", "y") limited to 5 yields x, y, x, y, x |
| Iterables.Limit | src/org/kocakosm/pitaya/collection/Iterables.java:145-151 | limit rejects a null source with NullPointerException, then a negative limit with IllegalArgumentException, and succeeds exactly otherwise, over the same sources |
| Iterables.LimitResult | src/org/kocakosm/pitaya/collection/Iterables.java:132-151 | a successful limit over a finite source is finite and yields the first min(limit, \|S\|) elements of the source |
| Iterables.LimitElements | src/org/kocakosm/pitaya/collection/Iterables.java:132-137 | a limited view is always finite, limit 0 yields nothing, and a limited finite source yields its first min(limit, \|S\|) elements in order |
| Iterables.LimitOfList | src/org/kocakosm/pitaya/collection/Iterables.java:135-137 | a limit view over a caller's list yields the list's current contents truncated to the limit |
| Iterables.Skip | src/org/kocakosm/pitaya/collection/Iterables.java:165-171 | skip rejects a null source, then a negative count, and succeeds exactly otherwise, over the same sources |
| Iterables.SkipResult | src/org/kocakosm/pitaya/collection/Iterables.java:153-171 | a successful skip over a finite source yields the source without its first min(n, \|S\|) elements |
| Iterables.SkipElements | src/org/kocakosm/pitaya/collection/Iterables.java:153-157 | skip(S, n) yields S[min(n, \|S\|)..], which is nothing once n >= \|S\| |
| Iterables.SameSourcesSameTraversal | src/org/kocakosm/pitaya/collection/Iterables.java:97-99 | a traversal depends only on the current contents of the view's sources. Changing any other list, or any list at all for a cycle, leaves it unchanged |
| Iterables.TraverseLength | src/org/kocakosm/pitaya/collection/Iterables.java:262-329 | a k-element prefix of a traversal has length min(k, size), or exactly k when the traversal never ends |
| Iterables.TraversePrefix | src/org/kocakosm/pitaya/collection/Iterables.java:262-329 | asking for more elements only extends what a traversal yielded. Views are consistent prefixes of one stream |
| Iterables.TraverseSaturates | src/org/kocakosm/pitaya/collection/Iterables.java:262-329 | once a finite traversal has ended, asking for more yields nothing new |
| Iterables.StartPeek | src/org/kocakosm/pitaya/collection/Iterables.java:262-329 | the iterator state every iterator() returns yields exactly the view's traversal |
| Iterables.NewIterator | src/org/kocakosm/pitaya/collection/Iterables.java:262-329 | each call returns a fresh cursor at the start of the traversal. Concat collects one fresh iterator per input in order, and skip advances its source's iterator in place before returning it |
| Iterables.DrainStart | src/org/kocakosm/pitaya/collection/Iterables.java:186-187 | before the first next(), nothing has been drained and the fresh iterator still yields the whole traversal |
| Iterables.DrainStep | src/org/kocakosm/pitaya/collection/Iterables.java:187-189 | one more next() extends the drained prefix by exactly the next element of the traversal, and a finite traversal has not yet ended |
| Iterables.DrainEnd | src/org/kocakosm/pitaya/collection/Iterables.java:187-189 | when hasNext() is false, the drained prefix is the whole traversal |
| Iterables.ToList | src/org/kocakosm/pitaya/collection/Iterables.java:184-191 | toList returns every element of the traversal, in traversal order |
| Iterables.ToSet | src/org/kocakosm/pitaya/collection/Iterables.java:204-211 | toSet contains exactly the elements the traversal yields, with duplicates collapsed |
| Iterables.MembersIn | src/org/kocakosm/pitaya/collection/Iterables.java:206-209 | the set built by adding the drained elements one by one contains exactly those elements |
| Iterables.Render | src/org/kocakosm/pitaya/collection/Iterables.java:229-231 | the text is bracketed by '[' and ']', and an empty list renders as "[]" |
| Iterables.RenderAppend | src/org/kocakosm/pitaya/collection/Iterables.java:229-231 | appending an element inserts ", " (unless it is the first) and its text before the closing bracket, giving [e1, e2, ..., en] |
| Iterables.ToString | src/org/kocakosm/pitaya/collection/Iterables.java:239-242 | toString renders the traversal's elements in the list format |
| Iterators.Cursor.HasNext | src/org/kocakosm/pitaya/collection/Iterables.java:187 | hasNext() is true exactly when the traversal has a next element |
| Iterators.Cursor.Next | src/org/kocakosm/pitaya/collection/Iterables.java:187 | next() returns the first upcoming element and moves the iterator one step. StepPeek shows that the new state yields exactly the rest |
| Iterators.Cursor.Skip | src/org/kocakosm/pitaya/collection/Iterables.java:326-328 | advancing an iterator by n in place leaves what followed its first n elements, or nothing if there were fewer |
| Iterators.HasMorePeek | src/org/kocakosm/pitaya/collection/Iterables.java:269 | for the concatenating, cycling and limiting iterators, hasNext() agrees with whether anything is left to yield |
| Iterators.StepPeek | src/org/kocakosm/pitaya/collection/Iterables.java:269 | next() on the concatenating, cycling and limiting iterators returns the head of what remains and leaves the tail |
| Iterators.ExhaustedPeek | src/org/kocakosm/pitaya/collection/Iterables.java:269 | an exhausted iterator yields nothing more |
| Iterators.AdvancePeek | src/org/kocakosm/pitaya/collection/Iterables.java:327 | skipping n elements leaves exactly what followed the first n |

## Left out

- `Iterator.remove()` is not modelled. It is passed through to the source's iterator, and Iterators.java is not part of this model.
- `toBag` is not modelled, because `HashBag` is not part of this model.
- `EMPTY_ITERABLE` / `emptyIterable()` are left out. Concat over no inputs yields the same empty traversal.
- A null collection given to `concat(Iterable)`, or a null element of either overload's inputs, is not modelled. Neither is checked when the view is built (Iterables.java:87-90). Both fail later, at `iterator()` (lines 266-267). A null array given to `concat(Iterable...)` is modelled by `ConcatOf`.
- Iterables.Concat: the collection of inputs is read once, when the view is built. `ConcatIterable` keeps a reference to the caller's collection (lines 255 and 259) and walks it again on every `iterator()` (line 266). So inputs the caller adds to or removes from that collection afterwards are seen by Java and not by the model. The inputs' own lists stay live in the model. Modelling that collection as caller state would let a concat contain itself, and its traversal would not terminate.
- A null iterable given to `toList`, `toSet` or `toString` is not modelled. It fails immediately with NullPointerException, and the model takes a view value that is never null.
- Iterables.ToList: the model requires a finite traversal. On a never-ending cycle, the Java call never returns normally. Its loop (Iterables.java:188) keeps growing the `ArrayList` until the JVM throws `OutOfMemoryError`.
- Iterables.ToSet: the model requires a finite traversal. On a never-ending cycle, the Java loop (Iterables.java:208) runs forever. Adding the cycle's finitely many elements again never grows the `HashSet`.
- Iterables.ToString: the model requires a finite traversal. The Java method goes through `toList` (Iterables.java:241), so on a never-ending cycle it ends in `OutOfMemoryError`.
- Iterables.Cycle: the model requires a finite source. cycle(Iterable) drains its source with `toList` (Iterables.java:111), so on a never-ending source it ends in `OutOfMemoryError`.
- Iterables.Limit: `limit` is a Java `int`, and the model uses an unbounded integer. Only the sign check matters to the code.
- Iterables.Skip: `n` is a Java `int`, and the model uses an unbounded integer.
- Java generics and wildcards are dropped, because every view has one element type.
- `String.valueOf` of an element is the parameter `show`.
- Concurrent modification of a source during a traversal is not modelled. `lists` is read once, when a traversal starts.
- Aliasing between the sub-iterators held by a concatenating iterator is not modelled. Each one is a private state value.
- Iterators.Cursor.Next: calling `next()` on an exhausted iterator is not modelled. The model requires `HasNext()` instead, and `Step` requires `HasMore`. In Java the call throws `NoSuchElementException`, for example from the source's own iterator that `SkipIterable.iterator()` hands back (Iterables.java:326-328). Iterables.java itself always checks `hasNext()` first.
- Iterators.Cursor.HasNext: a cycle over an empty snapshot reports no next element. This is a modelling choice; Iterables.java's comments say nothing about an empty snapshot. It is made so that limit(cycle([]), 5) yields nothing.
