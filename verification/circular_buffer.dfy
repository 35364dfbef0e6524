/**
  The bounded FIFO log: a fixed capacity and the items in insertion order. A push onto
  a full log first drops the oldest item, so the newest item is always kept.
 */
module CircularBuffer {
  import opened JsArray

  datatype Buffer<T> = Buffer(maxSize: int, items: seq<T>)

  /** The bound the buffer exists to keep: a positive capacity that the contents never exceed. */
  predicate Valid<T>(b: Buffer<T>) {
    1 <= b.maxSize && |b.items| <= b.maxSize
  }

  /** A new, empty buffer that will hold at most `maxSize` items. */
  function New<T>(maxSize: int): (b: Buffer<T>)
    ensures b.maxSize == maxSize && |b.items| == 0
    ensures 1 <= maxSize ==> Valid(b)
  {
    Buffer(maxSize, [])
  }

  /**
    `push(item)`: when the length has reached the capacity the oldest item is shifted
    out first (shifting an empty list does nothing), then `item` is appended.
   */
  function Push<T>(b: Buffer<T>, item: T): (r: Buffer<T>)
    ensures r.maxSize == b.maxSize
    ensures Valid(b) ==> Valid(r)
    ensures 1 <= |r.items| <= |b.items| + 1
    ensures |b.items| < b.maxSize ==> r.items == b.items + [item]
  {
    var kept := if |b.items| >= b.maxSize && |b.items| > 0 then b.items[1..] else b.items;
    Buffer(b.maxSize, kept + [item])
  }

  /** A push keeps a suffix of the old contents and puts `item` last: nothing is reordered. */
  lemma PushKeepsSuffix<T>(b: Buffer<T>, item: T)
    ensures Push(b, item).items == b.items[|b.items| + 1 - |Push(b, item).items|..] + [item]
  {
  }

  /** A push onto a full buffer drops exactly the oldest item. */
  lemma PushEvictsOldest<T>(b: Buffer<T>, item: T)
    requires 1 <= b.maxSize <= |b.items|
    ensures Push(b, item).items == b.items[1..] + [item]
  {
  }

  /** On a valid buffer a push leaves the newest `maxSize` items of the old contents plus `item`. */
  lemma PushWindow<T>(b: Buffer<T>, item: T)
    requires Valid(b)
    ensures Push(b, item).items == Last(b.items + [item], b.maxSize)
  {
    if |b.items| == b.maxSize {
      assert b.items[1..] + [item] == (b.items + [item])[1..];
    }
  }

  /**
    A push drops exactly the oldest item when the length has reached the capacity and
    nothing otherwise; on a valid buffer that leaves the newest `maxSize` items.
   */
  lemma PushShape<T>(b: Buffer<T>, item: T)
    ensures 1 <= |b.items| && b.maxSize <= |b.items| ==> Push(b, item).items == b.items[1..] + [item]
    ensures Valid(b) ==> Push(b, item).items == Last(b.items + [item], b.maxSize)
  {
    if Valid(b) {
      PushWindow(b, item);
    }
  }

  /** `getAll()`: the contents in insertion order. */
  function GetAll<T>(b: Buffer<T>): seq<T> {
    b.items
  }

  /** The number of items held. */
  function Length<T>(b: Buffer<T>): nat {
    |b.items|
  }

  /**
    `getLast(n)` is `slice(-n)`: for a positive `n` the newest `min(n, length)` items;
    for `n = 0` (since `-0` is `0`) the whole buffer; a negative `n` skips `-n` items.
   */
  function GetLast<T>(b: Buffer<T>, n: int): (r: seq<T>)
    ensures n >= 1 ==> |r| == Min(n, |b.items|) && r == Last(b.items, n)
    ensures n == 0 ==> r == b.items
    ensures n < 0 ==> r == b.items[Min(-n, |b.items|)..]
  {
    SliceFrom(b.items, -n)
  }

  /** `clear()`: the contents are dropped, the capacity stays. */
  function Clear<T>(b: Buffer<T>): (r: Buffer<T>)
    ensures r.maxSize == b.maxSize && |r.items| == 0
    ensures Valid(b) ==> Valid(r)
  {
    Buffer(b.maxSize, [])
  }

  /** Clearing twice is clearing once. */
  lemma ClearIdempotent<T>(b: Buffer<T>)
    ensures Clear(Clear(b)) == Clear(b)
  {
  }

  /** The effect of pushing `xs` one after another, first element first. */
  function PushAll<T>(b: Buffer<T>, xs: seq<T>): (r: Buffer<T>)
    ensures r.maxSize == b.maxSize
    decreases |xs|
  {
    if |xs| == 0 then b else Push(PushAll(b, xs[..|xs| - 1]), xs[|xs| - 1])
  }

  /**
    After any sequence of pushes onto a valid buffer the bound still holds and the
    contents are the newest `maxSize` items of the old contents followed by the pushes.
   */
  lemma {:induction false} PushAllWindow<T>(b: Buffer<T>, xs: seq<T>)
    requires Valid(b)
    ensures Valid(PushAll(b, xs))
    ensures PushAll(b, xs).items == Last(b.items + xs, b.maxSize)
    decreases |xs|
  {
    if |xs| > 0 {
      var n := b.maxSize;
      var init := xs[..|xs| - 1];
      var x := xs[|xs| - 1];
      PushAllWindow(b, init);
      var mid := PushAll(b, init);
      assert PushAll(b, xs) == Push(mid, x);
      var a := b.items + init;
      assert xs == init + [x];
      assert b.items + xs == a + [x];
      PushWindow(mid, x);
      assert mid.items + [x] == Last(a, n) + [x];
      LastOfLastPush(a, x, n);
      assert PushAll(b, xs).items == Last(a + [x], n);
    }
  }

  /** Keeping the newest `n` and then pushing keeps the newest `n` of everything. */
  lemma LastOfLastPush<T>(a: seq<T>, x: T, n: nat)
    requires 1 <= n
    ensures Last(Last(a, n) + [x], n) == Last(a + [x], n)
  {
    if |a| > n {
      assert Last(a, n) + [x] == (a + [x])[|a| - n..];
      assert Last(Last(a, n) + [x], n) == (a + [x])[|a| + 1 - n..];
    }
  }

  /** Starting empty, the contents are the last `min(N, k)` of the `k` pushed items, in push order. */
  lemma PushAllFromEmpty<T>(maxSize: int, xs: seq<T>)
    requires 1 <= maxSize
    ensures Length(PushAll(New(maxSize), xs)) <= maxSize
    ensures GetAll(PushAll(New(maxSize), xs)) == xs[|xs| - Min(maxSize, |xs|)..]
    ensures |xs| > 0 ==> GetAll(PushAll(New(maxSize), xs))[Length(PushAll(New(maxSize), xs)) - 1] == xs[|xs| - 1]
  {
    var r := PushAll(New<T>(maxSize), xs);
    EmptyWindow(maxSize, xs);
    LastEndsWithLast(xs, maxSize);
    assert GetAll(r) == r.items && Length(r) == |r.items|;
  }

  lemma EmptyWindow<T>(maxSize: int, xs: seq<T>)
    requires 1 <= maxSize
    ensures PushAll(New(maxSize), xs).items == Last(xs, maxSize)
  {
    var b: Buffer<T> := New(maxSize);
    PushAllWindow(b, xs);
    assert b.items + xs == xs;
  }

  lemma LastEndsWithLast<T>(xs: seq<T>, n: nat)
    requires 1 <= n
    ensures |Last(xs, n)| <= n && Last(xs, n) == xs[|xs| - Min(n, |xs|)..]
    ensures |xs| > 0 ==> Last(xs, n)[|Last(xs, n)| - 1] == xs[|xs| - 1]
  {
  }

  /** Pushing `N + 1` items onto an empty capacity-`N` buffer loses exactly the first. */
  lemma FifoEviction<T>(maxSize: int, xs: seq<T>)
    requires 1 <= maxSize && |xs| == maxSize + 1
    ensures GetAll(PushAll(New(maxSize), xs)) == xs[1..]
  {
    PushAllFromEmpty(maxSize, xs);
  }

  /**
    The bound needs a positive capacity: with capacity 0 a push still leaves the item
    in the buffer, so the length exceeds the capacity.
   */
  lemma ZeroCapacityKeepsOne<T>(x: T, y: T)
    ensures GetAll(Push(New<T>(0), x)) == [x]
    ensures GetAll(Push(Push(New<T>(0), x), y)) == [y]
  {
  }
}
