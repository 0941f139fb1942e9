/**
 * The bounded conversation history: a sliding window that keeps only the most
 * recent `maxItems` conversation items, oldest first. Items are opaque to it.
 */
module Session {
  import opened Wrappers

  function Min(a: int, b: int): int {
    if a <= b then a else b
  }

  /**
   * Python's `xs[start:]`: a start of `-k` below zero keeps the last `k`
   * elements (all when there are fewer), a start from zero on drops that many.
   */
  function PySuffix<T>(xs: seq<T>, start: int): (s: seq<T>)
    ensures start < 0 ==> s == Window(xs, -start)
    ensures start >= 0 ==> s == xs[Min(start, |xs|)..]
  {
    var from := if start < 0 then (if start + |xs| < 0 then 0 else start + |xs|) else Min(start, |xs|);
    xs[from..]
  }

  /** The last `n` elements of `xs`, or all of them when there are fewer. */
  function Window<T>(xs: seq<T>, n: nat): (w: seq<T>)
    ensures |w| == Min(n, |xs|)
    ensures xs == xs[..|xs| - |w|] + w
  {
    xs[|xs| - Min(n, |xs|)..]
  }

  /** The limit `get_items` applies: the caller's, capped by the capacity. */
  function EffectiveLimit(limit: Option<int>, maxItems: int): (e: int)
    ensures e <= maxItems
    ensures limit.None? ==> e == maxItems
    ensures limit.Some? ==> e <= limit.value && (e == limit.value || e == maxItems)
  {
    if limit.None? then maxItems else Min(limit.value, maxItems)
  }

  class InMemorySession<T> {
    const sessionId: string
    const maxItems: int
    var items: seq<T>

    /** The capacity bound, for any positive capacity. */
    ghost predicate Valid()
      reads this
    {
      maxItems >= 1 ==> |items| <= maxItems
    }

    constructor (sessionId: string, maxItems: int := 4)
      ensures this.sessionId == sessionId && this.maxItems == maxItems
      ensures items == [] && Valid()
    {
      this.sessionId := sessionId;
      this.maxItems := maxItems;
      items := [];
    }

    /**
     * Up to `limit` (capped by the capacity) of the most recent items, oldest
     * first. Python's slicing makes an effective limit of 0 return
     * everything, and a negative effective limit -k drop min(k, length)
     * items from the front.
     */
    function GetItems(limit: Option<int> := None): (r: seq<T>)
      reads this
      ensures items == [] ==> r == []
      ensures EffectiveLimit(limit, maxItems) >= 1 ==> r == Window(items, EffectiveLimit(limit, maxItems))
      ensures EffectiveLimit(limit, maxItems) == 0 ==> r == items
      ensures EffectiveLimit(limit, maxItems) < 0 ==> r == items[Min(-EffectiveLimit(limit, maxItems), |items|)..]
    {
      if items == [] then []
      else
        var e := EffectiveLimit(limit, maxItems);
        if e >= |items| then items else PySuffix(items, -e)
    }

    /** Appends `xs`, then drops the oldest items beyond the capacity. */
    method AddItems(xs: seq<T>)
      modifies this
      ensures xs == [] ==> items == old(items)
      ensures xs != [] && maxItems >= 1 ==> items == Window(old(items) + xs, maxItems)
      ensures xs != [] && maxItems == 0 ==> items == old(items) + xs
      ensures xs != [] && maxItems < 0 ==> items == (old(items) + xs)[Min(-maxItems, |old(items)| + |xs|)..]
      ensures old(Valid()) ==> Valid()
    {
      if xs == [] {
        return;
      }
      items := items + xs;
      if |items| > maxItems {
        items := PySuffix(items, -maxItems);
      }
    }

    /** Removes and returns the most recent item, or `None` when there is none. */
    method PopItem() returns (r: Option<T>)
      modifies this
      ensures old(items) == [] ==> r == None && items == old(items)
      ensures old(items) != [] ==> r == Some(old(items)[|old(items)| - 1]) && items == old(items)[..|old(items)| - 1]
      ensures old(Valid()) ==> Valid()
    {
      if items == [] {
        return None;
      }
      r := Some(items[|items| - 1]);
      items := items[..|items| - 1];
    }

    /** Forgets every stored item. */
    method ClearSession()
      modifies this
      ensures items == [] && Valid()
    {
      items := [];
    }
  }

  /** Trimming after each batch gives the same window as trimming once after all of them. */
  lemma WindowAppend<T>(a: seq<T>, b: seq<T>, m: nat)
    ensures Window(Window(a, m) + b, m) == Window(a + b, m)
  {
  }

  /** A window that already fits is left alone. */
  lemma WindowFits<T>(xs: seq<T>, m: nat)
    requires |xs| <= m
    ensures Window(xs, m) == xs
  {
  }

  /** The window `get_items` returns never exceeds the capacity, and it is the newest part of the history. */
  lemma GetItemsBounded<T>(s: InMemorySession<T>, limit: Option<int>)
    requires s.maxItems >= 1
    requires limit.None? || limit.value >= 1
    ensures |s.GetItems(limit)| <= s.maxItems
    ensures |s.GetItems(limit)| <= |s.items|
    ensures s.items == s.items[..|s.items| - |s.GetItems(limit)|] + s.GetItems(limit)
  {
  }

  /** Asking for more than the capacity is the same as asking for the capacity, or for nothing in particular. */
  lemma GetItemsClamped<T>(s: InMemorySession<T>, limit: int)
    requires limit >= s.maxItems
    ensures s.GetItems(Some(limit)) == s.GetItems(Some(s.maxItems)) == s.GetItems(None)
  {
  }

  /** A limit of 0 returns the whole history (Python's `xs[-0:]`) when the capacity is not negative. */
  lemma GetItemsZero<T>(s: InMemorySession<T>)
    requires s.maxItems >= 0
    ensures s.GetItems(Some(0)) == s.items
  {
  }

  /** The first `n` ordinals, used as stand-in conversation items. */
  function Range(n: nat): seq<int>
  {
    seq(n, k => k)
  }

  /** Ten single-item additions with capacity 4 keep the last four, oldest first. */
  method KeepsOnlyLastItemsScenario()
  {
    var s := new InMemorySession<int>("test", 4);
    var i := 0;
    while i < 10
      invariant 0 <= i <= 10
      invariant s.items == Window(Range(i), 4)
    {
      s.AddItems([i]);
      WindowAppend(Range(i), [i], 4);
      assert Range(i + 1) == Range(i) + [i];
      i := i + 1;
    }
    var got := s.GetItems();
    assert got == [6, 7, 8, 9];
  }

  /** Popping a full window returns its newest item; clearing leaves nothing to read. */
  method PopAndClearScenario()
  {
    var s := new InMemorySession<int>("test-pop", 3);
    s.AddItems([0]);
    assert s.items == Window([] + [0], 3);
    assert [] + [0] == [0];
    WindowFits([0], 3);
    s.AddItems([1]);
    assert s.items == Window([0] + [1], 3);
    assert [0] + [1] == [0, 1];
    WindowFits([0, 1], 3);
    s.AddItems([2]);
    assert s.items == Window([0, 1] + [2], 3);
    assert [0, 1] + [2] == [0, 1, 2];
    WindowFits([0, 1, 2], 3);
    var last := s.PopItem();
    assert last == Some(2);
    assert s.items == [0, 1];
    s.ClearSession();
    var got := s.GetItems();
    assert got == [];
  }
}
