/** What a fixed-window counter says about spans of one window length, wherever they start. Events are counted
    by a function from a time to how many happened from then on. */
module Spans {
  import opened Wrappers
  import opened Windows

  /** The most events in such a span, when no window counts past the cap: one less than two full windows,
      and one window when it is a single tick of the clock. */
  function SpanBound(cap: nat, window: int): (bound: nat)
    ensures cap > 0 ==> cap <= bound <= 2 * cap - 1
  {
    if window == 1 || cap == 0 then cap else 2 * cap - 1
  }

  ghost predicate Falling(count: int -> nat) {
    forall x, y | x <= y :: count(x) >= count(y)
  }

  /** The window after one more event. */
  function Counted(w: Option<Window>, at: int, window: int): Window {
    if w.Some? && at < w.value.ends then Window(w.value.count + 1, w.value.ends) else Window(1, at + window)
  }

  /** What a key's window knows of its history. It opened with an event, holds `count` of them and nothing
      comes after it; spans that reach back into it from the left, but not as far as the previous opening,
      hold fewer than the cap before it. */
  ghost predicate Recorded(count: int -> nat, w: Option<Window>, a: int, cap: nat, window: int) {
    if w.None? then forall x :: count(x) == 0
    else
      var e, start := w.value, w.value.ends - window;
      && 1 <= e.count <= cap
      && count(start) == e.count
      && count(start + 1) < e.count
      && count(e.ends) == 0
      && (start - window < a <= start ==> count(a) - count(start) < cap)
  }

  /** The span of one window length from a. */
  ghost predicate Bounded(count: int -> nat, a: int, cap: nat, window: int) {
    count(a) - count(a + window) <= SpanBound(cap, window)
  }

  ghost predicate OneMore(count: int -> nat, count': int -> nat, at: int) {
    forall x :: count'(x) == count(x) + if x <= at then 1 else 0
  }

  lemma NothingIsRecorded(count: int -> nat, a: int, cap: nat, window: int)
    requires forall x :: count(x) == 0
    ensures Recorded(count, None, a, cap, window) && Bounded(count, a, cap, window)
  {
  }

  lemma SameIsRecorded(count: int -> nat, count': int -> nat, w: Option<Window>, a: int, cap: nat, window: int)
    requires forall x :: count'(x) == count(x)
    requires Recorded(count, w, a, cap, window) && Bounded(count, a, cap, window)
    ensures Recorded(count', w, a, cap, window) && Bounded(count', a, cap, window)
  {
  }

  /** One more event, not before the running window opened. */
  lemma EventIsRecorded(count: int -> nat, count': int -> nat, w: Option<Window>, at: int, a: int, cap: nat,
                        window: int)
    requires window > 0 && Falling(count) && OneMore(count, count', at)
    requires Recorded(count, w, a, cap, window) && Bounded(count, a, cap, window)
    requires w.Some? ==> w.value.ends - window <= at
    requires Counted(w, at, window).count <= cap
    ensures Recorded(count', Some(Counted(w, at, window)), a, cap, window)
    ensures Bounded(count', a, cap, window)
  {
    if w.Some? && at < w.value.ends {
      EventInWindow(count, count', w.value, at, a, cap, window);
    } else {
      EventOpensWindow(count, count', w, at, a, cap, window);
    }
  }

  lemma EventInWindow(count: int -> nat, count': int -> nat, e: Window, at: int, a: int, cap: nat, window: int)
    requires window > 0 && Falling(count) && OneMore(count, count', at)
    requires Recorded(count, Some(e), a, cap, window) && Bounded(count, a, cap, window)
    requires e.ends - window <= at < e.ends && e.count + 1 <= cap
    ensures Recorded(count', Some(Window(e.count + 1, e.ends)), a, cap, window)
    ensures Bounded(count', a, cap, window)
  {
    var start := e.ends - window;
    assert count(if a < start then start else a) <= count(start);
    assert count(a + window) >= 0 && (a > start ==> count(a) <= count(start + 1));
  }

  lemma EventOpensWindow(count: int -> nat, count': int -> nat, w: Option<Window>, at: int, a: int, cap: nat,
                         window: int)
    requires window > 0 && cap > 0 && Falling(count) && OneMore(count, count', at)
    requires Recorded(count, w, a, cap, window) && Bounded(count, a, cap, window)
    requires w.Some? ==> w.value.ends <= at
    ensures Recorded(count', Some(Window(1, at + window)), a, cap, window)
    ensures Bounded(count', a, cap, window)
  {
    assert count(at) == 0 by {
      if w.Some? { assert count(at) <= count(w.value.ends); }
    }
    assert count(at + 1) == 0 && count(at + window) == 0;
    if w.Some? && a > at - window {
      var start := w.value.ends - window;
      assert a > start;
      assert count(a) <= count(start + 1) < w.value.count <= cap;
    }
  }
}
