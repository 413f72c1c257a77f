/** A growing ring buffer that refines an unbounded FIFO sequence. */
module RingBuffers {
  const RINGBUFFER_MIN := 8
  const RINGBUFFER_EXP := 1024

  // A callback sees an element and a state of its own; it changes both and says whether to
  // go on.
  type Callback<!S, !T> = (S, T) -> (S, T, bool)

  // The state of the callback after the first i elements.
  function StateUp<S, T>(s: seq<T>, fn: Callback<S, T>, st: S, i: nat): S
    requires i <= |s|
  {
    if i == 0 then st else fn(StateUp(s, fn, st, i - 1), s[i - 1]).0
  }

  // The same, from the back, once the elements from i on are done.
  function StateDown<S, T>(s: seq<T>, fn: Callback<S, T>, st: S, i: nat): S
    requires i <= |s|
    decreases |s| - i
  {
    if i == |s| then st else fn(StateDown(s, fn, st, i + 1), s[i]).0
  }

  // What the callback answers at element i, on the way up and on the way down.
  function AtUp<S, T>(s: seq<T>, fn: Callback<S, T>, st: S, i: nat): (S, T, bool)
    requires i < |s|
  {
    fn(StateUp(s, fn, st, i), s[i])
  }

  function AtDown<S, T>(s: seq<T>, fn: Callback<S, T>, st: S, i: nat): (S, T, bool)
    requires i < |s|
  {
    fn(StateDown(s, fn, st, i + 1), s[i])
  }

  // cur is s with the first n elements replaced by what the callback made of them; it asked
  // to go on after each of these, except possibly `last`.
  ghost predicate VisitedUp<S, T>(s: seq<T>, fn: Callback<S, T>, st: S, cur: seq<T>, n: nat, last: int) {
    && |cur| == |s| && n <= |s|
    && (forall i :: 0 <= i < |s| ==> cur[i] == if i < n then AtUp(s, fn, st, i).1 else s[i])
    && (forall i :: 0 <= i < n && i != last ==> AtUp(s, fn, st, i).2)
  }

  // The same for the elements from n on.
  ghost predicate VisitedDown<S, T>(s: seq<T>, fn: Callback<S, T>, st: S, cur: seq<T>, n: nat, last: int) {
    && |cur| == |s| && n <= |s|
    && (forall i :: 0 <= i < |s| ==> cur[i] == if n <= i then AtDown(s, fn, st, i).1 else s[i])
    && (forall i :: n <= i < |s| && i != last ==> AtDown(s, fn, st, i).2)
  }

  lemma {:induction false} OneUp<S, T>(s: seq<T>, fn: Callback<S, T>, st: S, cur: seq<T>, n: nat)
    requires VisitedUp(s, fn, st, cur, n, n) && n < |s|
    ensures var r := AtUp(s, fn, st, n);
            && cur[n] == s[n] && StateUp(s, fn, st, n + 1) == r.0
            && VisitedUp(s, fn, st, cur[n := r.1], n + 1, if r.2 then n + 1 else n)
  {
  }

  lemma {:induction false} OneDown<S, T>(s: seq<T>, fn: Callback<S, T>, st: S, cur: seq<T>, n: nat)
    requires 0 < n <= |s| && VisitedDown(s, fn, st, cur, n, -1)
    ensures var r := AtDown(s, fn, st, n - 1);
            && cur[n - 1] == s[n - 1] && StateDown(s, fn, st, n - 1) == r.0
            && VisitedDown(s, fn, st, cur[n - 1 := r.1], n - 1, if r.2 then -1 else n - 1)
  {
  }

  function Next(i: nat, n: nat): (r: nat)
    requires i < n
    ensures r == if i + 1 < n then i + 1 else 0
  {
    (i + 1) % n
  }

  // The live region of the slots s, in order.
  function Ring<T>(s: seq<T>, head: nat, tail: nat): seq<T>
    requires head <= |s| && tail <= |s|
  {
    if head <= tail then s[head..tail] else s[head..] + s[..tail]
  }

  lemma {:induction false} RingPush<T>(s: seq<T>, head: nat, tail: nat, v: T)
    requires head < |s| && tail < |s| && Next(tail, |s|) != head
    ensures Ring(s[tail := v], head, Next(tail, |s|)) == Ring(s, head, tail) + [v]
  {
  }

  lemma {:induction false} RingPop<T>(s: seq<T>, head: nat, tail: nat, v: T)
    requires head < |s| && tail < |s| && head != tail
    ensures Ring(s, head, tail) == [s[head]] + Ring(s[head := v], Next(head, |s|), tail)
  {
  }

  // The slot of the k-th live element.
  function Slot(head: nat, k: nat, n: nat): nat {
    if head + k < n then head + k else head + k - n
  }

  lemma {:induction false} RingUpdate<T>(s: seq<T>, head: nat, tail: nat, k: nat, x: T)
    requires head < |s| && tail < |s| && k < |Ring(s, head, tail)|
    ensures Slot(head, k, |s|) < |s|
    ensures Ring(s, head, tail)[k] == s[Slot(head, k, |s|)]
    ensures Ring(s[Slot(head, k, |s|) := x], head, tail) == Ring(s, head, tail)[k := x]
  {
  }

  class RingBuffer<T(0, !new)> {
    const zero: T
    var head: nat
    var tail: nat
    var elements: array<T>

    ghost predicate Live(i: int)
      reads this
    {
      if head <= tail then head <= i < tail else head <= i || i < tail
    }

    // Slots outside the live region are zeroed, so that nothing popped is retained.
    ghost predicate Valid()
      reads this, elements
    {
      && RINGBUFFER_MIN <= elements.Length
      && head < elements.Length && tail < elements.Length
      && forall i :: 0 <= i < elements.Length && !Live(i) ==> elements[i] == zero
    }

    ghost function Contents(): seq<T>
      reads this, elements
      requires head <= elements.Length && tail <= elements.Length
    {
      Ring(elements[..], head, tail)
    }

    constructor (size: int, zero: T)
      ensures Valid() && Contents() == [] && this.zero == zero && fresh(elements)
    {
      this.zero := zero;
      head, tail := 0, 0;
      elements := new T[if size <= RINGBUFFER_MIN then RINGBUFFER_MIN else size](_ => zero);
    }

    method Len() returns (n: nat)
      requires Valid()
      ensures n == |Contents()|
    {
      if head <= tail {
        return tail - head;
      }
      return elements.Length - head + tail;
    }

    method IsEmpty() returns (r: bool)
      requires Valid()
      ensures r <==> Contents() == []
    {
      r := head == tail;
    }

    method MaxLen() returns (n: nat)
      requires Valid()
      ensures n == elements.Length - 1 && |Contents()| <= n
    {
      n := elements.Length - 1;
    }

    method IsFull() returns (r: bool)
      requires Valid()
      ensures r <==> |Contents()| == elements.Length - 1
    {
      r := Next(tail, elements.Length) == head;
    }

    // Copy the slots from lo up to hi to another array, from at on.
    method CopyOut(to: array<T>, at: nat, lo: nat, hi: nat)
      requires lo <= hi <= elements.Length && at + (hi - lo) <= to.Length && to != elements
      modifies to
      ensures forall j :: at <= j < at + (hi - lo) ==> to[j] == elements[lo + j - at]
      ensures forall j :: 0 <= j < to.Length && !(at <= j < at + (hi - lo)) ==> to[j] == old(to[j])
    {
      for i := lo to hi
        invariant forall j :: at <= j < at + i - lo ==> to[j] == elements[lo + j - at]
        invariant forall j :: 0 <= j < to.Length && !(at <= j < at + i - lo) ==> to[j] == old(to[j])
      {
        to[at + i - lo] := elements[i];
      }
    }

    // The size to grow to.
    function NewSize(size: nat): (n: nat)
      ensures n > size
    {
      if size < RINGBUFFER_MIN then RINGBUFFER_MIN
      else if size < RINGBUFFER_EXP then size * 2
      else size + (size + 9) / 10
    }

    method Grow()
      requires Valid()
      modifies this
      ensures Valid() && Contents() == old(Contents()) && fresh(elements)
      ensures elements.Length == NewSize(old(elements.Length))
    {
      var length := Len();
      var newElements := new T[NewSize(elements.Length)](_ => zero);
      if head < tail {
        CopyOut(newElements, 0, head, tail);
      } else {
        var n := elements.Length - head;
        CopyOut(newElements, 0, head, elements.Length);
        CopyOut(newElements, n, 0, tail);
      }
      assert newElements[..length] == Contents();
      head, tail, elements := 0, length, newElements;
      assert elements[..][0..length] == elements[..length];
    }

    method Push(v: T)
      requires Valid()
      modifies this, elements
      ensures Valid() && Contents() == old(Contents()) + [v]
      ensures elements == old(elements) || fresh(elements)
    {
      var full := IsFull();
      if full {
        Grow();
      }
      ghost var slots := elements[..];
      RingPush(slots, head, tail, v);
      elements[tail] := v;
      assert elements[..] == slots[tail := v];
      tail := Next(tail, elements.Length);
    }

    // Zero the first slot and move on.
    method DropFirst()
      requires Valid() && Contents() != []
      modifies this`head, elements
      ensures Valid() && Contents() == old(Contents())[1..]
    {
      ghost var slots := elements[..];
      RingPop(slots, head, tail, zero);
      elements[head] := zero;
      assert elements[..] == slots[head := zero];
      head := Next(head, elements.Length);
    }

    method Pop() returns (value: T, ok: bool)
      requires Valid()
      modifies this, elements
      ensures Valid() && elements == old(elements)
      ensures ok <==> old(Contents()) != []
      ensures ok ==> [value] + Contents() == old(Contents())
      ensures !ok ==> value == zero && Contents() == []
    {
      var n := Len();
      if n == 0 {
        return zero, false;
      }
      RingPop(elements[..], head, tail, zero);
      value := elements[head];
      DropFirst();
      ok := true;
    }

    method Peek() returns (value: T, ok: bool)
      requires Valid()
      ensures ok <==> Contents() != []
      ensures ok ==> value == Contents()[0]
    {
      var n := Len();
      if n == 0 {
        return zero, false;
      }
      return elements[head], true;
    }

    method Clear()
      requires Valid()
      modifies this, elements
      ensures Valid() && Contents() == [] && elements == old(elements)
    {
      if head <= tail {
        for i := head to tail
          modifies elements
          invariant forall k :: 0 <= k < elements.Length && (!Live(k) || head <= k < i) ==> elements[k] == zero
        {
          elements[i] := zero;
        }
      } else {
        for i := head to elements.Length
          modifies elements
          invariant forall k :: 0 <= k < elements.Length && (!Live(k) || head <= k < i) ==> elements[k] == zero
        {
          elements[i] := zero;
        }
        for i := 0 to tail
          modifies elements
          invariant forall k :: 0 <= k < elements.Length && (!Live(k) || head <= k || k < i) ==> elements[k] == zero
        {
          elements[i] := zero;
        }
      }
      head, tail := 0, 0;
    }

    // A negative count is returned as it is, and discards nothing.
    method Discard(want: int) returns (n: int)
      requires Valid()
      modifies this, elements
      ensures Valid() && elements == old(elements)
      ensures n == if want <= |old(Contents())| then want else |old(Contents())|
      ensures Contents() == old(Contents())[if n < 0 then 0 else n..]
    {
      var length := Len();
      n := if want <= length then want else length;
      if n == length {
        Clear();
        return;
      }
      ghost var s := Contents();
      for i := 0 to if n < 0 then 0 else n
        invariant Valid() && Contents() == s[i..] && elements == old(elements)
      {
        DropFirst();
      }
    }

    // Visit the k-th element.
    method Visit<S>(i: nat, fn: Callback<S, T>, st: S, ghost k: nat) returns (st1: S, more: bool)
      requires Valid() && k < |Contents()| && i == Slot(head, k, elements.Length)
      modifies elements
      ensures var r := fn(st, old(Contents())[k]);
              Valid() && Contents() == old(Contents())[k := r.1] && st1 == r.0 && more == r.2
    {
      ghost var slots := elements[..];
      var (s, x, m) := fn(st, elements[i]);
      RingUpdate(slots, head, tail, k, x);
      elements[i] := x;
      assert elements[..] == slots[i := x];
      st1, more := s, m;
    }

    // Visit the next element on the way up.
    method StepUp<S>(i: nat, fn: Callback<S, T>, cur: S, ghost st: S, ghost s: seq<T>, ghost n: nat)
      returns (st1: S, more: bool)
      requires Valid() && n < |s| && i == Slot(head, n, elements.Length)
      requires VisitedUp(s, fn, st, Contents(), n, n) && cur == StateUp(s, fn, st, n)
      modifies elements
      ensures Valid() && VisitedUp(s, fn, st, Contents(), n + 1, if more then n + 1 else n)
      ensures st1 == StateUp(s, fn, st, n + 1) && more == AtUp(s, fn, st, n).2
    {
      OneUp(s, fn, st, Contents(), n);
      st1, more := Visit(i, fn, cur, n);
    }

    // Visits the slots from lo up to hi, which hold the elements from k on of s.
    method VisitUp<S>(lo: nat, hi: nat, fn: Callback<S, T>, cur: S, ghost st: S, ghost s: seq<T>, ghost k: nat)
      returns (st1: S, more: bool, ghost n: nat)
      requires Valid() && lo <= hi && VisitedUp(s, fn, st, Contents(), k, k) && cur == StateUp(s, fn, st, k)
      requires k + (hi - lo) <= |s| && hi <= elements.Length && (lo < hi ==> lo == Slot(head, k, elements.Length))
      modifies elements
      ensures Valid() && k <= n <= k + (hi - lo) && VisitedUp(s, fn, st, Contents(), n, if more then n else n - 1)
      ensures st1 == StateUp(s, fn, st, n)
      ensures if more then n == k + (hi - lo) else n > k && !AtUp(s, fn, st, n - 1).2
    {
      n, more, st1 := k, true, cur;
      for i := lo to hi
        invariant Valid() && n == k + i - lo && VisitedUp(s, fn, st, Contents(), n, n) && more
        invariant st1 == StateUp(s, fn, st, n)
      {
        st1, more := StepUp(i, fn, st1, st, s, n);
        n := n + 1;
        if !more {
          return;
        }
      }
    }

    // Visits the slots from hi down to lo, which hold the elements of s before k.
    method VisitDown<S>(lo: nat, hi: nat, fn: Callback<S, T>, cur: S, ghost st: S, ghost s: seq<T>, ghost k: nat)
      returns (st1: S, more: bool, ghost n: nat)
      requires Valid() && lo <= hi && k <= |s| && VisitedDown(s, fn, st, Contents(), k, -1)
      requires hi - lo <= k && hi <= elements.Length && (lo < hi ==> hi - 1 == Slot(head, k - 1, elements.Length))
      requires cur == StateDown(s, fn, st, k)
      modifies elements
      ensures Valid() && k - (hi - lo) <= n <= k && VisitedDown(s, fn, st, Contents(), n, if more then -1 else n)
      ensures st1 == StateDown(s, fn, st, n)
      ensures if more then n == k - (hi - lo) else n < k && !AtDown(s, fn, st, n).2
    {
      n, more, st1 := k, true, cur;
      for i := hi downto lo
        invariant Valid() && n == k + i - hi && VisitedDown(s, fn, st, Contents(), n, -1) && more
        invariant st1 == StateDown(s, fn, st, n)
      {
        OneDown(s, fn, st, Contents(), n);
        n := n - 1;
        st1, more := Visit(i, fn, st1, n);
        if !more {
          return;
        }
      }
    }

    // Visits from the front, n elements in all: up to and including the first at which the
    // callback asks to stop.
    method ForEach<S>(st: S, fn: Callback<S, T>) returns (st1: S, ghost n: nat)
      requires Valid()
      modifies elements
      ensures Valid() && VisitedUp(old(Contents()), fn, st, Contents(), n, n - 1)
      ensures st1 == StateUp(old(Contents()), fn, st, n)
      ensures n == |Contents()| || (n > 0 && !AtUp(old(Contents()), fn, st, n - 1).2)
    {
      ghost var s := Contents();
      n, st1 := 0, st;
      var more;
      if head < tail {
        st1, more, n := VisitUp(head, tail, fn, st1, st, s, 0);
      } else if head > tail {
        st1, more, n := VisitUp(head, elements.Length, fn, st1, st, s, 0);
        if more {
          st1, more, n := VisitUp(0, tail, fn, st1, st, s, n);
        }
      }
    }

    // Visits from the back, down to and including the last at which the callback asks to stop.
    method ForEachReverse<S>(st: S, fn: Callback<S, T>) returns (st1: S, ghost n: nat)
      requires Valid()
      modifies elements
      ensures Valid() && n <= |Contents()| && VisitedDown(old(Contents()), fn, st, Contents(), n, n)
      ensures st1 == StateDown(old(Contents()), fn, st, n)
      ensures n == 0 || (n < |Contents()| && !AtDown(old(Contents()), fn, st, n).2)
    {
      ghost var s := Contents();
      n, st1 := |s|, st;
      var more;
      if head < tail {
        st1, more, n := VisitDown(head, tail, fn, st1, st, s, n);
      } else if head > tail {
        st1, more, n := VisitDown(0, tail, fn, st1, st, s, n);
        if more {
          st1, more, n := VisitDown(head, elements.Length, fn, st1, st, s, n);
        }
      }
    }
  }
}
