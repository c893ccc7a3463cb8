/** The growing and shrinking ring buffer behind every packet queue (types/queue.go). */
module RingQueue {
  import opened Wrappers

  const MIN_QUEUE_LEN := 16

  function Pow2(n: nat): (r: nat)
    ensures r >= 1
  {
    if n == 0 then 1 else 2 * Pow2(n - 1)
  }

  /** The machine's `&` on non-negative integers, bit by bit. */
  function BitAnd(x: nat, y: nat): nat {
    if x == 0 || y == 0 then 0 else (x % 2) * (y % 2) + 2 * BitAnd(x / 2, y / 2)
  }

  lemma ModUnique(x: nat, n: nat, q: nat, r: nat)
    requires n > 0 && x == n * q + r && r < n
    ensures x % n == r
  {
    var d := x / n - q;
    assert n * d == r - x % n by {
      assert x == n * (x / n) + x % n;
      assert n * (x / n) == n * q + n * d;
    }
    MulGrows(n, d);
  }

  lemma MulGrows(n: int, d: int)
    requires n >= 0
    ensures d >= 1 ==> n * d >= n
    ensures d <= -1 ==> n * d <= -n
  {
  }

  lemma ModDouble(x: nat, h: nat)
    requires h > 0
    ensures x % (2 * h) == 2 * ((x / 2) % h) + x % 2
  {
    var y := x / 2;
    assert y == h * (y / h) + y % h;
    assert 2 * (h * (y / h)) == 2 * h * (y / h);
    ModUnique(x, 2 * h, y / h, 2 * (y % h) + x % 2);
  }

  /** `x & (n - 1)` is `x % n` when `n` is a power of two. */
  lemma {:induction false} MaskIsModulus(x: nat, e: nat)
    ensures BitAnd(x, Pow2(e) - 1) == x % Pow2(e)
    decreases e
  {
    if e > 0 {
      var h := Pow2(e - 1);
      MaskIsModulus(x / 2, e - 1);
      ModDouble(x, h);
      OddHalf(h);
    }
  }

  lemma OddHalf(h: nat)
    requires h > 0
    ensures (2 * h - 1) / 2 == h - 1 && (2 * h - 1) % 2 == 1
  {
  }

  /** Position `i` places after `head` in a buffer of `n` slots. */
  function Slot(head: nat, i: nat, n: nat): (k: nat)
    requires head < n && i <= n
    ensures k < n
  {
    if head + i < n then head + i else head + i - n
  }

  lemma SlotIsMask(head: nat, i: nat, e: nat)
    requires head < Pow2(e) && i <= Pow2(e)
    ensures BitAnd(head + i, Pow2(e) - 1) == Slot(head, i, Pow2(e))
  {
    var n := Pow2(e);
    MaskIsModulus(head + i, e);
    ModUnique(head + i, n, if head + i < n then 0 else 1, Slot(head, i, n));
  }

  /** The bitwise modulus, in the range the queue uses it. */
  method Mask(head: nat, i: nat, capacity: nat, ghost e: nat) returns (k: nat)
    requires capacity == Pow2(e) && head < capacity && i <= capacity
    ensures k == Slot(head, i, capacity)
  {
    SlotIsMask(head, i, e);
    k := BitAnd(head + i, capacity - 1);
  }

  // ------------------------------------------------------------------
  // The cost of resizing

  datatype Call = Adding | Removing

  /** Elements queued, capacity, and elements copied by `resize` so far. */
  datatype Meter = Meter(count: nat, capacity: nat, copied: nat)

  function Tick(m: Meter, c: Call): Meter {
    match c
    case Adding =>
      if m.count == m.capacity then Meter(m.count + 1, 2 * m.count, m.copied + m.count)
      else m.(count := m.count + 1)
    case Removing =>
      if m.count == 0 then m
      else
        var n := m.count - 1;
        if m.capacity > MIN_QUEUE_LEN && 4 * n == m.capacity then Meter(n, 2 * n, m.copied + n)
        else m.(count := n)
  }

  /** The meter of a new queue after the calls `h`. */
  function MeterOf(h: seq<Call>): Meter {
    if |h| == 0 then Meter(0, MIN_QUEUE_LEN, 0) else Tick(MeterOf(h[..|h| - 1]), h[|h| - 1])
  }

  /** What `resize` will have to copy that past calls have already paid for:
      zero when the buffer is half full. */
  function Potential(m: Meter): int {
    if 2 * m.count >= m.capacity then 2 * m.count - m.capacity else m.capacity / 2 - m.count
  }

  /** Each call pays two units, for what it copies and for what it adds to the potential. */
  lemma TickPays(m: Meter, c: Call)
    requires m.count <= m.capacity && 0 < m.capacity && m.capacity % 2 == 0
    ensures var t := Tick(m, c);
      && t.count <= t.capacity && 0 < t.capacity && t.capacity % 2 == 0
      && t.copied + Potential(t) <= m.copied + Potential(m) + 2
  {
  }

  lemma {:induction false} PotentialPays(h: seq<Call>)
    ensures var m := MeterOf(h);
      && m.count <= m.capacity && 0 < m.capacity && m.capacity % 2 == 0
      && m.copied + Potential(m) <= 2 * |h| + 8
    decreases |h|
  {
    if |h| > 0 {
      PotentialPays(h[..|h| - 1]);
      TickPays(MeterOf(h[..|h| - 1]), h[|h| - 1]);
    }
  }

  /** The amortised bound: over any calls of `Add` and `Remove` on a new queue,
      `resize` copies at most two elements per call, plus eight. */
  lemma CopyBound(h: seq<Call>)
    ensures MeterOf(h).copied <= 2 * |h| + 8
  {
    PotentialPays(h);
  }

  lemma {:induction false} Pow2AtLeast(e: nat)
    requires Pow2(e) > MIN_QUEUE_LEN
    ensures e > 0 && 2 * Pow2(e - 1) == Pow2(e) && Pow2(e - 1) >= MIN_QUEUE_LEN
  {
    Pow2Monotone(e, 4);
    Pow2Monotone(4, e - 1);
    assert Pow2(4) == 16;
  }

  lemma {:induction false} Pow2Monotone(a: nat, b: int)
    ensures a <= b ==> Pow2(a) <= Pow2(b)
    decreases b
  {
    if a < b {
      Pow2Monotone(a, b - 1);
    }
  }

  class Queue<T(0)> {
    var buf: array<Option<T>>
    var head: nat
    var tail: nat
    var count: nat
    /** The queued elements, oldest first. */
    ghost var contents: seq<T>
    /** log2 of the capacity. */
    ghost var exponent: nat
    /** Elements copied by `resize` so far, and the calls of `Add` and `Remove` so far. */
    ghost var copied: nat
    ghost var history: seq<Call>

    ghost predicate Shape()
      reads this, buf
    {
      && buf.Length == Pow2(exponent) && buf.Length >= MIN_QUEUE_LEN
      && head < buf.Length && count <= buf.Length && |contents| == count
      && tail == Slot(head, count, buf.Length)
      && (forall i :: 0 <= i < count ==> buf[Slot(head, i, buf.Length)] == Some(contents[i]))
    }

    ghost predicate Valid()
      reads this, buf
    {
      Shape() && MeterOf(history) == Meter(count, buf.Length, copied)
    }

    constructor ()
      ensures Valid() && fresh(buf) && contents == []
      ensures copied == 0 && history == []
    {
      buf := new Option<T>[MIN_QUEUE_LEN](_ => None);
      head, tail, count, contents := 0, 0, 0, [];
      exponent, copied, history := 4, 0, [];
      new;
      assert Pow2(4) == 16;
    }

    /** The amortised bound holds of every queue at every time. */
    lemma CopiesArePaid()
      requires Valid()
      ensures copied <= 2 * |history| + 8
    {
      CopyBound(history);
    }

    method Length() returns (n: nat)
      requires Valid()
      ensures n == |contents|
    {
      n := count;
    }

    /** Moves the elements, in order, to the front of a buffer of twice their number. */
    method Resize(ghost newExponent: nat)
      requires Shape()
      requires 2 * count == Pow2(newExponent) >= MIN_QUEUE_LEN
      modifies this`buf, this`head, this`tail, this`exponent, this`copied
      ensures Shape() && fresh(buf)
      ensures buf.Length == 2 * count && exponent == newExponent
      ensures copied == old(copied) + count
    {
      var newBuf := new Option<T>[2 * count](_ => None);
      if tail > head {
        assert tail - head == count;
        forall i | 0 <= i < tail - head {
          newBuf[i] := buf[head + i];
        }
        assert forall i :: 0 <= i < count ==> newBuf[i] == buf[Slot(head, i, buf.Length)];
      } else {
        var n := buf.Length - head;
        forall i | 0 <= i < n {
          newBuf[i] := buf[head + i];
        }
        forall i | n <= i < n + tail {
          newBuf[i] := buf[i - n];
        }
        assert forall i :: 0 <= i < count ==> newBuf[i] == buf[Slot(head, i, buf.Length)];
      }
      head := 0;
      tail := count;
      buf := newBuf;
      exponent := newExponent;
      copied := copied + count;
    }

    /** The store into a buffer that has room. */
    method Store(elem: T)
      requires Shape() && count < buf.Length
      modifies this`tail, this`count, this`contents, buf
      ensures Shape() && contents == old(contents) + [elem]
    {
      assert forall i :: 0 <= i < count ==> Slot(head, i, buf.Length) != tail;
      buf[tail] := Some(elem);
      tail := Mask(tail, 1, buf.Length, exponent);
      count := count + 1;
      contents := contents + [elem];
    }

    method Add(elem: T)
      requires Valid()
      modifies this, buf
      ensures Valid() && (buf == old(buf) || fresh(buf))
      ensures contents == old(contents) + [elem]
      ensures history == old(history) + [Adding]
    {
      if count == buf.Length {
        Resize(exponent + 1);
      }
      Store(elem);
      history := history + [Adding];
    }

    method Peek() returns (r: Option<T>)
      requires Valid()
      ensures r == if contents == [] then None else Some(contents[0])
    {
      if count == 0 {
        return None;
      }
      r := buf[head];
      assert head == Slot(head, 0, buf.Length);
    }

    /** None stands for the panic on an index out of range. */
    method Get(i: int) returns (r: Option<T>)
      requires Valid()
      ensures r == if 0 <= i < |contents| then Some(contents[i])
                   else if -|contents| <= i < 0 then Some(contents[|contents| + i]) else None
    {
      var j := if i < 0 then i + count else i;
      if j < 0 || j >= count {
        return None;
      }
      var k := Mask(head, j, buf.Length, exponent);
      r := buf[k];
    }

    /** The load from the front of a buffer that is not empty. */
    method Load() returns (r: T)
      requires Shape() && count > 0
      modifies this`head, this`count, this`contents, buf
      ensures Shape() && r == old(contents)[0] && contents == old(contents)[1..]
    {
      ghost var n := buf.Length;
      assert head == Slot(head, 0, n);
      assert forall i :: 0 <= i < count - 1 ==> Slot(Slot(head, 1, n), i, n) == Slot(head, i + 1, n) != head;
      r := buf[head].value;
      buf[head] := None;
      head := Mask(head, 1, buf.Length, exponent);
      count := count - 1;
      contents := contents[1..];
    }

    method Remove() returns (r: Option<T>)
      requires Valid()
      modifies this, buf
      ensures Valid() && (buf == old(buf) || fresh(buf))
      ensures old(contents) == [] ==> r == None && contents == []
      ensures old(contents) != [] ==> r == Some(old(contents)[0]) && contents == old(contents)[1..]
      ensures history == old(history) + [Removing]
    {
      history := history + [Removing];
      if count == 0 {
        return None;
      }
      var elem := Load();
      r := Some(elem);
      if buf.Length > MIN_QUEUE_LEN && 4 * count == buf.Length {
        Pow2AtLeast(exponent);
        Resize(exponent - 1);
      }
    }
  }
}
