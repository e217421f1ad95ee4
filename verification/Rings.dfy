/** The bounded ring behind a blocking queue (block_queue.c, block_queue.h).
    `Ring` is the value of the queue's index and slot fields; `BlockQueue` is the
    object whose push and pop update those fields in place. */
module Rings {

  const INT32_MAX := 0x7fff_ffff
  const TWO_TO_THE_32 := 0x1_0000_0000

  /** The value of a C expression of type uint32_t. */
  function Uint32(x: int): nat {
    x % TWO_TO_THE_32
  }

  /** `f` is the slot the next push fills, `r` the slot the next pop hands out. */
  datatype Ring<T> = Ring(f: nat, r: nat, data: seq<T>) {

    predicate Valid() {
      0 < |data| <= INT32_MAX && f < |data| && r < |data|
    }

    predicate IsEmpty() {
      f == r
    }

    // The second test mixes int32_t and uint32_t and is therefore unsigned.
    predicate IsFull()
      requires Valid()
    {
      f == r - 1 || f == Uint32(r + |data| - 1)
    }

    function Next(i: nat): nat {
      if i + 1 >= |data| then 0 else i + 1
    }

    /** What queue_len reports. */
    function ReportedLength(): int {
      if f >= r then f - r else |data| - 1 - (r - f)
    }

    function Write(v: T): Ring<T>
      requires Valid()
    {
      this.(data := data[f := v])
    }

    function Publish(): Ring<T> {
      this.(f := Next(f))
    }

    function Take(): Ring<T> {
      this.(r := Next(r))
    }

    // The abstract queue.

    function Capacity(): nat
      requires Valid()
    {
      |data| - 1
    }

    function Count(): nat
      requires Valid()
    {
      if f >= r then f - r else f - r + |data|
    }

    function Free(): nat
      requires Valid()
    {
      Capacity() - Count()
    }

    /** The slot of the i-th oldest item. */
    function Slot(i: nat): nat {
      if r + i < |data| then r + i else r + i - |data|
    }

    /** The stored items, oldest first. */
    function Contents(): seq<T>
      requires Valid()
    {
      seq(Count(), i requires 0 <= i < Count() => data[Slot(i)])
    }

    /** The slot most recently handed out by a pop. */
    function Previous(): nat
      requires Valid()
    {
      if r == 0 then |data| - 1 else r - 1
    }

    /** The count is f - r modulo the ring length, and the two fullness tests agree
        with the capacity. */
    lemma CountIsModular()
      requires Valid()
      ensures Count() == (f - r) % |data|
      ensures Count() <= Capacity()
      ensures IsEmpty() <==> Contents() == []
      ensures IsFull() <==> |Contents()| == Capacity()
    {
      Wraps(f - r, if f >= r then 0 else -1, |data|);
    }

    /** The ring always keeps one slot empty, and that slot is the one a consumer
        still holds: a push may write `f` only while `f` is some other slot. */
    lemma FullExactlyWhenNextWriteHitsHand()
      requires Valid()
      ensures f == Previous() <==> IsFull()
    {
    }

    /** A write without publication, as a failing callback leaves behind. */
    lemma WriteKeepsContents(v: T)
      requires Valid() && !IsFull()
      ensures Write(v).Valid() && Write(v).Contents() == Contents()
      ensures Write(v).data[Previous()] == data[Previous()]
    {
      FullExactlyWhenNextWriteHitsHand();
      var after := Write(v);
      forall i | 0 <= i < Count()
        ensures after.Contents()[i] == Contents()[i]
      {
      }
    }

    lemma PublishAppends()
      requires Valid() && !IsFull()
      ensures Publish().Valid() && Publish().Contents() == Contents() + [data[f]]
      ensures Publish().Count() == Count() + 1
      ensures Publish().Previous() == Previous()
    {
    }

    lemma TakeRemovesHead()
      requires Valid() && !IsEmpty()
      ensures Contents() == [data[r]] + Take().Contents()
      ensures Take().Valid() && Take().Count() == Count() - 1
      ensures Take().Previous() == r
    {
      var after := Take();
      forall i | 0 <= i < after.Count()
        ensures Contents()[i + 1] == after.Contents()[i]
      {
      }
    }

    /** A push refines appending to a bounded sequence. */
    lemma PushRefinesAppend(fill: Fill<T>)
      requires Valid()
      ensures IsFull() <==> |Contents()| == Capacity()
      ensures !IsFull() ==>
                var written := Write(fill.Stored());
                written.Valid() && written.Contents() == Contents()
                && written.Publish().Valid() && written.Publish().Contents() == Contents() + [fill.Stored()]
    {
      if !IsFull() {
        WriteKeepsContents(fill.Stored());
        Write(fill.Stored()).PublishAppends();
      }
    }

    /** queue_len is exact only while the indices have not wrapped past each other. */
    lemma ReportedLengthIsShort()
      requires Valid()
      ensures ReportedLength() == Count() - (if f < r then 1 else 0)
      ensures ReportedLength() == Count() <==> r <= f
    {
    }
  }

  lemma Wraps(x: int, k: int, n: int)
    requires 0 < n && 0 <= x - k * n < n
    ensures x % n == x - k * n
  {
    var q := x / n;
    assert x == q * n + x % n;
    assert (q - k) * n == (x - k * n) - x % n;
    MultipleIsFar(q - k, n);
  }

  lemma MultipleIsFar(d: int, n: int)
    requires 0 < n
    ensures d >= 1 ==> d * n >= n
    ensures d <= -1 ==> d * n <= -n
  {
  }

  /** Return codes of the queue operations; `MustWait` is the point where a blocking
      operation would wait on its condition variable. */
  datatype QueueRet = QueueOk | QueueEmpty | QueueFull | MustWait

  /** How a push fills its slot: by copying, or by a callback whose writes and
      return code the environment chooses. */
  datatype Fill<T> = Copy(value: T) | Callback(written: T, code: int) {
    function Stored(): T {
      if Copy? then value else written
    }
    predicate Cancelled() {
      Callback? && code < 0
    }
  }

  class BlockQueue<T> {
    var f: int
    var r: int
    const blocking: bool
    const data: array<T>

    ghost function View(): Ring<T>
      requires 0 <= f && 0 <= r
      reads this, data
    {
      Ring(f, r, data[..])
    }

    ghost predicate Valid()
      reads this, data
    {
      0 <= f && 0 <= r && View().Valid()
    }

    constructor (length: nat, zero: T, blocking: bool)
      requires 0 < length <= INT32_MAX
      ensures Valid() && fresh(data)
      ensures this.blocking == blocking && data.Length == length
      ensures View().Contents() == []
    {
      f, r := 0, 0;
      this.blocking := blocking;
      data := new T[length](_ => zero);
      new;
    }

    /** One uncontended critical section of queue_push. A cancelled callback reports
        success, and leaves its partial writes in the slot. */
    method Push(fill: Fill<T>) returns (ret: QueueRet)
      requires Valid()
      modifies this, data
      ensures Valid()
      ensures ret == if !old(View().IsFull()) then QueueOk else if blocking then MustWait else QueueFull
      ensures View() == if ret != QueueOk then old(View())
                        else if fill.Cancelled() then old(View()).Write(fill.Stored())
                        else old(View()).Write(fill.Stored()).Publish()
      ensures ret == QueueOk ==>
                View().Contents() == match fill
                                     case Copy(value) => old(View().Contents()) + [value]
                                     case Callback(written, code) =>
                                       if code < 0 then old(View().Contents()) else old(View().Contents()) + [written]
      ensures ret != QueueOk ==> View().Contents() == old(View().Contents()) && |View().Contents()| == data.Length - 1
    {
      View().CountIsModular();
      View().PushRefinesAppend(fill);
      if f == r - 1 || f == Uint32(r + data.Length - 1) {
        return if blocking then MustWait else QueueFull;
      }
      ghost var written := View().Write(fill.Stored());
      data[f] := fill.Stored();
      assert View() == written;
      if fill.Cancelled() {
        return QueueOk;
      }
      f := f + 1;
      if f >= data.Length {
        f := 0;
      }
      assert View() == written.Publish();
      ret := QueueOk;
    }

    /** One uncontended critical section of queue_pop: hands out the slot, not a copy. */
    method Pop() returns (ret: QueueRet, slot: nat)
      requires Valid()
      modifies this
      ensures Valid()
      ensures ret == if !old(View().IsEmpty()) then QueueOk else if blocking then MustWait else QueueEmpty
      ensures ret == QueueOk ==> View() == old(View()).Take() && slot == old(r) == View().Previous()
      ensures ret == QueueOk ==> old(View().Contents()) == [data[slot]] + View().Contents()
      ensures ret != QueueOk ==> View() == old(View()) && View().Contents() == []
    {
      View().CountIsModular();
      if !View().IsEmpty() {
        View().TakeRemovesHead();
      }
      slot := 0;
      if f == r {
        return if blocking then MustWait else QueueEmpty, slot;
      }
      slot := r;
      r := r + 1;
      if r >= data.Length {
        r := 0;
      }
      ret := QueueOk;
    }

    method Length() returns (n: int)
      requires Valid()
      ensures n == |View().Contents()| - (if f < r then 1 else 0)
    {
      View().ReportedLengthIsShort();
      n := if f >= r then f - r else data.Length - 1 - (r - f);
    }
  }
}
