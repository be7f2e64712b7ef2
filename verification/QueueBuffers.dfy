/** queue.c in its own form: a ring buffer of bytes with a read and a write position, and lock
    counts.  Every method is proved to do what module Queues says on the items stored. */
module QueueBuffers {
  import opened Bytes
  import opened Queues

  /** Slot numbers run around the buffer; x is at most two rounds ahead. */
  function Wrap(x: nat, length: nat): nat {
    if x < length then x else if x < 2 * length then x - length else x - 2 * length
  }

  /** The bytes of slot number k. */
  ghost function Slot(data: seq<Byte>, size: nat, k: nat): Entry {
    if k * size + size <= |data| then data[k * size..k * size + size] else []
  }

  /** The items stored, in the order in which they will be read. */
  ghost function Items(data: seq<Byte>, size: nat, length: nat, readSlot: nat, count: nat): (items: seq<Entry>)
    ensures |items| == count
  {
    seq(count, i requires 0 <= i < count => Slot(data, size, Wrap(readSlot + 1 + i, length)))
  }

  lemma NoBytes(data: seq<Byte>, length: nat, r: nat, count: nat)
    ensures forall i :: 0 <= i < count ==> Items(data, 0, length, r, count)[i] == []
  {
    forall i | 0 <= i < count ensures Items(data, 0, length, r, count)[i] == [] {
      assert Items(data, 0, length, r, count)[i] == Slot(data, 0, Wrap(r + 1 + i, length)) == [];
    }
  }

  lemma SlotsApart(j: nat, k: nat, size: nat)
    requires j < k
    ensures j * size + size <= k * size
  {
    assert k * size == (k - 1) * size + size;
    if j < k - 1 {
      SlotsApart(j, k - 1, size);
    }
  }

  lemma SlotFits(k: nat, length: nat, size: nat)
    requires k < length
    ensures k * size + size <= length * size
  {
    SlotsApart(k, length, size);
  }

  /** Slot k of `data` holds the item and the other slots are as they were. */
  ghost predicate Filled(was: seq<Byte>, data: seq<Byte>, length: nat, size: nat, k: nat, item: Entry) {
    forall j {:trigger Slot(data, size, j)} :: 0 <= j < length ==>
      Slot(data, size, j) == if j == k then item else Slot(was, size, j)
  }

  lemma FillingFills(was: seq<Byte>, data: seq<Byte>, length: nat, size: nat, k: nat, item: Entry)
    requires k < length && length * size < |was| == |data| && |item| == size && k * size + size <= |data|
    requires forall i :: 0 <= i < size ==> data[k * size + i] == item[i]
    requires forall i :: 0 <= i < |data| && !(k * size <= i < k * size + size) ==> data[i] == was[i]
    ensures Filled(was, data, length, size, k, item)
  {
    forall j | 0 <= j < length
      ensures Slot(data, size, j) == if j == k then item else Slot(was, size, j)
    {
      SlotFits(j, length, size);
      if j < k { SlotsApart(j, k, size); } else if k < j { SlotsApart(k, j, size); }
    }
  }

  lemma ItemsAppended(was: seq<Byte>, data: seq<Byte>, length: nat, size: nat, r: nat, count: nat, item: Entry)
    requires r < length && count < length && Filled(was, data, length, size, Wrap(r + 1 + count, length), item)
    ensures Items(data, size, length, r, count + 1) == Items(was, size, length, r, count) + [item]
  {
    hide Slot;
    forall i | 0 <= i <= count
      ensures Items(data, size, length, r, count + 1)[i] == (Items(was, size, length, r, count) + [item])[i]
    {
      assert Items(data, size, length, r, count + 1)[i] == Slot(data, size, Wrap(r + 1 + i, length));
    }
  }

  lemma ItemsPrepended(was: seq<Byte>, data: seq<Byte>, length: nat, size: nat, r: nat, count: nat, item: Entry)
    requires r < length && count < length && Filled(was, data, length, size, r, item)
    ensures Items(data, size, length, Wrap(r + length - 1, length), count + 1)
            == [item] + Items(was, size, length, r, count)
  {
    hide Slot;
    var r' := Wrap(r + length - 1, length);
    assert Items(data, size, length, r', count + 1)[0] == Slot(data, size, Wrap(r' + 1, length)) == item;
    forall i | 0 <= i < count
      ensures Items(data, size, length, r', count + 1)[i + 1] == Items(was, size, length, r, count)[i]
    {
      assert Wrap(r' + 1 + (i + 1), length) == Wrap(r + 1 + i, length) != r;
    }
  }

  /** The first item is in the slot after the read slot. */
  lemma ItemsHead(data: seq<Byte>, length: nat, size: nat, r: nat, count: nat)
    requires r < length && 0 < count <= length
    ensures Items(data, size, length, r, count)[0] == Slot(data, size, Wrap(r + 1, length))
    ensures Items(data, size, length, Wrap(r + 1, length), count - 1) == Items(data, size, length, r, count)[1..]
  {
    hide Slot;
    forall i | 0 <= i < count - 1
      ensures Items(data, size, length, Wrap(r + 1, length), count - 1)[i] == Items(data, size, length, r, count)[1..][i]
    {
      assert Wrap(Wrap(r + 1, length) + 1 + i, length) == Wrap(r + 1 + (i + 1), length);
    }
  }

  /** Stepping a position one item on, or back, steps its slot number around the buffer. */
  lemma StepOn(k: nat, length: nat, size: nat)
    requires k < length
    ensures Wrap(k + 1, length) * size == if length * size <= k * size + size then 0 else k * size + size
  {
    if k + 1 < length {
      SlotFits(k + 1, length, size);
      assert k * size + size == (k + 1) * size;
    } else {
      assert k * size + size == length * size;
    }
  }

  lemma StepBack(k: nat, length: nat, size: nat)
    requires k < length && 0 < size
    ensures Wrap(k + length - 1, length) * size == if k * size < size then length * size - size else k * size - size
  {
    if k == 0 {
      assert (length - 1) * size == length * size - size;
    } else {
      SlotsApart(0, k, size);
      assert (k - 1) * size == k * size - size;
    }
  }

  class Queue {
    const length: nat
    const itemSize: nat
    const mutex: bool
    const buffer: array<Byte>
    var count: nat
    var writeTo: nat
    var readFrom: nat
    var txLock: int
    var rxLock: int
    var holder: Holder
    var receivers: seq<Task>
    var senders: seq<Task>
    ghost var readSlot: nat
    ghost var phase: Phase
    ghost var wokenR: nat
    ghost var wokenS: nat
    ghost var sent: seq<Entry>
    ghost var got: seq<Entry>

    /** The slot written next is always the one `count` places past the slot read next. */
    ghost predicate Valid()
      reads this
    {
      && readSlot < length && count <= length && length * itemSize < buffer.Length
      && readFrom == readSlot * itemSize
      && writeTo == Wrap(readSlot + 1 + count, length) * itemSize
      && (mutex ==> itemSize == 0)
    }

    ghost function Contents(): seq<Entry>
      requires Valid()
      reads this, buffer
    {
      Items(buffer[..], itemSize, length, readSlot, count)
    }

    ghost function Abs(): Q
      requires Valid()
      reads this, buffer
    {
      Q(Contents(), length, mutex, holder, txLock, rxLock, receivers, senders, phase, wokenR, wokenS, sent, got)
    }

    /** xQueueCreate, with memory at hand. */
    constructor (length: nat, itemSize: nat)
      requires 0 < length
      ensures Valid() && Abs() == Created(length) && this.length == length && this.itemSize == itemSize
      ensures fresh(buffer) && writeTo == 0 && readFrom == (length - 1) * itemSize
    {
      this.length, this.itemSize, mutex, holder := length, itemSize, false, Nobody;
      buffer := new Byte[length * itemSize + 1];
      count, writeTo, readFrom := 0, 0, (length - 1) * itemSize;
      txLock, rxLock, receivers, senders := UNLOCKED, UNLOCKED, [], [];
      readSlot, phase, wokenR, wokenS, sent, got := length - 1, Idle, 0, 0, [], [];
    }

    /** xQueueCreateMutex, with memory at hand: nothing is stored in it, and it starts free. */
    constructor Mutex()
      ensures Valid() && Abs() == CreatedMutex() && itemSize == 0
      ensures fresh(buffer)
    {
      length, itemSize, mutex, holder := 1, 0, true, Nobody;
      buffer := new Byte[1];
      count, writeTo, readFrom := 0, 0, 0;
      txLock, rxLock, receivers, senders := UNLOCKED, UNLOCKED, [], [];
      readSlot, phase, wokenR, wokenS, sent, got := 0, Idle, 0, 0, [], [];
      new;
      var done, higher, released := Send([], true, {});
    }

    // ----- the buffer -----------------------------------------------------------------------------

    /** memcpy into slot k. */
    method Fill(at: nat, ghost k: nat, item: Entry)
      requires |item| == itemSize && length * itemSize < buffer.Length && k < length && at == k * itemSize
      modifies buffer
      ensures Filled(old(buffer[..]), buffer[..], length, itemSize, k, item)
    {
      SlotFits(k, length, itemSize);
      forall i | 0 <= i < |item| {
        buffer[at + i] := item[i];
      }
      FillingFills(old(buffer[..]), buffer[..], length, itemSize, k, item);
    }

    method WriteToBack(item: Entry)
      requires Valid() && |item| == itemSize && count < length
      modifies buffer, `count, `writeTo
      ensures Valid() && Contents() == old(Contents()) + [item]
    {
      hide Filled, Wrap, Items;
      ghost var k := Wrap(readSlot + 1 + count, length);
      WrapFits(readSlot + 1 + count, length);
      Fill(writeTo, k, item);
      StepOn(k, length, itemSize);
      writeTo := writeTo + itemSize;
      if length * itemSize <= writeTo {
        writeTo := 0;
      }
      ItemsAppended(old(buffer[..]), buffer[..], length, itemSize, readSlot, count, item);
      WrapNext(readSlot + 1 + count, length);
      count := count + 1;
    }

    method WriteToFront(item: Entry)
      requires Valid() && |item| == itemSize && count < length && 0 < itemSize
      modifies buffer, `count, `readFrom, `readSlot
      ensures Valid() && Contents() == [item] + old(Contents())
    {
      hide Filled, Items, Wrap;
      Fill(readFrom, readSlot, item);
      WrapBack(readSlot, count, length);
      StepBack(readSlot, length, itemSize);
      if readFrom < itemSize {
        readFrom := length * itemSize - itemSize;
      } else {
        readFrom := readFrom - itemSize;
      }
      ItemsPrepended(old(buffer[..]), buffer[..], length, itemSize, readSlot, count, item);
      readSlot := Wrap(readSlot + length - 1, length);
      count := count + 1;
      assert readSlot + 1 + count == readSlot + old(count) + 2;
    }

    /** With items of no bytes only the count matters. */
    method WriteNothing(item: Entry, ghost back: bool)
      requires Valid() && item == [] && itemSize == 0 && count < length
      modifies `count, `readSlot
      ensures Valid() && Contents() == if back then old(Contents()) + [item] else [item] + old(Contents())
    {
      NoBytes(buffer[..], length, readSlot, count);
      NoBytes(buffer[..], length, readSlot, count + 1);
      count := count + 1;
    }

    /** prvCopyDataToQueue; `released` is the task whose priority vTaskPriorityDisinherit takes
        back. */
    method CopyDataToQueue(item: Entry, back: bool) returns (released: Holder)
      requires Valid() && |item| == itemSize && count < length
      modifies buffer, `count, `writeTo, `readFrom, `readSlot, `sent, `holder
      ensures Valid() && Abs() == old(Abs()).Stored(item, back)
      ensures released == if mutex then old(holder) else Nobody
    {
      hide Items, Wrap;
      released := Nobody;
      if itemSize == 0 {
        if mutex {
          released, holder := holder, Nobody;
        }
        WriteNothing(item, back);
      } else if back {
        WriteToBack(item);
      } else {
        WriteToFront(item);
      }
      sent := sent + [item];
    }

    /** prvCopyDataFromQueue, which does nothing to a mutex. */
    method CopyDataFromQueue() returns (item: Entry)
      requires Valid() && 0 < count
      modifies `readFrom, `readSlot
      ensures readSlot == Wrap(old(readSlot) + 1, length) && readFrom == readSlot * itemSize
      ensures item == old(Contents())[0] && (mutex ==> readFrom == old(readFrom))
    {
      hide Wrap, Items;
      ItemsHead(buffer[..], length, itemSize, readSlot, count);
      WrapFits(readSlot + 1, length);
      SlotFits(Wrap(readSlot + 1, length), length, itemSize);
      StepOn(readSlot, length, itemSize);
      item := [];
      if !mutex {
        readFrom := readFrom + itemSize;
        if length * itemSize <= readFrom {
          readFrom := 0;
        }
        item := buffer[readFrom..readFrom + itemSize];
      }
      readSlot := Wrap(readSlot + 1, length);
    }

    // ----- waking ---------------------------------------------------------------------------------

    /** xTaskRemoveFromEventList on the waiting receivers, if there are any; `urgent` are the tasks
        whose priority is no lower than the running task's. */
    method WakeReceiver(urgent: set<Task>) returns (higher: bool)
      requires Valid()
      modifies `receivers, `wokenR
      ensures Valid() && Abs() == old(Abs()).WakeReceiver()
      ensures higher <==> old(receivers) != [] && old(receivers)[0] in urgent
    {
      higher := false;
      if receivers != [] {
        higher := receivers[0] in urgent;
        receivers, wokenR := receivers[1..], wokenR + 1;
      }
    }

    method WakeSender(urgent: set<Task>) returns (higher: bool)
      requires Valid()
      modifies `senders, `wokenS
      ensures Valid() && Abs() == old(Abs()).WakeSender()
      ensures higher <==> old(senders) != [] && old(senders)[0] in urgent
    {
      higher := false;
      if senders != [] {
        higher := senders[0] in urgent;
        senders, wokenS := senders[1..], wokenS + 1;
      }
    }

    // ----- critical sections ------------------------------------------------------------------------

    /** The first critical section of xQueueGenericSend: whether the item was stored, which errQUEUE_FULL
        or the reason to block denies, whether it asks for a yield, and whose priority it takes
        back. */
    method Send(item: Entry, back: bool, urgent: set<Task>) returns (done: bool, mustYield: bool, released: Holder)
      requires Valid() && |item| == itemSize
      modifies this, buffer
      ensures Valid() && Abs() == old(Abs()).Send(item, back)
      ensures done <==> |old(Contents())| < length
      ensures mustYield <==> done && old(receivers) != [] && old(receivers)[0] in urgent
      ensures released == if done && mutex then old(holder) else Nobody
    {
      hide Items, Wrap;
      done, mustYield, released := count < length, false, Nobody;
      if done {
        released := CopyDataToQueue(item, back);
        mustYield := WakeReceiver(urgent);
      }
    }

    /** The first critical section of xQueueGenericReceive, which task t runs. */
    method Receive(peek: bool, t: Task, urgent: set<Task>) returns (done: bool, item: Entry, mustYield: bool)
      requires Valid()
      modifies this
      ensures Valid() && Abs() == old(Abs()).Receive(peek, t)
      ensures done <==> old(Contents()) != []
      ensures done ==> item == old(Contents())[0]
      ensures peek ==> readFrom == old(readFrom) && writeTo == old(writeTo) && count == old(count)
      ensures var waiting := old(if peek then receivers else senders);
              mustYield <==> done && waiting != [] && waiting[0] in urgent
    {
      hide Wrap, Items;
      done, item, mustYield := 0 < count, [], false;
      if done {
        var position := readFrom;
        ghost var slot := readSlot;
        item := CopyDataFromQueue();
        if peek {
          readFrom, readSlot := position, slot;
          mustYield := WakeReceiver(urgent);
        } else {
          Drop(slot);
          if mutex {
            holder := Somebody(t);
          }
          mustYield := WakeSender(urgent);
        }
      }
    }

    /** The count goes down once the item in the slot after `slot` has been copied out. */
    method Drop(ghost slot: nat)
      requires 0 < count <= length && slot < length && length * itemSize < buffer.Length && (mutex ==> itemSize == 0)
      requires readSlot == Wrap(slot + 1, length) && readFrom == readSlot * itemSize
      requires writeTo == Wrap(slot + 1 + count, length) * itemSize
      modifies `count, `got
      ensures Valid() && Contents() == Items(buffer[..], itemSize, length, slot, old(count))[1..]
      ensures got == old(got) + [Items(buffer[..], itemSize, length, slot, old(count))[0]]
    {
      ItemsHead(buffer[..], length, itemSize, slot, count);
      got := got + [Items(buffer[..], itemSize, length, slot, count)[0]];
      count := count - 1;
    }

    /** xQueueGenericSendFromISR; it tells whether a task has been woken that is no lower in
        priority. */
    method SendFromIsr(item: Entry, back: bool, urgent: set<Task>) returns (done: bool, higher: bool, released: Holder)
      requires Valid() && |item| == itemSize
      modifies this, buffer
      ensures Valid() && Abs() == old(Abs()).SendFromIsr(item, back)
      ensures done <==> |old(Contents())| < length
      ensures higher <==> done && old(txLock) == UNLOCKED && old(receivers) != [] && old(receivers)[0] in urgent
      ensures released == if done && mutex then old(holder) else Nobody
    {
      hide Items, Wrap;
      done, higher, released := count < length, false, Nobody;
      if done {
        released := CopyDataToQueue(item, back);
        if txLock == UNLOCKED {
          higher := WakeReceiver(urgent);
        } else {
          txLock := txLock + 1;
        }
      }
    }

    /** xQueueReceiveFromISR. */
    method ReceiveFromIsr(urgent: set<Task>) returns (done: bool, item: Entry, higher: bool)
      requires Valid()
      modifies this
      ensures Valid() && Abs() == old(Abs()).ReceiveFromIsr()
      ensures done <==> old(Contents()) != []
      ensures done ==> item == old(Contents())[0]
      ensures higher <==> done && old(rxLock) == UNLOCKED && old(senders) != [] && old(senders)[0] in urgent
    {
      hide Wrap, Items;
      done, item, higher := 0 < count, [], false;
      if done {
        ghost var slot := readSlot;
        item := CopyDataFromQueue();
        Drop(slot);
        if rxLock == UNLOCKED {
          higher := WakeSender(urgent);
        } else {
          rxLock := rxLock + 1;
        }
      }
    }

    /** prvLockQueue. */
    method Lock()
      requires Valid()
      modifies `txLock, `rxLock, `phase
      ensures Valid() && Abs() == old(Abs()).Lock()
    {
      if rxLock == UNLOCKED {
        rxLock := 0;
      }
      if txLock == UNLOCKED {
        txLock := 0;
      }
      phase := Locked;
    }

    /** The first critical section of prvUnlockQueue; `missed` says whether it calls
        vTaskMissedYield, which it does exactly if a task that it wakes is no lower in priority. */
    method UnlockTx(urgent: set<Task>) returns (missed: bool)
      requires Valid()
      modifies `txLock, `receivers, `wokenR, `phase
      ensures Valid() && Abs() == old(Abs()).UnlockTx()
      ensures missed <==> Among(old(receivers)[..Min(Q.Held(old(txLock)), |old(receivers)|)], urgent)
    {
      hide Q.UnlockTx, Items, Wrap, Among;
      UnlockTxWakes(Abs());
      ghost var n: nat := 0;
      missed := false;
      NoneAmong(urgent);
      while 0 < txLock
        invariant Valid() && n <= |old(receivers)| && receivers == old(receivers)[n..] && txLock == old(txLock) - n
        invariant 0 < n ==> 0 <= txLock
        invariant wokenR == old(wokenR) + n && missed == Among(old(receivers)[..n], urgent)
        decreases txLock
      {
        if receivers != [] {
          AmongNext(old(receivers), n, urgent);
          var higher := WakeReceiver(urgent);
          missed := missed || higher;
          txLock := txLock - 1;
          n := n + 1;
        } else {
          break;
        }
      }
      txLock, phase := UNLOCKED, TxUnlocked;
    }

    /** The second critical section of prvUnlockQueue. */
    method UnlockRx(urgent: set<Task>) returns (missed: bool)
      requires Valid()
      modifies `rxLock, `senders, `wokenS, `phase
      ensures Valid() && Abs() == old(Abs()).UnlockRx()
      ensures missed <==> Among(old(senders)[..Min(Q.Held(old(rxLock)), |old(senders)|)], urgent)
    {
      hide Q.UnlockRx, Items, Wrap, Among;
      UnlockRxWakes(Abs());
      ghost var n: nat := 0;
      missed := false;
      NoneAmong(urgent);
      while 0 < rxLock
        invariant Valid() && n <= |old(senders)| && senders == old(senders)[n..] && rxLock == old(rxLock) - n
        invariant 0 < n ==> 0 <= rxLock
        invariant wokenS == old(wokenS) + n && missed == Among(old(senders)[..n], urgent)
        decreases rxLock
      {
        if senders != [] {
          AmongNext(old(senders), n, urgent);
          var higher := WakeSender(urgent);
          missed := missed || higher;
          rxLock := rxLock - 1;
          n := n + 1;
        } else {
          break;
        }
      }
      rxLock, phase := UNLOCKED, Idle;
    }
  }

  lemma WrapFits(x: nat, length: nat)
    requires x < 3 * length
    ensures Wrap(x, length) < length
  {
  }

  lemma WrapBack(r: nat, count: nat, length: nat)
    requires r < length && count < length
    ensures var back := Wrap(r + length - 1, length);
            back < length && Wrap(back + count + 2, length) == Wrap(r + 1 + count, length)
  {
  }

  lemma WrapNext(x: nat, length: nat)
    requires x + 1 < 3 * length
    ensures Wrap(x, length) < length && Wrap(x + 1, length) == Wrap(Wrap(x, length) + 1, length)
  {
  }
}
