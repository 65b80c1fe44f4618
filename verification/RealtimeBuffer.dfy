/** The queue as one owner sees it: calls do not overlap, counters are 64-bit words, slots are updated in place. */
module RealtimeBuffer {
  import opened WordArithmetic
  import opened Wrappers

  lemma Appended<T>(s: seq<T>, k: nat, v: T)
    requires k < |s|
    ensures s[k := v][..k + 1] == s[..k] + [v] && s[k := v][k + 1..] == s[k + 1..]
  {
  }

  class SpscRingBuffer<T(0)> {
    const storage: array<T>
    var writeSequence: nat
    var readSequence: nat
    // Every value accepted and handed out since construction or reset.
    ghost var pushed: seq<T>
    ghost var popped: seq<T>

    ghost predicate Valid()
      reads this, storage
    {
      && 1 < storage.Length < WORD && WORD % storage.Length == 0
      && popped <= pushed
      && |pushed| - |popped| <= storage.Length
      && writeSequence == |pushed| % WORD
      && readSequence == |popped| % WORD
      && forall i :: |popped| <= i < |pushed| ==> storage[i % storage.Length] == pushed[i]
    }

    /** The values waiting in the queue, oldest first. */
    ghost function Contents(): seq<T>
      reads this, storage
      requires Valid()
    {
      pushed[|popped|..]
    }

    constructor (capacity: nat)
      requires 1 < capacity < WORD && WORD % capacity == 0
      ensures Valid() && fresh(storage)
      ensures storage.Length == capacity
      ensures pushed == [] && popped == []
    {
      storage := new T[capacity];
      writeSequence, readSequence := 0, 0;
      pushed, popped := [], [];
      new;
    }

    lemma Counters()
      requires Valid()
      ensures (writeSequence - readSequence) % WORD == |Contents()|
      ensures writeSequence == readSequence <==> Contents() == []
      ensures writeSequence % storage.Length == |pushed| % storage.Length
      ensures readSequence % storage.Length == |popped| % storage.Length
    {
      WrappedDistance(WORD, |pushed|, |popped|);
      WrappedEquality(WORD, |pushed|, |popped|);
      WrappedSlot(WORD, storage.Length, |pushed|);
      WrappedSlot(WORD, storage.Length, |popped|);
    }

    lemma OtherSlots(slot: nat)
      requires Valid() && |pushed| - |popped| < storage.Length
      requires slot == |pushed| % storage.Length
      ensures forall i :: |popped| <= i < |pushed| ==> i % storage.Length != slot
    {
      forall i | |popped| <= i < |pushed|
        ensures i % storage.Length != slot
      {
        DistinctSlots(storage.Length, i, |pushed|);
      }
    }

    method TryPush(value: T) returns (ok: bool)
      requires Valid()
      modifies this, storage
      ensures Valid()
      ensures ok == (old(|Contents()|) < storage.Length)
      ensures pushed == if ok then old(pushed) + [value] else old(pushed)
      ensures popped == old(popped)
    {
      Counters();
      if (writeSequence - readSequence) % WORD >= storage.Length {
        return false;
      }
      var slot := writeSequence % storage.Length;
      OtherSlots(slot);
      storage[slot] := value;
      WrappedSuccessor(WORD, |pushed|);
      writeSequence := (writeSequence + 1) % WORD;
      pushed := pushed + [value];
      return true;
    }

    /** The caller passes what its variable holds, and gets back what it holds afterwards. */
    method TryPop(current: T) returns (ok: bool, value: T)
      requires Valid()
      modifies this
      ensures Valid()
      ensures ok == (old(Contents()) != [])
      ensures value == if ok then old(Contents())[0] else current
      ensures popped == if ok then old(popped) + [value] else old(popped)
      ensures pushed == old(pushed)
    {
      Counters();
      if readSequence == writeSequence {
        return false, current;
      }
      value := storage[readSequence % storage.Length];
      assert value == Contents()[0];
      WrappedSuccessor(WORD, |popped|);
      readSequence := (readSequence + 1) % WORD;
      popped := popped + [value];
      return true, value;
    }

    /** The bulk form stops at the first value that does not fit: it accepts exactly as many as there is room for. */
    method TryPushAll(values: seq<T>) returns (count: nat)
      requires Valid()
      modifies this, storage
      ensures Valid()
      ensures count == if |values| <= storage.Length - old(|Contents()|) then |values|
                       else storage.Length - old(|Contents()|)
      ensures pushed == old(pushed) + values[..count]
      ensures popped == old(popped)
    {
      count := 0;
      while count < |values|
        invariant Valid()
        invariant count <= |values| && old(|Contents()|) + count <= storage.Length
        invariant pushed == old(pushed) + values[..count] && popped == old(popped)
      {
        var ok := TryPush(values[count]);
        if !ok {
          break;
        }
        count := count + 1;
      }
    }

    /** The bulk form hands out the oldest values in order, until the span or the queue is exhausted. */
    method TryPopAll(values: array<T>) returns (count: nat)
      requires Valid() && values != storage
      modifies this, values
      ensures Valid()
      ensures count == if values.Length <= old(|Contents()|) then values.Length else old(|Contents()|)
      ensures values[..count] == old(Contents())[..count]
      ensures values[count..] == old(values[count..])
      ensures popped == old(popped) + values[..count]
      ensures pushed == old(pushed)
    {
      count := 0;
      ghost var before := popped;
      while count < values.Length
        invariant Valid() && count <= values.Length
        invariant pushed == old(pushed) && popped == before + values[..count]
        invariant values[count..] == old(values[count..])
      {
        var ok, value := TryPop(values[count]);
        if !ok {
          break;
        }
        Appended(values[..], count, value);
        values[count] := value;
        count := count + 1;
      }
      assert popped[|before|..] == values[..count];
    }

    method SizeApprox() returns (size: nat)
      requires Valid()
      ensures size == |Contents()|
    {
      Counters();
      size := Min((writeSequence - readSequence) % WORD, storage.Length);
    }

    method Reset()
      requires Valid()
      modifies this
      ensures Valid() && pushed == [] && popped == []
    {
      readSequence, writeSequence := 0, 0;
      pushed, popped := [], [];
    }
  }
}
