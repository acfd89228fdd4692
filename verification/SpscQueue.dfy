/** The two queues as objects: the ring buffer, advanced one atomic access at a
    time so that the calls of its two threads can interleave, and the locked
    unbounded queue that it is measured against. */
module SpscQueues {
  import opened SpscSpec

  class SPSCQueue<T> {
    const buffer: array<T>
    var head: nat
    var tail: nat

    // The local variables of the call each thread is in.
    var producer: Producer<T>
    var consumer: Consumer<T>

    ghost var initial: seq<T>
    ghost var pushed: seq<T>
    ghost var popped: seq<T>
    ghost var seenHead: nat
    ghost var seenTail: nat

    ghost function View(): State<T>
      reads this, buffer
    {
      State(initial, buffer[..], head, tail, producer, consumer, pushed, popped, seenHead, seenTail)
    }

    ghost predicate Valid()
      reads this, buffer
    {
      Inv(View())
    }

    constructor (capacity: nat, filler: T)
      requires 0 < capacity
      ensures Valid() && fresh(buffer) && buffer.Length == capacity
      ensures View() == Init(buffer[..])
    {
      buffer := new T[capacity](_ => filler);
      head, tail, producer, consumer := 0, 0, PIdle, CIdle;
      pushed, popped, seenHead, seenTail := [], [], 0, 0;
      initial := seq(capacity, _ => filler);
    }

    // ----- push, access by access

    /** `tail.load(relaxed)`: only this thread writes it. */
    method PushCall(item: T)
      requires Valid() && producer.PIdle?
      modifies this`producer
      ensures Valid() && View() == Next(old(View()), Step.PushCall(item))
      ensures producer == PLoadHead(item, tail)
    {
      StepKeeps(View(), Step.PushCall(item));
      producer := PLoadHead(item, tail);
    }

    /** `head.load(acquire)` observes the value `head` had after `count` pops. */
    method PushLoadHead(observed: nat, ghost count: nat)
      requires Valid() && producer.PLoadHead? && seenHead <= count <= |popped| && observed == count % buffer.Length
      modifies this`producer, this`seenHead
      ensures Valid() && View() == Next(old(View()), Step.PushLoadHead(count))
      ensures producer.PTest? && producer.item == old(producer).item && seenHead == count
    {
      StepKeeps(View(), Step.PushLoadHead(count));
      producer := PTest(producer.item, producer.currentTail, observed);
      seenHead := count;
    }

    /** The full test; a full ring ends the call with false. */
    method PushTest() returns (room: bool)
      requires Valid() && producer.PTest?
      modifies this`producer
      ensures Valid() && View() == Next(old(View()), Step.PushTest)
      ensures room <==> |pushed| - seenHead < buffer.Length - 1
      ensures producer == if room then PWrite(old(producer).item, tail) else PIdle
    {
      StepKeeps(View(), Step.PushTest);
      TestsExact(View());
      room := (producer.currentTail + 1) % buffer.Length != producer.currentHead;
      producer := if room then PWrite(producer.item, producer.currentTail) else PIdle;
    }

    method PushWrite()
      requires Valid() && producer.PWrite?
      modifies this`producer, buffer
      ensures Valid() && View() == Next(old(View()), Step.PushWrite)
      ensures producer.PStore? && producer.item == old(producer).item
    {
      StepKeeps(View(), Step.PushWrite);
      buffer[producer.currentTail] := producer.item;
      producer := PStore(producer.item, producer.currentTail);
    }

    /** `tail.store(release)` publishes the item. */
    method PushStore()
      requires Valid() && producer.PStore?
      modifies this`producer, this`tail, this`pushed
      ensures Valid() && View() == Next(old(View()), Step.PushStore)
      ensures producer.PIdle? && pushed == old(pushed) + [old(producer).item]
    {
      StepKeeps(View(), Step.PushStore);
      tail := (producer.currentTail + 1) % buffer.Length;
      pushed := pushed + [producer.item];
      producer := PIdle;
    }

    // ----- pop, access by access

    method PopCall()
      requires Valid() && consumer.CIdle?
      modifies this`consumer
      ensures Valid() && View() == Next(old(View()), Step.PopCall)
      ensures consumer.CLoadTail?
    {
      StepKeeps(View(), Step.PopCall);
      consumer := CLoadTail(head);
    }

    /** `tail.load(acquire)` observes the value `tail` had after `count` pushes. */
    method PopLoadTail(observed: nat, ghost count: nat)
      requires Valid() && consumer.CLoadTail? && seenTail <= count <= |pushed| && observed == count % buffer.Length
      modifies this`consumer, this`seenTail
      ensures Valid() && View() == Next(old(View()), Step.PopLoadTail(count))
      ensures consumer.CTest? && seenTail == count
    {
      StepKeeps(View(), Step.PopLoadTail(count));
      consumer := CTest(consumer.currentHead, observed);
      seenTail := count;
    }

    method PopTest() returns (some: bool)
      requires Valid() && consumer.CTest?
      modifies this`consumer
      ensures Valid() && View() == Next(old(View()), Step.PopTest)
      ensures some <==> |popped| < seenTail
      ensures consumer == if some then CRead(head) else CIdle
    {
      StepKeeps(View(), Step.PopTest);
      TestsExact(View());
      some := consumer.currentHead != consumer.currentTail;
      consumer := if some then CRead(consumer.currentHead) else CIdle;
    }

    /** `item = buffer[current_head]`. Whichever write a relaxed memory lets the
        read observe, the value is the one in the buffer. */
    method PopRead(ghost from: int)
      requires Valid() && consumer.CRead? && MayObserve(View(), from)
      modifies this`consumer
      ensures Valid() && View() == Next(old(View()), Step.PopRead(from))
      ensures consumer.CStore?
    {
      StepKeeps(View(), Step.PopRead(from));
      ObservesItsItem(View(), from);
      consumer := CStore(consumer.currentHead, buffer[consumer.currentHead]);
    }

    /** `head.store(release)` gives the slot back. */
    method PopStore() returns (item: T)
      requires Valid() && consumer.CStore?
      modifies this`consumer, this`head, this`popped
      ensures Valid() && View() == Next(old(View()), Step.PopStore)
      ensures consumer.CIdle? && popped == old(popped) + [item]
    {
      StepKeeps(View(), Step.PopStore);
      item := consumer.item;
      head := (consumer.currentHead + 1) % buffer.Length;
      popped := popped + [consumer.item];
      consumer := CIdle;
    }

    // ----- whole calls, run without interruption

    method Push(item: T) returns (ok: bool)
      requires Valid() && producer.PIdle?
      modifies this, buffer
      ensures Valid() && producer.PIdle? && consumer == old(consumer) && popped == old(popped)
      ensures ok <==> |old(Contents(View()))| < buffer.Length - 1
      ensures Contents(View()) == old(Contents(View())) + (if ok then [item] else [])
    {
      hide Inv, Next;
      LatestAllowed(View());
      PushCall(item);
      PushLoadHead(head, |popped|);
      ok := PushTest();
      if !ok {
        return;
      }
      PushWrite();
      PushStore();
      LatestAllowed(View());
    }

    method Pop(filler: T) returns (ok: bool, item: T)
      requires Valid() && consumer.CIdle?
      modifies this
      ensures Valid() && consumer.CIdle? && producer == old(producer) && pushed == old(pushed)
      ensures ok <==> old(Contents(View())) != []
      ensures if ok then old(Contents(View())) == [item] + Contents(View())
              else item == filler && Contents(View()) == []
    {
      hide Inv, Next;
      LatestAllowed(View());
      item := filler;
      ghost var before := View();
      PopCall();
      PopLoadTail(tail, |pushed|);
      ok := PopTest();
      if !ok {
        return;
      }
      ObservesItsItem(View(), |popped|);
      PopRead(|popped|);
      item := PopStore();
      LatestAllowed(View());
      PopsFront(before, View(), item);
    }
  }

  /** std::queue under a lock: each call is one step. */
  class MutexQueue<T> {
    var queue_: seq<T>

    constructor ()
      ensures queue_ == []
    {
      queue_ := [];
    }

    method Push(item: T) returns (ok: bool)
      modifies this
      ensures ok && queue_ == old(queue_) + [item]
    {
      queue_ := queue_ + [item];
      ok := true;
    }

    method Pop(filler: T) returns (ok: bool, item: T)
      modifies this
      ensures ok <==> old(queue_) != []
      ensures if ok then old(queue_) == [item] + queue_ else item == filler && queue_ == old(queue_)
    {
      item := filler;
      if queue_ == [] {
        return false, item;
      }
      item := queue_[0];
      queue_ := queue_[1..];
      ok := true;
    }
  }

  /** Give the operations of a ring buffer's history to a locked queue. It answers
      every one alike, and ends up holding what the ring holds. */
  method ReplayHistory<T(==)>(buffer: seq<T>, steps: seq<Step<T>>, queue: MutexQueue<T>) returns (agrees: bool)
    requires buffer != [] && Run(buffer, steps).Reached?
    requires queue.queue_ == []
    modifies queue
    ensures agrees
    ensures queue.queue_ == Contents(Run(buffer, steps).state)
  {
    hide History, Run, Contents;
    var events := History(buffer, steps);
    RunRefinesFifo(buffer, steps);
    agrees := true;
    for i := 0 to |events|
      invariant agrees ==> Replay(events[..i]) == Holding(queue.queue_)
      invariant !agrees ==> Replay(events[..i]) == Refused
    {
      assert events[..i + 1][..i] == events[..i];
      if agrees {
        if events[i].Push? {
          var ok := queue.Push(events[i].item);
        } else {
          var ok, item := queue.Pop(events[i].item);
          agrees := ok && item == events[i].item;
        }
      }
    }
    assert events[..|events|] == events;
  }
}
