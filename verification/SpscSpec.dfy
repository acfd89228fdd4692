/** The lock-free ring buffer as an interleaving of atomic steps. Each call is
    split at its atomic accesses; the acquire load of the other thread's index
    may return any value that index has held, as long as it is not older than
    one this thread has already seen (coherence, [intro.races] of ISO C++17).
    Unbounded counts of completed operations stand beside the wrapped indices. */
module SpscSpec {

  /** Where the producer stands inside `push`, with its local variables. */
  datatype Producer<T> =
    | PIdle
    | PLoadHead(item: T, currentTail: nat)
    | PTest(item: T, currentTail: nat, currentHead: nat)
    | PWrite(item: T, currentTail: nat)
    | PStore(item: T, currentTail: nat)

  /** Where the consumer stands inside `pop`, with its local variables. */
  datatype Consumer<T> =
    | CIdle
    | CLoadTail(currentHead: nat)
    | CTest(currentHead: nat, currentTail: nat)
    | CRead(currentHead: nat)
    | CStore(currentHead: nat, item: T)

  /** Shared memory, both threads, and the history: what the slots held at first,
      what has been pushed and popped, and the newest index value (as a count)
      each thread has seen. */
  datatype State<T> = State(
    initial: seq<T>, buffer: seq<T>, head: nat, tail: nat,
    producer: Producer<T>, consumer: Consumer<T>,
    pushed: seq<T>, popped: seq<T>, seenHead: nat, seenTail: nat)

  datatype Step<T> =
    | PushCall(item: T)
    | PushLoadHead(count: nat)
    | PushTest
    | PushWrite
    | PushStore
    | PopCall
    | PopLoadTail(count: nat)
    | PopTest
    | PopRead(from: int)
    | PopStore

  function Init<T>(buffer: seq<T>): State<T> {
    State(buffer, buffer, 0, 0, PIdle, CIdle, [], [], 0, 0)
  }

  /** Write number `w` has happened or is under way. Write `w` goes to slot `w`,
      wrapped, and carries the `w`-th pushed item. */
  predicate WriteBegun<T>(q: State<T>, w: nat) {
    w < |q.pushed| || (w == |q.pushed| && (q.producer.PWrite? || q.producer.PStore?))
  }

  /** The consumer's read of its slot may observe any write to that slot that has
      begun, or (-1) the slot's first content, however old, unless a newer write to
      the slot was released by an index store that the consumer has acquired. */
  predicate MayObserve<T>(q: State<T>, from: int)
    requires q.consumer.CRead?
  {
    && q.buffer != [] && -1 <= from
    && (from >= 0 ==> WriteBegun(q, from) && from % |q.buffer| == q.consumer.currentHead)
    && forall later :: from < later < q.seenTail ==> later % |q.buffer| != q.consumer.currentHead
  }

  predicate Enabled<T>(q: State<T>, step: Step<T>) {
    match step
    case PushCall(_) => q.producer.PIdle?
    case PushLoadHead(k) => q.producer.PLoadHead? && q.seenHead <= k <= |q.popped|
    case PushTest => q.producer.PTest?
    case PushWrite => q.producer.PWrite?
    case PushStore => q.producer.PStore?
    case PopCall => q.consumer.CIdle?
    case PopLoadTail(k) => q.consumer.CLoadTail? && q.seenTail <= k <= |q.pushed|
    case PopTest => q.consumer.CTest?
    case PopRead(from) => q.consumer.CRead? && MayObserve(q, from)
    case PopStore => q.consumer.CStore?
  }

  /** `push` finds the ring full. */
  predicate FindsFull<T>(q: State<T>)
    requires q.producer.PTest? && q.buffer != []
  {
    (q.producer.currentTail + 1) % |q.buffer| == q.producer.currentHead
  }

  /** `pop` finds the ring empty. */
  predicate FindsEmpty<T>(q: State<T>)
    requires q.consumer.CTest?
  {
    q.consumer.currentHead == q.consumer.currentTail
  }

  /** The value that the observed write carries. */
  function Written<T>(q: State<T>, from: int): T
    requires q.consumer.CRead?
    requires if from < 0 then q.consumer.currentHead < |q.initial| else WriteBegun(q, from)
  {
    if from < 0 then q.initial[q.consumer.currentHead]
    else if from < |q.pushed| then q.pushed[from]
    else q.producer.item
  }

  function Next<T>(q: State<T>, step: Step<T>): State<T>
    requires Inv(q) && Enabled(q, step)
  {
    match step
    case PushCall(x) => q.(producer := PLoadHead(x, q.tail))
    case PushLoadHead(k) =>
      q.(producer := PTest(q.producer.item, q.producer.currentTail, k % |q.buffer|), seenHead := k)
    case PushTest =>
      q.(producer := if FindsFull(q) then PIdle else PWrite(q.producer.item, q.producer.currentTail))
    case PushWrite =>
      q.(buffer := q.buffer[q.producer.currentTail := q.producer.item],
         producer := PStore(q.producer.item, q.producer.currentTail))
    case PushStore =>
      q.(tail := (q.producer.currentTail + 1) % |q.buffer|, producer := PIdle,
         pushed := q.pushed + [q.producer.item])
    case PopCall => q.(consumer := CLoadTail(q.head))
    case PopLoadTail(k) =>
      q.(consumer := CTest(q.consumer.currentHead, k % |q.buffer|), seenTail := k)
    case PopTest =>
      q.(consumer := if FindsEmpty(q) then CIdle else CRead(q.consumer.currentHead))
    case PopRead(from) =>
      q.(consumer := CStore(q.consumer.currentHead, Written(q, from)))
    case PopStore =>
      q.(head := (q.consumer.currentHead + 1) % |q.buffer|, consumer := CIdle,
         popped := q.popped + [q.consumer.item])
  }

  // ----- the invariant

  ghost predicate ProducerOk<T>(q: State<T>)
    requires q.buffer != []
  {
    match q.producer
    case PIdle => true
    case PLoadHead(_, t) => t == q.tail
    case PTest(_, t, h) => t == q.tail && h == q.seenHead % |q.buffer|
    case PWrite(_, t) => t == q.tail && |q.pushed| - q.seenHead <= |q.buffer| - 2
    case PStore(x, t) => t == q.tail && |q.pushed| - q.seenHead <= |q.buffer| - 2 && t < |q.buffer| && q.buffer[t] == x
  }

  ghost predicate ConsumerOk<T>(q: State<T>)
    requires q.buffer != []
  {
    match q.consumer
    case CIdle => true
    case CLoadTail(h) => h == q.head
    case CTest(h, t) => h == q.head && t == q.seenTail % |q.buffer|
    case CRead(h) => h == q.head && |q.popped| < q.seenTail
    case CStore(h, x) => h == q.head && |q.popped| < q.seenTail <= |q.pushed| && x == q.pushed[|q.popped|]
  }

  /** The unread slots hold exactly what was pushed and not yet popped. */
  ghost predicate SlotsOk<T>(q: State<T>)
    requires q.buffer != []
  {
    forall k :: |q.popped| <= k < |q.pushed| ==> q.buffer[k % |q.buffer|] == q.pushed[k]
  }

  ghost predicate CountsOk<T>(q: State<T>)
    requires q.buffer != []
  {
    && q.head == |q.popped| % |q.buffer| && q.tail == |q.pushed| % |q.buffer|
    && q.seenHead <= |q.popped| <= q.seenTail <= |q.pushed|
    && |q.pushed| - q.seenHead <= |q.buffer| - 1
    && q.popped == q.pushed[..|q.popped|] && |q.initial| == |q.buffer|
  }

  ghost predicate Inv<T>(q: State<T>) {
    q.buffer != [] && CountsOk(q) && SlotsOk(q) && ProducerOk(q) && ConsumerOk(q)
  }

  // ----- wrapped arithmetic

  lemma SmallMultiple(n: int, d: int)
    requires 0 < n && -n < n * d < n
    ensures d == 0
  {
    assert d >= 1 ==> n * (d - 1) >= 0;
    assert d <= -1 ==> n * (-1 - d) >= 0;
  }

  lemma DivUnique(x: nat, q: int, r: nat, n: nat)
    requires 0 < n && r < n && x == n * q + r
    ensures x % n == r
  {
    assert x == n * (x / n) + x % n;
    assert n * (q - x / n) == x % n - r;
    SmallMultiple(n, q - x / n);
  }

  lemma ModNear(a: nat, b: nat, n: nat)
    requires 0 < n && a <= b < a + n
    ensures a % n == b % n <==> a == b
  {
    var qa, qb := a / n, b / n;
    assert a == n * qa + a % n && b == n * qb + b % n;
    if a % n == b % n {
      assert n * (qb - qa) == b - a;
      SmallMultiple(n, qb - qa);
    }
  }

  lemma ModSucc(a: nat, n: nat)
    requires 0 < n
    ensures (a % n + 1) % n == (a + 1) % n
  {
    var q, r := a / n, a % n;
    assert a == n * q + r;
    if r + 1 < n {
      DivUnique(a + 1, q, r + 1, n);
      DivUnique(r + 1, 0, r + 1, n);
    } else {
      assert n * (q + 1) == n * q + n;
      DivUnique(a + 1, q + 1, 0, n);
      DivUnique(n, 1, 0, n);
    }
  }

  lemma ModLap(x: nat, n: nat)
    requires 0 < n
    ensures (x + n) % n == x % n
  {
    assert x == n * (x / n) + x % n;
    assert n * (x / n + 1) == n * (x / n) + n;
    DivUnique(x + n, x / n + 1, x % n, n);
  }

  /** The two wrapped tests decide exactly what the snapshot says. */
  lemma TestsExact<T>(q: State<T>)
    requires Inv(q)
    ensures q.producer.PTest? ==> (FindsFull(q) <==> |q.pushed| - q.seenHead == |q.buffer| - 1)
    ensures q.consumer.CTest? ==> (FindsEmpty(q) <==> |q.popped| == q.seenTail)
  {
    var n := |q.buffer|;
    ModSucc(|q.pushed|, n);
    if |q.pushed| + 1 < q.seenHead + n {
      ModNear(q.seenHead, |q.pushed| + 1, n);
    } else {
      ModLap(q.seenHead, n);
    }
    ModNear(|q.popped|, q.seenTail, n);
  }

  lemma InitInv<T>(buffer: seq<T>)
    requires buffer != []
    ensures Inv(Init(buffer))
  {
  }

  lemma PushWriteKeeps<T>(q: State<T>)
    requires Inv(q) && q.producer.PWrite?
    ensures Inv(Next(q, PushWrite))
  {
    var n := |q.buffer|;
    forall k | |q.popped| <= k < |q.pushed| ensures k % n != q.tail {
      ModNear(k, |q.pushed|, n);
    }
  }

  lemma PushStoreKeeps<T>(q: State<T>)
    requires Inv(q) && q.producer.PStore?
    ensures Inv(Next(q, PushStore))
  {
    ModSucc(|q.pushed|, |q.buffer|);
    var q' := Next(q, PushStore);
    assert q'.popped == q'.pushed[..|q.popped|];
  }

  lemma PopStoreKeeps<T>(q: State<T>)
    requires Inv(q) && q.consumer.CStore?
    ensures Inv(Next(q, PopStore))
  {
    ModSucc(|q.popped|, |q.buffer|);
    assert q.pushed[..|q.popped| + 1] == q.pushed[..|q.popped|] + [q.pushed[|q.popped|]];
  }

  /** No later write has begun in the slot that the consumer is due to read. */
  lemma NoLaterWrite<T>(q: State<T>, w: nat)
    requires Inv(q) && q.consumer.CRead? && WriteBegun(q, w)
    ensures |q.popped| < w ==> w % |q.buffer| != q.consumer.currentHead
  {
    if |q.popped| < w {
      ModNear(|q.popped|, w, |q.buffer|);
    }
  }

  /** Of all the writes a relaxed memory might show, only one is left: the
      consumer's read observes the write of the item it is due. */
  lemma ObservesOneWrite<T>(q: State<T>, from: int)
    requires Inv(q) && q.consumer.CRead?
    ensures MayObserve(q, from) <==> from == |q.popped|
  {
    hide SlotsOk, ProducerOk;
    if MayObserve(q, from) && from > |q.popped| {
      NoLaterWrite(q, from);
      assert false;
    }
    forall later: int | |q.popped| < later < q.seenTail ensures later % |q.buffer| != q.consumer.currentHead {
      NoLaterWrite(q, later);
    }
  }

  /** So the value read is the item due, and is what the slot holds. */
  lemma ObservesItsItem<T>(q: State<T>, from: int)
    requires Inv(q) && q.consumer.CRead?
    ensures MayObserve(q, from) <==> from == |q.popped|
    ensures MayObserve(q, from) ==>
      from < |q.pushed| && Written(q, from) == q.pushed[from] == q.buffer[q.consumer.currentHead]
  {
    ObservesOneWrite(q, from);
  }

  /** Every enabled step, by either thread, keeps the invariant. */
  lemma StepKeeps<T>(q: State<T>, step: Step<T>)
    requires Inv(q) && Enabled(q, step)
    ensures Inv(Next(q, step))
  {
    match step {
      case PushTest => TestsExact(q);
      case PushWrite => PushWriteKeeps(q);
      case PushStore => PushStoreKeeps(q);
      case PopTest => TestsExact(q);
      case PopRead(from) => ObservesItsItem(q, from);
      case PopStore => PopStoreKeeps(q);
      case _ =>
    }
  }

  // ----- what the invariant means

  /** Each thread may always be shown the latest value of the other's index. */
  lemma LatestAllowed<T>(q: State<T>)
    requires Inv(q)
    ensures q.buffer != [] && q.seenHead <= |q.popped| <= q.seenTail <= |q.pushed|
    ensures q.head == |q.popped| % |q.buffer| && q.tail == |q.pushed| % |q.buffer|
    ensures q.popped == q.pushed[..|q.popped|]
  {
  }

  /** What is pushed and not yet popped. */
  function Contents<T>(q: State<T>): seq<T> {
    if |q.popped| <= |q.pushed| then q.pushed[|q.popped|..] else []
  }

  /** Popping the next pushed value takes it off the front of the contents. */
  lemma PopsFront<T>(q: State<T>, q': State<T>, item: T)
    requires |q.popped| <= |q.pushed| && q.popped == q.pushed[..|q.popped|]
    requires |q'.popped| <= |q'.pushed| && q'.popped == q'.pushed[..|q'.popped|]
    requires q'.pushed == q.pushed && q'.popped == q.popped + [item]
    ensures Contents(q) == [item] + Contents(q')
  {
    var n := |q.popped|;
    assert q.pushed[..n + 1][n] == item;
    assert q.pushed[n..] == [q.pushed[n]] + q.pushed[n + 1..];
  }

  /** A bounded FIFO: the popped values are a prefix of the pushed ones, the ring
      holds the rest in order, and one slot always stays free. */
  lemma BoundedFifo<T>(q: State<T>)
    requires Inv(q)
    ensures q.popped <= q.pushed && |Contents(q)| <= |q.buffer| - 1
    ensures forall i :: 0 <= i < |Contents(q)| ==> q.buffer[(|q.popped| + i) % |q.buffer|] == Contents(q)[i]
  {
    forall i | 0 <= i < |Contents(q)| ensures q.buffer[(|q.popped| + i) % |q.buffer|] == Contents(q)[i] {
      assert Contents(q)[i] == q.pushed[|q.popped| + i];
    }
  }

  /** After an up-to-date load the tests tell the truth about the ring; and a
      failing test tells the truth only after an up-to-date load. */
  lemma FreshTestsExact<T>(q: State<T>)
    requires Inv(q)
    ensures q.producer.PTest? && q.seenHead == |q.popped| ==> (FindsFull(q) <==> |Contents(q)| == |q.buffer| - 1)
    ensures q.consumer.CTest? && q.seenTail == |q.pushed| ==> (FindsEmpty(q) <==> Contents(q) == [])
    ensures q.producer.PTest? && FindsFull(q) ==> (q.seenHead == |q.popped| <==> |Contents(q)| == |q.buffer| - 1)
    ensures q.consumer.CTest? && FindsEmpty(q) ==> (q.seenTail == |q.pushed| <==> Contents(q) == [])
  {
    TestsExact(q);
  }

  /** Producer and consumer are never inside the same slot. */
  lemma NoSharedSlot<T>(q: State<T>)
    requires Inv(q)
    ensures (q.producer.PWrite? || q.producer.PStore?) && (q.consumer.CRead? || q.consumer.CStore?) ==>
      q.producer.currentTail != q.consumer.currentHead
  {
    ModNear(|q.popped|, |q.pushed|, |q.buffer|);
  }

  /** Read number `r` has happened or is under way. */
  predicate ReadBegun<T>(q: State<T>, r: nat) {
    r < |q.popped| || (r == |q.popped| && (q.consumer.CRead? || q.consumer.CStore?))
  }

  /** No data race on a slot. When the producer is about to write, every read of
      that slot was released by an index store the producer has acquired, that is,
      a store of a count above the read's own; and likewise for the consumer. */
  lemma RaceFree<T>(q: State<T>, i: nat)
    requires Inv(q)
    ensures q.producer.PWrite? && ReadBegun(q, i) && i % |q.buffer| == |q.pushed| % |q.buffer| ==> i < q.seenHead
    ensures q.consumer.CRead? && WriteBegun(q, i) && i % |q.buffer| == |q.popped| % |q.buffer| ==> i < q.seenTail
  {
    var n := |q.buffer|;
    if q.producer.PWrite? && ReadBegun(q, i) && q.seenHead <= i {
      ModNear(i, |q.pushed|, n);
    }
    if q.consumer.CRead? && WriteBegun(q, i) && |q.popped| <= i {
      ModNear(|q.popped|, i, n);
    }
  }

  // ----- whole runs

  /** The state after a run of steps, if each was enabled in its turn. */
  datatype Outcome<T> = Stuck | Reached(state: State<T>)

  function Run<T>(buffer: seq<T>, steps: seq<Step<T>>): (r: Outcome<T>)
    requires buffer != []
    ensures r.Reached? ==> Inv(r.state) && |r.state.buffer| == |buffer|
  {
    if steps == [] then
      InitInv(buffer);
      Reached(Init(buffer))
    else
      var r := Run(buffer, steps[..|steps| - 1]);
      var step := steps[|steps| - 1];
      if r.Stuck? || !Enabled(r.state, step) then Stuck
      else
        StepKeeps(r.state, step);
        Reached(Next(r.state, step))
  }

  /** A completed, successful operation. */
  datatype Event<T> = Push(item: T) | Pop(item: T)

  function Completes<T>(q: State<T>, step: Step<T>): seq<Event<T>> {
    if step.PushStore? && q.producer.PStore? then [Push(q.producer.item)]
    else if step.PopStore? && q.consumer.CStore? then [Pop(q.consumer.item)]
    else []
  }

  /** The successful operations of a run, in the order they take effect. */
  function History<T>(buffer: seq<T>, steps: seq<Step<T>>): seq<Event<T>>
    requires buffer != []
  {
    if steps == [] then []
    else
      var before := steps[..|steps| - 1];
      var r := Run(buffer, before);
      History(buffer, before) + (if r.Reached? then Completes(r.state, steps[|steps| - 1]) else [])
  }

  /** Replaying operations on an unbounded FIFO; fails on a pop it would answer differently. */
  datatype Replayed<T> = Refused | Holding(content: seq<T>)

  function Replay<T(==)>(events: seq<Event<T>>): Replayed<T> {
    if events == [] then Holding([])
    else
      var r := Replay(events[..|events| - 1]);
      if r.Refused? then Refused
      else
        match events[|events| - 1]
        case Push(x) => Holding(r.content + [x])
        case Pop(x) => if r.content != [] && r.content[0] == x then Holding(r.content[1..]) else Refused
  }

  /** One step is invisible to the FIFO, or is one of its operations. */
  lemma StepRefines<T>(q: State<T>, step: Step<T>)
    requires Inv(q) && Enabled(q, step)
    ensures var content' := Contents(Next(q, step));
            match step
            case PushStore => content' == Contents(q) + [q.producer.item]
            case PopStore => Contents(q) == [q.consumer.item] + content'
            case _ => content' == Contents(q)
  {
  }

  lemma ReplayOne<T>(before: seq<Event<T>>, e: Event<T>, content: seq<T>)
    requires Replay(before) == Holding(content)
    ensures e.Push? ==> Replay(before + [e]) == Holding(content + [e.item])
    ensures e.Pop? && content != [] && content[0] == e.item ==> Replay(before + [e]) == Holding(content[1..])
  {
    assert (before + [e])[..|before|] == before;
  }

  /** Main result: the history of any run is one the unbounded FIFO gives too,
      and what the FIFO then holds is what the ring holds. */
  lemma {:induction false} RunRefinesFifo<T>(buffer: seq<T>, steps: seq<Step<T>>)
    requires buffer != []
    ensures var r := Run(buffer, steps);
            r.Reached? ==> Replay(History(buffer, steps)) == Holding(Contents(r.state))
  {
    hide Inv, Contents, Replay, Next;
    if steps == [] {
      EmptyReplay<T>(buffer);
    } else if Run(buffer, steps).Reached? {
      var before, step := steps[..|steps| - 1], steps[|steps| - 1];
      RunRefinesFifo(buffer, before);
      var q := Run(buffer, before).state;
      StepRefines(q, step);
      var h := History(buffer, before);
      if Completes(q, step) == [] {
        assert h + [] == h;
      } else {
        ReplayOne(h, Completes(q, step)[0], Contents(q));
      }
    }
  }

  lemma EmptyReplay<T>(buffer: seq<T>)
    ensures Replay<T>([]) == Holding(Contents(Init(buffer)))
  {
  }
}
