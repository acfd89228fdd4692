/** The answers of all calls, failures included. A failing call is placed where it
    loads the other thread's index: its answer is settled there, as its test only
    compares local variables. Answers so placed are those of a bounded FIFO exactly
    when every failing load is up to date. Stale loads can fail a push and a pop
    at once, which no FIFO of any capacity does. (SpscLinear lets every call act
    anywhere between its start and its return.) */
module SpscHistory {
  import opened SpscSpec

  datatype Answer<T> = Pushed(item: T) | Full(item: T) | Popped(item: T) | Empty

  /** What a step settles: a store completes a call, a load may doom one. */
  function Answers<T>(q: State<T>, step: Step<T>): (r: seq<Answer<T>>)
    requires Inv(q) && Enabled(q, step)
    ensures |r| <= 1
  {
    match step
    case PushLoadHead(_) => if FindsFull(Next(q, step)) then [Full(q.producer.item)] else []
    case PushStore => [Pushed(q.producer.item)]
    case PopLoadTail(_) => if FindsEmpty(Next(q, step)) then [Empty] else []
    case PopStore => [Popped(q.consumer.item)]
    case _ => []
  }

  /** A load that makes its call fail shows the newest value of the index. */
  predicate FailsFresh<T>(q: State<T>, step: Step<T>)
    requires Inv(q) && Enabled(q, step)
  {
    match step
    case PushLoadHead(k) => FindsFull(Next(q, step)) ==> k == |q.popped|
    case PopLoadTail(k) => FindsEmpty(Next(q, step)) ==> k == |q.pushed|
    case _ => true
  }

  function FullHistory<T>(buffer: seq<T>, steps: seq<Step<T>>): seq<Answer<T>>
    requires buffer != [] && Run(buffer, steps).Reached?
  {
    if steps == [] then []
    else
      var before := steps[..|steps| - 1];
      FullHistory(buffer, before) + Answers(Run(buffer, before).state, steps[|steps| - 1])
  }

  /** Every failing load of the run is up to date. */
  predicate FailuresFresh<T>(buffer: seq<T>, steps: seq<Step<T>>)
    requires buffer != [] && Run(buffer, steps).Reached?
  {
    steps == [] ||
    var before := steps[..|steps| - 1];
    FailuresFresh(buffer, before) && FailsFresh(Run(buffer, before).state, steps[|steps| - 1])
  }

  // ----- the FIFO of a given capacity

  /** What a FIFO holding `content` does with a call, unless it answers it otherwise. */
  function Answered<T(==)>(capacity: nat, content: seq<T>, a: Answer<T>): Replayed<T> {
    match a
    case Pushed(x) => if |content| < capacity then Holding(content + [x]) else Refused
    case Full(_) => if |content| < capacity then Refused else Holding(content)
    case Popped(x) => if content != [] && content[0] == x then Holding(content[1..]) else Refused
    case Empty => if content == [] then Holding(content) else Refused
  }

  function BoundedReplay<T(==)>(capacity: nat, answers: seq<Answer<T>>): Replayed<T> {
    if answers == [] then Holding([])
    else
      var r := BoundedReplay(capacity, answers[..|answers| - 1]);
      if r.Refused? then Refused else Answered(capacity, r.content, answers[|answers| - 1])
  }

  lemma ReplayNext<T>(capacity: nat, answers: seq<Answer<T>>, a: Answer<T>)
    ensures BoundedReplay(capacity, answers + [a]) ==
            match BoundedReplay(capacity, answers)
            case Refused => Refused
            case Holding(content) => Answered(capacity, content, a)
  {
    assert (answers + [a])[..|answers|] == answers;
  }

  /** A load's failing test, read on the counts. */
  lemma LoadsFail<T>(q: State<T>, step: Step<T>)
    requires Inv(q) && Enabled(q, step)
    ensures step.PushLoadHead? ==> (FindsFull(Next(q, step)) <==> |q.pushed| - step.count == |q.buffer| - 1)
    ensures step.PopLoadTail? ==> (FindsEmpty(Next(q, step)) <==> |q.popped| == step.count)
  {
    StepKeeps(q, step);
    TestsExact(Next(q, step));
  }

  /** One step of the ring is a step of the FIFO, or is invisible to it, or is a
      stale failure. */
  lemma StepAnswers<T>(q: State<T>, step: Step<T>)
    requires Inv(q) && Enabled(q, step)
    ensures var a, content' := Answers(q, step), Contents(Next(q, step));
            if a == [] then content' == Contents(q) && FailsFresh(q, step)
            else Answered(|q.buffer| - 1, Contents(q), a[0]) ==
                 if FailsFresh(q, step) then Holding(content') else Refused
  {
    StepRefines(q, step);
    LoadsFail(q, step);
  }

  /** The history of a run, failures included and placed at their loads, is one that
      the FIFO of capacity n - 1 gives exactly when no failing load was stale. */
  lemma {:induction false} FullHistoryIff<T>(buffer: seq<T>, steps: seq<Step<T>>)
    requires buffer != [] && Run(buffer, steps).Reached?
    ensures BoundedReplay(|buffer| - 1, FullHistory(buffer, steps)) ==
            if FailuresFresh(buffer, steps) then Holding(Contents(Run(buffer, steps).state)) else Refused
  {
    hide Inv, Contents, BoundedReplay, Answered, Next, Answers, FailsFresh;
    if steps == [] {
      EmptyHistory(|buffer| - 1, buffer);
    } else {
      var before, step := steps[..|steps| - 1], steps[|steps| - 1];
      FullHistoryIff(buffer, before);
      var q := Run(buffer, before).state;
      StepAnswers(q, step);
      var h, a := FullHistory(buffer, before), Answers(q, step);
      if a == [] {
        assert h + a == h;
      } else {
        assert a == [a[0]];
        ReplayNext(|buffer| - 1, h, a[0]);
      }
    }
  }

  lemma EmptyHistory<T>(capacity: nat, buffer: seq<T>)
    ensures BoundedReplay<T>(capacity, []) == Holding(Contents(Init(buffer)))
  {
  }

  /** The successful calls of the full history. */
  function Successes<T>(answers: seq<Answer<T>>): seq<Event<T>> {
    if answers == [] then []
    else
      var before := Successes(answers[..|answers| - 1]);
      match answers[|answers| - 1]
      case Pushed(x) => before + [Push(x)]
      case Popped(x) => before + [Pop(x)]
      case _ => before
  }

  lemma SuccessesNext<T>(answers: seq<Answer<T>>, a: Answer<T>)
    ensures Successes(answers + [a]) == Successes(answers) + Successes([a])
  {
    assert (answers + [a])[..|answers|] == answers;
  }

  lemma StepSucceeds<T>(q: State<T>, step: Step<T>)
    requires Inv(q) && Enabled(q, step)
    ensures Successes(Answers(q, step)) == Completes(q, step)
  {
    hide Inv, Next, FindsFull, FindsEmpty;
  }

  lemma {:induction false} SuccessesAreHistory<T>(buffer: seq<T>, steps: seq<Step<T>>)
    requires buffer != [] && Run(buffer, steps).Reached?
    ensures Successes(FullHistory(buffer, steps)) == History(buffer, steps)
  {
    hide Inv, Next, Successes, Answers, Completes;
    if steps == [] {
      NoSuccess<T>();
    } else {
      var before, step := steps[..|steps| - 1], steps[|steps| - 1];
      SuccessesAreHistory(buffer, before);
      var h, q := FullHistory(buffer, before), Run(buffer, before).state;
      StepSucceeds(q, step);
      var a := Answers(q, step);
      if a == [] {
        NoSuccess<T>();
        assert h + a == h;
      } else {
        SuccessesNext(h, a[0]);
        assert a == [a[0]];
      }
    }
  }

  lemma NoSuccess<T>()
    ensures Successes<T>([]) == []
  {
  }

  // ----- a run that no FIFO explains

  /** Some run ends in this state with this full history. */
  ghost predicate Reaches<T(!new)>(buffer: seq<T>, q: State<T>, history: seq<Answer<T>>) {
    buffer != [] && Inv(q) && |q.buffer| == |buffer| &&
    exists steps :: Run(buffer, steps) == Reached(q) && FullHistory(buffer, steps) == history
  }

  lemma WhatIsReached<T(!new)>(buffer: seq<T>, q: State<T>, history: seq<Answer<T>>)
    requires Reaches(buffer, q, history)
    ensures Inv(q) && |q.buffer| == |buffer| && buffer != []
    ensures q.head == |q.popped| % |q.buffer| && q.tail == |q.pushed| % |q.buffer|
  {
  }

  lemma ReachesInit<T(!new)>(buffer: seq<T>)
    requires buffer != []
    ensures Reaches(buffer, Init(buffer), [])
  {
    InitInv(buffer);
    assert Run(buffer, []) == Reached(Init(buffer)) && FullHistory(buffer, []) == [];
  }

  lemma ReachesNext<T(!new)>(buffer: seq<T>, q: State<T>, history: seq<Answer<T>>, step: Step<T>)
    requires Reaches(buffer, q, history) && Inv(q) && Enabled(q, step)
    ensures Reaches(buffer, Next(q, step), history + Answers(q, step)) && Inv(Next(q, step))
  {
    hide Inv, Next, Answers, Enabled;
    var steps :| Run(buffer, steps) == Reached(q) && FullHistory(buffer, steps) == history;
    assert (steps + [step])[..|steps|] == steps;
    assert Run(buffer, steps + [step]) == Reached(Next(q, step));
    assert FullHistory(buffer, steps + [step]) == history + Answers(q, step);
  }

  /** A call's load that does not make it fail settles nothing yet. */
  lemma Unsettled<T(!new)>(buffer: seq<T>, q: State<T>, history: seq<Answer<T>>, step: Step<T>)
    requires Reaches(buffer, q, history) && Inv(q) && Enabled(q, step)
    requires !step.PushStore? && !step.PopStore?
    requires step.PushLoadHead? ==> |q.pushed| - step.count < |buffer| - 1
    requires step.PopLoadTail? ==> |q.popped| < step.count
    ensures Reaches(buffer, Next(q, step), history) && Inv(Next(q, step))
  {
    hide Inv, Next, Enabled;
    ReachesNext(buffer, q, history, step);
    LoadsFail(q, step);
    assert Answers(q, step) == [];
    assert history + [] == history;
  }

  /** A push that sees `k` pops, up to its test. */
  lemma PushBegins<T(!new)>(buffer: seq<T>, q: State<T>, history: seq<Answer<T>>, x: T, k: nat)
    requires Reaches(buffer, q, history) && q.producer.PIdle?
    requires q.seenHead <= k <= |q.popped| && |q.pushed| - k < |buffer| - 1
    ensures Reaches(buffer, q.(producer := PWrite(x, q.tail), seenHead := k), history)
  {
    hide Reaches, Inv, FindsFull;
    WhatIsReached(buffer, q, history);
    Unsettled(buffer, q, history, PushCall(x));
    var called := q.(producer := PLoadHead(x, q.tail));
    assert Next(q, PushCall(x)) == called;
    LoadsFail(called, PushLoadHead(k));
    Unsettled(buffer, called, history, PushLoadHead(k));
    var loaded := called.(producer := PTest(x, q.tail, k % |q.buffer|), seenHead := k);
    assert Next(called, PushLoadHead(k)) == loaded;
    Unsettled(buffer, loaded, history, PushTest);
  }

  /** The state after an undisturbed push that sees `k` pops. */
  function AfterPush<T>(q: State<T>, x: T, k: nat): State<T>
    requires q.buffer != [] && q.tail < |q.buffer|
  {
    q.(buffer := q.buffer[q.tail := x], tail := (q.tail + 1) % |q.buffer|,
       pushed := q.pushed + [x], seenHead := k)
  }

  lemma PushRun<T(!new)>(buffer: seq<T>, q: State<T>, history: seq<Answer<T>>, x: T, k: nat)
    requires Reaches(buffer, q, history) && q.producer.PIdle?
    requires q.seenHead <= k <= |q.popped| && |q.pushed| - k < |buffer| - 1
    ensures q.tail < |q.buffer| && Reaches(buffer, AfterPush(q, x, k), history + [Pushed(x)])
  {
    hide Reaches, Inv;
    WhatIsReached(buffer, q, history);
    PushBegins(buffer, q, history, x, k);
    var begun := q.(producer := PWrite(x, q.tail), seenHead := k);
    WhatIsReached(buffer, begun, history);
    Unsettled(buffer, begun, history, PushWrite);
    ReachesNext(buffer, Next(begun, PushWrite), history, PushStore);
  }

  /** A pop that sees `k` pushes, up to its test. */
  lemma PopBegins<T(!new)>(buffer: seq<T>, q: State<T>, history: seq<Answer<T>>, k: nat)
    requires Reaches(buffer, q, history) && q.consumer.CIdle?
    requires q.seenTail <= k <= |q.pushed| && |q.popped| < k
    ensures Reaches(buffer, q.(consumer := CRead(q.head), seenTail := k), history)
  {
    hide Reaches, Inv, FindsEmpty;
    WhatIsReached(buffer, q, history);
    Unsettled(buffer, q, history, PopCall);
    var called := q.(consumer := CLoadTail(q.head));
    assert Next(q, PopCall) == called;
    LoadsFail(called, PopLoadTail(k));
    Unsettled(buffer, called, history, PopLoadTail(k));
    var loaded := called.(consumer := CTest(q.head, k % |q.buffer|), seenTail := k);
    assert Next(called, PopLoadTail(k)) == loaded;
    Unsettled(buffer, loaded, history, PopTest);
  }

  /** The state after an undisturbed pop that sees `k` pushes. */
  function AfterPop<T>(q: State<T>, k: nat): State<T>
    requires q.buffer != [] && |q.popped| < |q.pushed|
  {
    q.(head := (q.head + 1) % |q.buffer|, popped := q.popped + [q.pushed[|q.popped|]], seenTail := k)
  }

  lemma PopRun<T(!new)>(buffer: seq<T>, q: State<T>, history: seq<Answer<T>>, k: nat)
    requires Reaches(buffer, q, history) && q.consumer.CIdle?
    requires q.seenTail <= k <= |q.pushed| && |q.popped| < k
    ensures q.buffer != [] && Reaches(buffer, AfterPop(q, k), history + [Popped(q.pushed[|q.popped|])])
  {
    hide Reaches, Inv, Written, MayObserve;
    WhatIsReached(buffer, q, history);
    PopBegins(buffer, q, history, k);
    var begun := q.(consumer := CRead(q.head), seenTail := k);
    WhatIsReached(buffer, begun, history);
    ObservesItsItem(begun, |q.popped|);
    Unsettled(buffer, begun, history, PopRead(|q.popped|));
    ReachesNext(buffer, Next(begun, PopRead(|q.popped|)), history, PopStore);
  }

  /** A three-slot ring after two pushes and a pop; what its threads have loaded
      so far are the oldest values that coherence allows. */
  function OnePopped(producer: Producer<int>, consumer: Consumer<int>): State<int> {
    State([0, 0, 0], [1, 2, 0], 1, 2, producer, consumer, [1, 2], [1], 0, 1)
  }

  /** Both threads have started a call and loaded the other's index. */
  function BothLoaded(): State<int> {
    OnePopped(PTest(3, 2, 0), CTest(1, 1))
  }

  lemma TwoPushedReached()
    ensures Reaches([0, 0, 0], State([0, 0, 0], [1, 2, 0], 0, 2, PIdle, CIdle, [1, 2], [], 0, 0),
                    [Pushed(1), Pushed(2)])
  {
    hide Reaches, Inv, Next, MayObserve;
    var ring, nothing: seq<Answer<int>> := [0, 0, 0], [];
    ReachesInit(ring);
    PushRun(ring, Init(ring), nothing, 1, 0);
    var one := State(ring, [1, 0, 0], 0, 1, PIdle, CIdle, [1], [], 0, 0);
    assert AfterPush(Init(ring), 1, 0) == one;
    assert nothing + [Pushed(1)] == [Pushed(1)];
    PushRun(ring, one, [Pushed(1)], 2, 0);
    assert AfterPush(one, 2, 0) == State(ring, [1, 2, 0], 0, 2, PIdle, CIdle, [1, 2], [], 0, 0);
    assert [Pushed(1)] + [Pushed(2)] == [Pushed(1), Pushed(2)];
  }

  /** Two undisturbed pushes and a pop reach it. */
  lemma OnePoppedReached()
    ensures Reaches([0, 0, 0], OnePopped(PIdle, CIdle), [Pushed(1), Pushed(2), Popped(1)])
  {
    hide Reaches, Inv, Next, MayObserve;
    TwoPushedReached();
    var ring, two := [0, 0, 0], State([0, 0, 0], [1, 2, 0], 0, 2, PIdle, CIdle, [1, 2], [], 0, 0);
    PopRun(ring, two, [Pushed(1), Pushed(2)], 1);
    assert AfterPop(two, 1) == OnePopped(PIdle, CIdle);
    assert [Pushed(1), Pushed(2)] + [Popped(1)] == [Pushed(1), Pushed(2), Popped(1)];
  }

  /** A run reaches it: with one item in three slots, after every other call
      has completed, the push finds the ring full and the pop finds it empty. */
  lemma BothFail()
    ensures Reaches([0, 0, 0], BothLoaded(), [Pushed(1), Pushed(2), Popped(1), Full(3), Empty])
    ensures FindsFull(BothLoaded()) && FindsEmpty(BothLoaded()) && Contents(BothLoaded()) == [2]
  {
    hide Reaches, Inv, Next, MayObserve;
    OnePoppedReached();
    var h := [Pushed(1), Pushed(2), Popped(1)];
    BothLoad(h);
    assert h + [Full(3), Empty] == [Pushed(1), Pushed(2), Popped(1), Full(3), Empty];
  }

  lemma BothLoad(h: seq<Answer<int>>)
    requires Reaches([0, 0, 0], OnePopped(PIdle, CIdle), h)
    ensures Reaches([0, 0, 0], BothLoaded(), h + [Full(3), Empty])
  {
    hide Reaches;
    var ring := [0, 0, 0];
    WhatIsReached(ring, OnePopped(PIdle, CIdle), h);
    Unsettled(ring, OnePopped(PIdle, CIdle), h, PushCall(3));
    var called := OnePopped(PLoadHead(3, 2), CIdle);
    assert Next(OnePopped(PIdle, CIdle), PushCall(3)) == called;
    ReachesNext(ring, called, h, PushLoadHead(0));
    var loaded := OnePopped(PTest(3, 2, 0), CIdle);
    assert Next(called, PushLoadHead(0)) == loaded;
    assert Answers(called, PushLoadHead(0)) == [Full(3)];
    Unsettled(ring, loaded, h + [Full(3)], PopCall);
    var popping := OnePopped(PTest(3, 2, 0), CLoadTail(1));
    assert Next(loaded, PopCall) == popping;
    ReachesNext(ring, popping, h + [Full(3)], PopLoadTail(1));
    assert h + [Full(3)] + [Empty] == h + [Full(3), Empty];
  }

  /** Failing a push and a pop side by side, in either order, is beyond every FIFO. */
  lemma NoFifoFailsBoth<T>(capacity: nat, before: seq<Answer<T>>, x: T)
    requires 0 < capacity
    ensures BoundedReplay(capacity, before + [Full(x), Empty]) == Refused
    ensures BoundedReplay(capacity, before + [Empty, Full(x)]) == Refused
  {
    ReplayNext(capacity, before, Full(x));
    ReplayNext(capacity, before, Empty);
    ReplayNext(capacity, before + [Full(x)], Empty);
    ReplayNext(capacity, before + [Empty], Full(x));
    assert before + [Full(x)] + [Empty] == before + [Full(x), Empty];
    assert before + [Empty] + [Full(x)] == before + [Empty, Full(x)];
  }
}
