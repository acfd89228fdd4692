/** Linearizability of the ring buffer. Each call, failing or not, takes effect at
    one moment of its choice between its start and its return; the effects, in
    order, must be answers that the FIFO of capacity n - 1 gives. A run has such
    moments exactly when every push that fails was called on a full ring, and every
    pop that fails on an empty one. */
module SpscLinear {
  import opened SpscSpec
  import opened SpscHistory

  /** A run with the moments of effect written in: a step of either thread, or the
      effect of the push or of the pop that is under way. */
  datatype Mark<T> = Act(step: Step<T>) | PushTakes(answer: Answer<T>) | PopTakes(answer: Answer<T>)

  /** Whether a thread's call has taken effect, and with which answer. */
  datatype Decision<T> = Undecided | Decided(answer: Answer<T>)

  datatype Log<T> =
    | Wrong
    | Log(state: State<T>, push: Decision<T>, pop: Decision<T>, answers: seq<Answer<T>>)

  /** The answers that a step returns to the caller of `push`, and of `pop`. */
  function PushReturns<T>(q: State<T>, step: Step<T>): Decision<T>
    requires Inv(q) && Enabled(q, step)
  {
    if step.PushTest? && FindsFull(q) then Decided(Full(q.producer.item))
    else if step.PushStore? then Decided(Pushed(q.producer.item))
    else Undecided
  }

  function PopReturns<T>(q: State<T>, step: Step<T>): Decision<T>
    requires Inv(q) && Enabled(q, step)
  {
    if step.PopTest? && FindsEmpty(q) then Decided(Empty)
    else if step.PopStore? then Decided(Popped(q.consumer.item))
    else Undecided
  }

  /** A call returns the answer it took effect with, and is then over. */
  predicate Agrees<T(==)>(taken: Decision<T>, returned: Decision<T>) {
    returned.Undecided? || taken == returned
  }

  function After<T>(taken: Decision<T>, returned: Decision<T>): Decision<T> {
    if returned.Undecided? then taken else Undecided
  }

  predicate PushMayTake<T(==)>(q: State<T>, taken: Decision<T>, a: Answer<T>) {
    !q.producer.PIdle? && taken.Undecided? && (a == Full(q.producer.item) || a == Pushed(q.producer.item))
  }

  predicate PopMayTake<T>(q: State<T>, taken: Decision<T>, a: Answer<T>) {
    !q.consumer.CIdle? && taken.Undecided? && (a.Empty? || a.Popped?)
  }

  function Marked<T(==)>(l: Log<T>, m: Mark<T>): Log<T>
    requires l.Log? ==> Inv(l.state)
  {
    if l.Wrong? then Wrong
    else
      match m
      case Act(step) =>
        if !Enabled(l.state, step) then Wrong
        else
          var push, pop := PushReturns(l.state, step), PopReturns(l.state, step);
          if Agrees(l.push, push) && Agrees(l.pop, pop) then
            Log(Next(l.state, step), After(l.push, push), After(l.pop, pop), l.answers)
          else Wrong
      case PushTakes(a) =>
        if PushMayTake(l.state, l.push, a) then l.(push := Decided(a), answers := l.answers + [a]) else Wrong
      case PopTakes(a) =>
        if PopMayTake(l.state, l.pop, a) then l.(pop := Decided(a), answers := l.answers + [a]) else Wrong
  }

  function LogOf<T(==)>(buffer: seq<T>, marks: seq<Mark<T>>): (l: Log<T>)
    requires buffer != []
    ensures l.Log? ==> Inv(l.state) && |l.state.buffer| == |buffer|
  {
    if marks == [] then
      InitInv(buffer);
      Log(Init(buffer), Undecided, Undecided, [])
    else
      var l, m := LogOf(buffer, marks[..|marks| - 1]), marks[|marks| - 1];
      if l.Log? && m.Act? && Enabled(l.state, m.step) then
        StepKeeps(l.state, m.step);
        Marked(l, m)
      else
        Marked(l, m)
  }

  function StepsOf<T>(marks: seq<Mark<T>>): seq<Step<T>> {
    if marks == [] then []
    else
      StepsOf(marks[..|marks| - 1]) +
      (if marks[|marks| - 1].Act? then [marks[|marks| - 1].step] else [])
  }

  /** Some choice of moments makes the answers those of the FIFO. */
  ghost predicate Linearizable<T(!new)>(buffer: seq<T>, steps: seq<Step<T>>)
    requires buffer != []
  {
    exists marks :: StepsOf(marks) == steps && LogOf(buffer, marks).Log? &&
                    BoundedReplay(|buffer| - 1, LogOf(buffer, marks).answers).Holding?
  }

  // ----- what the calls saw when they started

  /** The ring's state when the latest push was called; likewise for pop. */
  function AtPushCall<T>(buffer: seq<T>, steps: seq<Step<T>>): State<T>
    requires buffer != [] && Run(buffer, steps).Reached?
  {
    if steps == [] then Init(buffer)
    else
      var before := steps[..|steps| - 1];
      if steps[|steps| - 1].PushCall? then Run(buffer, before).state else AtPushCall(buffer, before)
  }

  function AtPopCall<T>(buffer: seq<T>, steps: seq<Step<T>>): State<T>
    requires buffer != [] && Run(buffer, steps).Reached?
  {
    if steps == [] then Init(buffer)
    else
      var before := steps[..|steps| - 1];
      if steps[|steps| - 1].PopCall? then Run(buffer, before).state else AtPopCall(buffer, before)
  }

  predicate FullThen<T>(buffer: seq<T>, steps: seq<Step<T>>)
    requires buffer != [] && Run(buffer, steps).Reached?
  {
    |Contents(AtPushCall(buffer, steps))| == |buffer| - 1
  }

  predicate EmptyThen<T>(buffer: seq<T>, steps: seq<Step<T>>)
    requires buffer != [] && Run(buffer, steps).Reached?
  {
    Contents(AtPopCall(buffer, steps)) == []
  }

  /** Every push that fails was called on a full ring, and every pop that fails on an empty one. */
  predicate FailuresCalledFor<T>(buffer: seq<T>, steps: seq<Step<T>>)
    requires buffer != [] && Run(buffer, steps).Reached?
  {
    steps == [] ||
    var before, step := steps[..|steps| - 1], steps[|steps| - 1];
    var q := Run(buffer, before).state;
    && FailuresCalledFor(buffer, before)
    && (step.PushTest? && FindsFull(q) ==> FullThen(buffer, before))
    && (step.PopTest? && FindsEmpty(q) ==> EmptyThen(buffer, before))
  }

  /** While a call is under way its own count stands still and the other only grows:
      since a push was called the ring can only have emptied, since a pop only filled. */
  lemma {:induction false} SinceCalls<T>(buffer: seq<T>, steps: seq<Step<T>>)
    requires buffer != [] && Run(buffer, steps).Reached?
    ensures var q, p, c := Run(buffer, steps).state, AtPushCall(buffer, steps), AtPopCall(buffer, steps);
            && Inv(q) && Inv(p) && Inv(c) && |q.buffer| == |p.buffer| == |c.buffer| == |buffer|
            && |p.pushed| <= |q.pushed| && |p.popped| <= |q.popped|
            && |c.pushed| <= |q.pushed| && |c.popped| <= |q.popped|
            && (!q.producer.PIdle? ==> |p.pushed| == |q.pushed|)
            && (!q.consumer.CIdle? ==> |c.popped| == |q.popped|)
  {
    hide Inv;
    if steps == [] {
      InitInv(buffer);
    } else {
      var before := steps[..|steps| - 1];
      SinceCalls(buffer, before);
      StepKeeps(Run(buffer, before).state, steps[|steps| - 1]);
    }
  }

  // ----- only if

  /** What a log that the FIFO accepts so far says about the ring. An effect taken
      before its return puts the FIFO one ahead. */
  ghost predicate Fits<T>(buffer: seq<T>, steps: seq<Step<T>>, l: Log<T>, content: seq<T>)
    requires buffer != []
  {
    && l.Log? && Run(buffer, steps) == Reached(l.state)
    && |content| + |l.state.popped| + (if l.pop.Decided? && l.pop.answer.Popped? then 1 else 0)
       == |l.state.pushed| + (if l.push.Decided? && l.push.answer.Pushed? then 1 else 0)
    && (l.push.Decided? ==> !l.state.producer.PIdle? && (l.push.answer.Full? || l.push.answer.Pushed?))
    && (l.pop.Decided? ==> !l.state.consumer.CIdle? && (l.pop.answer.Empty? || l.pop.answer.Popped?))
    && (l.push.Decided? && l.push.answer.Full? ==> FullThen(buffer, steps))
    && (l.pop.Decided? && l.pop.answer.Empty? ==> EmptyThen(buffer, steps))
    && FailuresCalledFor(buffer, steps)
  }

  lemma ContentsBound<T>(q: State<T>)
    requires Inv(q)
    ensures |Contents(q)| == |q.pushed| - |q.popped| <= |q.buffer| - 1
  {
  }

  lemma PushTakesFits<T>(buffer: seq<T>, steps: seq<Step<T>>, l: Log<T>, content: seq<T>, a: Answer<T>)
    requires buffer != [] && Fits(buffer, steps, l, content) && PushMayTake(l.state, l.push, a)
    requires Answered(|buffer| - 1, content, a).Holding?
    ensures Fits(buffer, steps, l.(push := Decided(a), answers := l.answers + [a]),
                 Answered(|buffer| - 1, content, a).content)
  {
    hide Inv, Contents, Run, AtPushCall, AtPopCall, FailuresCalledFor;
    SinceCalls(buffer, steps);
    ContentsBound(AtPushCall(buffer, steps));
  }

  lemma PopTakesFits<T>(buffer: seq<T>, steps: seq<Step<T>>, l: Log<T>, content: seq<T>, a: Answer<T>)
    requires buffer != [] && Fits(buffer, steps, l, content) && PopMayTake(l.state, l.pop, a)
    requires Answered(|buffer| - 1, content, a).Holding?
    ensures Fits(buffer, steps, l.(pop := Decided(a), answers := l.answers + [a]),
                 Answered(|buffer| - 1, content, a).content)
  {
    hide Inv, Contents, Run, AtPushCall, AtPopCall, FailuresCalledFor;
    SinceCalls(buffer, steps);
    ContentsBound(AtPopCall(buffer, steps));
  }

  lemma RunNext<T>(buffer: seq<T>, steps: seq<Step<T>>, step: Step<T>)
    requires buffer != [] && Run(buffer, steps).Reached? && Enabled(Run(buffer, steps).state, step)
    ensures var q := Run(buffer, steps).state;
            && Run(buffer, steps + [step]) == Reached(Next(q, step))
            && AtPushCall(buffer, steps + [step]) == (if step.PushCall? then q else AtPushCall(buffer, steps))
            && AtPopCall(buffer, steps + [step]) == (if step.PopCall? then q else AtPopCall(buffer, steps))
            && (FailuresCalledFor(buffer, steps + [step]) <==>
                  && FailuresCalledFor(buffer, steps)
                  && (step.PushTest? && FindsFull(q) ==> FullThen(buffer, steps))
                  && (step.PopTest? && FindsEmpty(q) ==> EmptyThen(buffer, steps)))
  {
    hide Inv, Next, Enabled, FindsFull, FindsEmpty, FullThen, EmptyThen;
    assert (steps + [step])[..|steps|] == steps;
  }

  lemma ActFits<T>(buffer: seq<T>, steps: seq<Step<T>>, l: Log<T>, content: seq<T>, step: Step<T>)
    requires buffer != [] && Fits(buffer, steps, l, content) && Inv(l.state)
    requires Marked(l, Act(step)).Log?
    ensures Fits(buffer, steps + [step], Marked(l, Act(step)), content)
  {
    hide Inv, Contents, Run, AtPushCall, AtPopCall, FailuresCalledFor, FindsFull, FindsEmpty;
    RunNext(buffer, steps, step);
  }

  lemma {:induction false} LogFits<T>(buffer: seq<T>, marks: seq<Mark<T>>)
    requires buffer != [] && LogOf(buffer, marks).Log?
    requires BoundedReplay(|buffer| - 1, LogOf(buffer, marks).answers).Holding?
    ensures var l := LogOf(buffer, marks);
            Fits(buffer, StepsOf(marks), l, BoundedReplay(|buffer| - 1, l.answers).content)
  {
    hide Inv, Fits, BoundedReplay, Answered, PushMayTake, PopMayTake, Enabled, PushReturns, PopReturns, Next;
    if marks == [] {
      NothingFits(buffer);
    } else {
      var l, m := LogOf(buffer, marks[..|marks| - 1]), marks[|marks| - 1];
      var steps := StepsOf(marks[..|marks| - 1]);
      match m {
        case Act(step) =>
          LogFits(buffer, marks[..|marks| - 1]);
          ActFits(buffer, steps, l, BoundedReplay(|buffer| - 1, l.answers).content, step);
        case PushTakes(a) =>
          ReplayNext(|buffer| - 1, l.answers, a);
          LogFits(buffer, marks[..|marks| - 1]);
          PushTakesFits(buffer, steps, l, BoundedReplay(|buffer| - 1, l.answers).content, a);
          assert steps + [] == steps;
        case PopTakes(a) =>
          ReplayNext(|buffer| - 1, l.answers, a);
          LogFits(buffer, marks[..|marks| - 1]);
          PopTakesFits(buffer, steps, l, BoundedReplay(|buffer| - 1, l.answers).content, a);
          assert steps + [] == steps;
      }
    }
  }

  lemma NothingFits<T>(buffer: seq<T>)
    requires buffer != []
    ensures var l := LogOf(buffer, []);
            BoundedReplay<T>(|buffer| - 1, []) == Holding([]) && Fits(buffer, [], l, [])
  {
  }

  // ----- if: a failing call takes effect as soon as it is called, another one at its store

  /** The moments can be chosen so that the calls under way stand as given and the FIFO holds `content`. */
  ghost predicate Built<T(!new)>(buffer: seq<T>, steps: seq<Step<T>>,
                                 push: Decision<T>, pop: Decision<T>, content: seq<T>)
    requires buffer != []
  {
    exists marks :: StepsOf(marks) == steps && BuiltBy(buffer, marks, steps, push, pop, content)
  }

  ghost predicate BuiltBy<T>(buffer: seq<T>, marks: seq<Mark<T>>, steps: seq<Step<T>>,
                             push: Decision<T>, pop: Decision<T>, content: seq<T>)
    requires buffer != []
  {
    var l := LogOf(buffer, marks);
    && l.Log? && Run(buffer, steps) == Reached(l.state) && l.push == push && l.pop == pop
    && BoundedReplay(|buffer| - 1, l.answers) == Holding(content)
  }

  lemma LogNext<T>(buffer: seq<T>, marks: seq<Mark<T>>, m: Mark<T>)
    requires buffer != []
    ensures LogOf(buffer, marks + [m]) == Marked(LogOf(buffer, marks), m)
    ensures StepsOf(marks + [m]) == StepsOf(marks) + if m.Act? then [m.step] else []
  {
    hide Inv, Next;
    assert (marks + [m])[..|marks|] == marks;
  }

  lemma BuiltAct<T(!new)>(buffer: seq<T>, steps: seq<Step<T>>, push: Decision<T>, pop: Decision<T>, content: seq<T>,
                          step: Step<T>)
    requires buffer != [] && Built(buffer, steps, push, pop, content)
    requires Run(buffer, steps).Reached? && Enabled(Run(buffer, steps).state, step)
    requires var q := Run(buffer, steps).state;
             Agrees(push, PushReturns(q, step)) && Agrees(pop, PopReturns(q, step))
    ensures var q := Run(buffer, steps).state;
            Built(buffer, steps + [step], After(push, PushReturns(q, step)), After(pop, PopReturns(q, step)), content)
  {
    hide Inv, Next, Enabled, PushReturns, PopReturns, LogOf, StepsOf, BoundedReplay, Run;
    var marks :| StepsOf(marks) == steps && BuiltBy(buffer, marks, steps, push, pop, content);
    LogNext(buffer, marks, Act(step));
    RunNext(buffer, steps, step);
    assert BuiltBy(buffer, marks + [Act(step)], steps + [step],
                   After(push, PushReturns(Run(buffer, steps).state, step)),
                   After(pop, PopReturns(Run(buffer, steps).state, step)), content);
  }

  lemma BuiltPush<T(!new)>(buffer: seq<T>, steps: seq<Step<T>>, push: Decision<T>, pop: Decision<T>, content: seq<T>,
                           a: Answer<T>)
    requires buffer != [] && Built(buffer, steps, push, pop, content)
    requires Run(buffer, steps).Reached? && PushMayTake(Run(buffer, steps).state, push, a)
    requires Answered(|buffer| - 1, content, a).Holding?
    ensures Built(buffer, steps, Decided(a), pop, Answered(|buffer| - 1, content, a).content)
  {
    hide Inv, Next, Enabled, PushMayTake, LogOf, StepsOf, BoundedReplay, Answered, Run;
    var marks :| StepsOf(marks) == steps && BuiltBy(buffer, marks, steps, push, pop, content);
    LogNext(buffer, marks, PushTakes(a));
    ReplayNext(|buffer| - 1, LogOf(buffer, marks).answers, a);
    assert steps + [] == steps;
    assert BuiltBy(buffer, marks + [PushTakes(a)], steps, Decided(a), pop, Answered(|buffer| - 1, content, a).content);
  }

  lemma BuiltPop<T(!new)>(buffer: seq<T>, steps: seq<Step<T>>, push: Decision<T>, pop: Decision<T>, content: seq<T>,
                          a: Answer<T>)
    requires buffer != [] && Built(buffer, steps, push, pop, content)
    requires Run(buffer, steps).Reached? && PopMayTake(Run(buffer, steps).state, pop, a)
    requires Answered(|buffer| - 1, content, a).Holding?
    ensures Built(buffer, steps, push, Decided(a), Answered(|buffer| - 1, content, a).content)
  {
    hide Inv, Next, Enabled, PopMayTake, LogOf, StepsOf, BoundedReplay, Answered, Run;
    var marks :| StepsOf(marks) == steps && BuiltBy(buffer, marks, steps, push, pop, content);
    LogNext(buffer, marks, PopTakes(a));
    ReplayNext(|buffer| - 1, LogOf(buffer, marks).answers, a);
    assert steps + [] == steps;
    assert BuiltBy(buffer, marks + [PopTakes(a)], steps, push, Decided(a), Answered(|buffer| - 1, content, a).content);
  }

  /** The decisions of the calls under way, if they are to fail. */
  function PushPlan<T>(q: State<T>, fails: bool): Decision<T> {
    if fails && !q.producer.PIdle? then Decided(Full(q.producer.item)) else Undecided
  }

  function PopPlan<T>(fails: bool): Decision<T> {
    if fails then Decided(Empty) else Undecided
  }

  ghost predicate MayFail<T>(buffer: seq<T>, steps: seq<Step<T>>, pushFails: bool, popFails: bool)
    requires buffer != [] && Run(buffer, steps).Reached?
  {
    var q := Run(buffer, steps).state;
    && (pushFails ==> (q.producer.PLoadHead? || q.producer.PTest?) && FullThen(buffer, steps))
    && (popFails ==> (q.consumer.CLoadTail? || q.consumer.CTest?) && EmptyThen(buffer, steps))
  }

  /** The failures planned before a step, given those planned after it: a failing
      test ends its call, and a call begins undecided. */
  function PushFailsBefore<T>(q: State<T>, step: Step<T>, fails: bool): bool
    requires Inv(q) && Enabled(q, step)
  {
    if step.PushCall? then false else if step.PushTest? then FindsFull(q) else fails
  }

  function PopFailsBefore<T>(q: State<T>, step: Step<T>, fails: bool): bool
    requires Inv(q) && Enabled(q, step)
  {
    if step.PopCall? then false else if step.PopTest? then FindsEmpty(q) else fails
  }

  lemma MayFailBefore<T>(buffer: seq<T>, steps: seq<Step<T>>, step: Step<T>, pushFails: bool, popFails: bool)
    requires buffer != [] && Run(buffer, steps).Reached? && Enabled(Run(buffer, steps).state, step)
    requires Run(buffer, steps + [step]).Reached? && FailuresCalledFor(buffer, steps + [step])
    requires MayFail(buffer, steps + [step], pushFails, popFails)
    ensures var q := Run(buffer, steps).state;
            MayFail(buffer, steps, PushFailsBefore(q, step, pushFails), PopFailsBefore(q, step, popFails))
  {
    hide Inv, Contents, Run, AtPushCall, AtPopCall, FailuresCalledFor, FindsFull, FindsEmpty;
    RunNext(buffer, steps, step);
  }

  /** What a step makes of the planned decisions and of the FIFO's content. */
  lemma BuildStep<T(!new)>(buffer: seq<T>, steps: seq<Step<T>>, step: Step<T>, pushFails: bool, popFails: bool)
    requires buffer != [] && Run(buffer, steps).Reached? && Enabled(Run(buffer, steps).state, step)
    requires var q := Run(buffer, steps).state;
             Built(buffer, steps, PushPlan(q, PushFailsBefore(q, step, pushFails)),
                   PopPlan(PopFailsBefore(q, step, popFails)), Contents(q))
    requires Run(buffer, steps + [step]).Reached? && MayFail(buffer, steps + [step], pushFails, popFails)
    ensures var q' := Run(buffer, steps + [step]).state;
            Built(buffer, steps + [step], PushPlan(q', pushFails), PopPlan(popFails), Contents(q'))
  {
    hide Inv, Built, Run, AtPushCall, AtPopCall, FailuresCalledFor, FindsFull, FindsEmpty, Contents;
    var q := Run(buffer, steps).state;
    var push, pop := PushPlan(q, PushFailsBefore(q, step, pushFails)), PopPlan(PopFailsBefore(q, step, popFails));
    RunNext(buffer, steps, step);
    StepRefines(q, step);
    ContentsBound(q);
    if step.PushStore? {
      StepKeeps(q, step);
      ContentsBound(Next(q, step));
      BuiltPush(buffer, steps, push, pop, Contents(q), Pushed(q.producer.item));
      BuiltAct(buffer, steps, Decided(Pushed(q.producer.item)), pop, Contents(Next(q, step)), step);
    } else if step.PopStore? {
      BuiltPop(buffer, steps, push, pop, Contents(q), Popped(q.consumer.item));
      BuiltAct(buffer, steps, push, Decided(Popped(q.consumer.item)), Contents(Next(q, step)), step);
    } else {
      BuiltAct(buffer, steps, push, pop, Contents(q), step);
      if step.PushCall? && pushFails {
        BuiltPush(buffer, steps + [step], Undecided, pop, Contents(q), Full(step.item));
      } else if step.PopCall? && popFails {
        BuiltPop(buffer, steps + [step], push, Undecided, Contents(q), Empty);
      }
    }
  }

  lemma {:induction false} Build<T(!new)>(buffer: seq<T>, steps: seq<Step<T>>, pushFails: bool, popFails: bool)
    requires buffer != [] && Run(buffer, steps).Reached? && FailuresCalledFor(buffer, steps)
    requires MayFail(buffer, steps, pushFails, popFails)
    ensures var q := Run(buffer, steps).state;
            Built(buffer, steps, PushPlan(q, pushFails), PopPlan(popFails), Contents(q))
  {
    hide Inv, Built, MayFail, Contents, PushPlan, PopPlan, PushFailsBefore, PopFailsBefore, Enabled, Next;
    if steps == [] {
      BuildNothing(buffer, pushFails, popFails);
    } else {
      var before, step := steps[..|steps| - 1], steps[|steps| - 1];
      assert steps == before + [step];
      var q := Run(buffer, before).state;
      MayFailBefore(buffer, before, step, pushFails, popFails);
      Build(buffer, before, PushFailsBefore(q, step, pushFails), PopFailsBefore(q, step, popFails));
      BuildStep(buffer, before, step, pushFails, popFails);
    }
  }

  lemma BuildNothing<T(!new)>(buffer: seq<T>, pushFails: bool, popFails: bool)
    requires buffer != [] && MayFail(buffer, [], pushFails, popFails)
    ensures Built(buffer, [], PushPlan(Init(buffer), pushFails), PopPlan(popFails), Contents(Init(buffer)))
  {
    assert BuiltBy<T>(buffer, [], [], Undecided, Undecided, []);
    assert StepsOf<T>([]) == [];
  }

  /** Main result: a run of the ring is linearizable, as a FIFO of capacity n - 1, if
      and only if every failing push was called on a full ring and every failing pop
      on an empty one. */
  lemma LinearizableIff<T(!new)>(buffer: seq<T>, steps: seq<Step<T>>)
    requires buffer != [] && Run(buffer, steps).Reached?
    ensures Linearizable(buffer, steps) <==> FailuresCalledFor(buffer, steps)
  {
    hide Run, FailuresCalledFor, BoundedReplay, LogOf, StepsOf, Contents, AtPushCall, AtPopCall;
    if Linearizable(buffer, steps) {
      var marks :| StepsOf(marks) == steps && LogOf(buffer, marks).Log? &&
                   BoundedReplay(|buffer| - 1, LogOf(buffer, marks).answers).Holding?;
      LogFits(buffer, marks);
    }
    if FailuresCalledFor(buffer, steps) {
      Build(buffer, steps, false, false);
    }
  }

  // ----- how this compares with loads that are up to date

  /** The calls that have loaded an index on which they will fail were called for. */
  ghost predicate DoomedCalledFor<T>(buffer: seq<T>, steps: seq<Step<T>>)
    requires buffer != [] && Run(buffer, steps).Reached?
  {
    var q := Run(buffer, steps).state;
    && (q.producer.PTest? && FindsFull(q) ==> FullThen(buffer, steps))
    && (q.consumer.CTest? && FindsEmpty(q) ==> EmptyThen(buffer, steps))
  }

  /** An up-to-date load that dooms its call shows that the ring was full, or empty, all along. */
  lemma FreshLoad<T>(buffer: seq<T>, steps: seq<Step<T>>, step: Step<T>)
    requires buffer != [] && Run(buffer, steps).Reached? && Enabled(Run(buffer, steps).state, step)
    requires FailsFresh(Run(buffer, steps).state, step)
    ensures var q := Run(buffer, steps).state;
            && (step.PushLoadHead? && FindsFull(Next(q, step)) ==> FullThen(buffer, steps))
            && (step.PopLoadTail? && FindsEmpty(Next(q, step)) ==> EmptyThen(buffer, steps))
  {
    hide Inv, Run, AtPushCall, AtPopCall, Contents, FindsFull, FindsEmpty;
    SinceCalls(buffer, steps);
    LoadsFail(Run(buffer, steps).state, step);
    ContentsBound(AtPushCall(buffer, steps));
    ContentsBound(AtPopCall(buffer, steps));
  }

  lemma DoomedNext<T>(buffer: seq<T>, steps: seq<Step<T>>, step: Step<T>)
    requires buffer != [] && Run(buffer, steps).Reached? && Enabled(Run(buffer, steps).state, step)
    requires FailsFresh(Run(buffer, steps).state, step) && DoomedCalledFor(buffer, steps)
    ensures Run(buffer, steps + [step]).Reached? && DoomedCalledFor(buffer, steps + [step])
  {
    hide Inv, Run, AtPushCall, AtPopCall, FailuresCalledFor, Contents, FailsFresh;
    RunNext(buffer, steps, step);
    FreshLoad(buffer, steps, step);
  }

  /** If every failing load is up to date, the run is linearizable. */
  lemma {:induction false} FreshCalledFor<T>(buffer: seq<T>, steps: seq<Step<T>>)
    requires buffer != [] && Run(buffer, steps).Reached? && FailuresFresh(buffer, steps)
    ensures FailuresCalledFor(buffer, steps) && DoomedCalledFor(buffer, steps)
  {
    hide Inv, FailsFresh, FindsFull, FindsEmpty, FullThen, EmptyThen, Next;
    if steps != [] {
      var before, step := steps[..|steps| - 1], steps[|steps| - 1];
      assert steps == before + [step];
      FreshCalledFor(buffer, before);
      DoomedNext(buffer, before, step);
    }
  }

  /** The converse fails. When pops complete between the call and the load of a push, the
      load may be stale, but if the ring was full at the call the failure is explained. */
  lemma LateLoad<T(!new)>(buffer: seq<T>, steps: seq<Step<T>>, k: nat)
    requires buffer != [] && Run(buffer, steps).Reached? && FailuresCalledFor(buffer, steps)
    requires FullThen(buffer, steps)
    requires var q := Run(buffer, steps).state;
             && q.producer.PLoadHead? && q.seenHead <= k < |q.popped| && |q.pushed| - k == |q.buffer| - 1
    ensures var steps' := steps + [PushLoadHead(k), PushTest];
            Run(buffer, steps').Reached? && Linearizable(buffer, steps') && !FailuresFresh(buffer, steps')
  {
    hide Inv, Run, AtPushCall, AtPopCall, FailuresCalledFor, FailuresFresh, Contents, Linearizable;
    var loaded := steps + [PushLoadHead(k)];
    LoadsFail(Run(buffer, steps).state, PushLoadHead(k));
    RunNext(buffer, steps, PushLoadHead(k));
    FreshNext(buffer, steps, PushLoadHead(k));
    RunNext(buffer, loaded, PushTest);
    FreshNext(buffer, loaded, PushTest);
    assert loaded + [PushTest] == steps + [PushLoadHead(k), PushTest];
    LinearizableIff(buffer, loaded + [PushTest]);
  }

  lemma FreshNext<T>(buffer: seq<T>, steps: seq<Step<T>>, step: Step<T>)
    requires buffer != [] && Run(buffer, steps).Reached? && Enabled(Run(buffer, steps).state, step)
    ensures Run(buffer, steps + [step]).Reached?
    ensures FailuresFresh(buffer, steps + [step]) <==>
            FailuresFresh(buffer, steps) && FailsFresh(Run(buffer, steps).state, step)
  {
    hide Inv, Next, Enabled, FailsFresh;
    assert (steps + [step])[..|steps|] == steps;
  }

  /** A full two-slot ring in which a push has been called, and the consumer stands as given. */
  function FullCalled(consumer: Consumer<int>, seenTail: nat): State<int> {
    State([0, 0], [1, 0], 0, 1, PLoadHead(2, 1), consumer, [1], [], 0, seenTail)
  }

  lemma FullReached() returns (steps: seq<Step<int>>)
    ensures Run([0, 0], steps) == Reached(FullCalled(CIdle, 0).(producer := PIdle))
    ensures FailuresCalledFor([0, 0], steps)
  {
    hide Inv, Run, Next, FailuresCalledFor, FullHistory, FailuresFresh, DoomedCalledFor;
    var ring, nothing: seq<Answer<int>> := [0, 0], [];
    ReachesInit(ring);
    PushRun(ring, Init(ring), nothing, 1, 0);
    var full := FullCalled(CIdle, 0).(producer := PIdle);
    assert AfterPush(Init(ring), 1, 0) == full;
    assert nothing + [Pushed(1)] == [Pushed(1)];
    steps :| Run(ring, steps) == Reached(full) && FullHistory(ring, steps) == [Pushed(1)];
    FullHistoryIff(ring, steps);
    ReplayNext(1, nothing, Pushed(1));
    FreshCalledFor(ring, steps);
  }

  /** Such a run: a push is called on the full ring, the whole pop of its item follows,
      and only then does the push load an index, still the old one. */
  lemma LateLoadHappens() returns (steps: seq<Step<int>>)
    ensures Run([0, 0], steps).Reached? && Linearizable([0, 0], steps) && !FailuresFresh([0, 0], steps)
  {
    hide Inv, Run, Next, AtPushCall, AtPopCall, FailuresCalledFor, FailuresFresh, Linearizable, MayObserve;
    steps := PopUnderWay();
    var ring, q := [0, 0], FullCalled(CRead(0), 1);
    ObservesItsItem(q, 0);
    PopReturnsIt();
    RunNext(ring, steps, PopRead(0));
    steps := steps + [PopRead(0)];
    RunNext(ring, steps, PopStore);
    steps := steps + [PopStore];
    LateLoad(ring, steps, 0);
    steps := steps + [PushLoadHead(0), PushTest];
  }

  /** From the full ring, the push is called and a pop gets as far as its read. */
  lemma PopUnderWay() returns (steps: seq<Step<int>>)
    ensures Run([0, 0], steps) == Reached(FullCalled(CRead(0), 1))
    ensures FailuresCalledFor([0, 0], steps) && FullThen([0, 0], steps)
  {
    hide Inv, Run, AtPushCall, AtPopCall, FailuresCalledFor, MayObserve;
    var ring := [0, 0];
    steps := FullReached();
    RunNext(ring, steps, PushCall(2));
    steps := steps + [PushCall(2)];
    RunNext(ring, steps, PopCall);
    steps := steps + [PopCall];
    assert Run(ring, steps).state == FullCalled(CLoadTail(0), 0);
    RunNext(ring, steps, PopLoadTail(1));
    steps := steps + [PopLoadTail(1)];
    assert Run(ring, steps).state == FullCalled(CTest(0, 1), 1);
    RunNext(ring, steps, PopTest);
    steps := steps + [PopTest];
  }

  lemma PopReturnsIt()
    ensures var q := FullCalled(CRead(0), 1);
            && Inv(q) && Enabled(q, PopRead(0))
            && var r := Next(q, PopRead(0));
            && r == FullCalled(CStore(0, 1), 1) && Inv(r) && Enabled(r, PopStore)
            && Next(r, PopStore) == FullCalled(CIdle, 1).(head := 1, popped := [1])
  {
    hide MayObserve;
    assert FullCalled(CRead(0), 1).pushed[..0] == [];
    ObservesItsItem(FullCalled(CRead(0), 1), 0);
    StepKeeps(FullCalled(CRead(0), 1), PopRead(0));
  }

  /** A push that is called after pops it does not see, and finds the ring full, is
      beyond explanation, wherever the calls are taken to act. */
  lemma StaleCall<T(!new)>(buffer: seq<T>, steps: seq<Step<T>>, x: T, k: nat)
    requires buffer != [] && Run(buffer, steps).Reached?
    requires var q := Run(buffer, steps).state;
             && q.producer.PIdle? && q.seenHead <= k < |q.popped| && |q.pushed| - k == |q.buffer| - 1
    ensures var steps' := steps + [PushCall(x), PushLoadHead(k), PushTest];
            Run(buffer, steps').Reached? && !Linearizable(buffer, steps')
  {
    hide Inv, Run, AtPushCall, AtPopCall, FailuresCalledFor, Contents, Linearizable;
    var q := Run(buffer, steps).state;
    var called := steps + [PushCall(x)];
    var loaded := called + [PushLoadHead(k)];
    ContentsBound(q);
    RunNext(buffer, steps, PushCall(x));
    StepKeeps(q, PushCall(x));
    LoadsFail(Next(q, PushCall(x)), PushLoadHead(k));
    RunNext(buffer, called, PushLoadHead(k));
    RunNext(buffer, loaded, PushTest);
    assert loaded + [PushTest] == steps + [PushCall(x), PushLoadHead(k), PushTest];
    LinearizableIff(buffer, loaded + [PushTest]);
  }

  /** Such a run: a push is refused although a completed pop has made room. */
  lemma NotLinearizable() returns (steps: seq<Step<int>>)
    ensures Run([0, 0, 0], steps).Reached? && !Linearizable([0, 0, 0], steps)
  {
    hide Run, Inv, FullHistory;
    OnePoppedReached();
    var ring := [0, 0, 0];
    var before :| Run(ring, before) == Reached(OnePopped(PIdle, CIdle));
    StaleCall(ring, before, 3, 0);
    steps := before + [PushCall(3), PushLoadHead(0), PushTest];
  }
}
