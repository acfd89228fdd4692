/** The two threads never wait for one another. Whatever one thread may do next, it
    may still do after a step of the other, and the order of the two makes no
    difference; so no interleaving is ruled out, and none is special. */
module Threads {
  import opened Orders
  import opened ExchangeSpec
  import opened SpscSpec
  import opened Pipeline

  /** A step keeps to its own thread's part of the queue, and moves its count at most up. */
  lemma ProducerFrame<T>(q: State<T>, step: Step<T>)
    requires Inv(q) && Enabled(q, step) && OfProducer(step)
    ensures var q' := Next(q, step);
            && Inv(q') && q'.consumer == q.consumer && q'.head == q.head && q'.popped == q.popped
            && q'.seenTail == q.seenTail && q'.initial == q.initial && |q'.buffer| == |q.buffer|
            && q.pushed <= q'.pushed
  {
    StepKeeps(q, step);
  }

  lemma ConsumerFrame<T>(q: State<T>, step: Step<T>)
    requires Inv(q) && Enabled(q, step) && !OfProducer(step)
    ensures var q' := Next(q, step);
            && Inv(q') && q'.producer == q.producer && q'.tail == q.tail && q'.pushed == q.pushed
            && q'.seenHead == q.seenHead && q'.initial == q.initial && q'.buffer == q.buffer
            && q.popped <= q'.popped
  {
    StepKeeps(q, step);
  }

  /** What a consumer's step does depends on the consumer's part alone. */
  lemma SameConsumerStep<T>(q: State<T>, r: State<T>, step: Step<T>)
    requires Inv(q) && Inv(r) && Enabled(q, step) && !OfProducer(step)
    requires r.consumer == q.consumer && r.head == q.head && r.popped == q.popped && r.seenTail == q.seenTail
    requires |r.buffer| == |q.buffer| && q.pushed <= r.pushed
    ensures Enabled(r, step)
    ensures var q', r' := Next(q, step), Next(r, step);
            r' == r.(consumer := q'.consumer, head := q'.head, popped := q'.popped, seenTail := q'.seenTail)
  {
    hide SlotsOk, ProducerOk;
    if step.PopRead? {
      ObservesItsItem(q, step.from);
      ObservesItsItem(r, step.from);
    }
  }

  lemma SameProducerStep<T>(q: State<T>, r: State<T>, step: Step<T>)
    requires Inv(q) && Inv(r) && Enabled(q, step) && OfProducer(step)
    requires r.producer == q.producer && r.tail == q.tail && r.pushed == q.pushed && r.seenHead == q.seenHead
    requires r.buffer == q.buffer && q.popped <= r.popped
    ensures Enabled(r, step)
    ensures var q', r' := Next(q, step), Next(r, step);
            r' == r.(producer := q'.producer, tail := q'.tail, pushed := q'.pushed, seenHead := q'.seenHead,
                     buffer := q'.buffer)
  {
    hide SlotsOk, ConsumerOk;
  }

  /** A push step and a pop step commute. */
  lemma StepsCommute<T>(q: State<T>, push: Step<T>, pop: Step<T>)
    requires Inv(q) && Enabled(q, push) && OfProducer(push) && Enabled(q, pop) && !OfProducer(pop)
    ensures Inv(Next(q, push)) && Enabled(Next(q, push), pop)
    ensures Inv(Next(q, pop)) && Enabled(Next(q, pop), push)
    ensures Next(Next(q, push), pop) == Next(Next(q, pop), push)
  {
    hide Inv, Next, Enabled;
    ProducerFrame(q, push);
    ConsumerFrame(q, pop);
    SameConsumerStep(q, Next(q, push), pop);
    SameProducerStep(q, Next(q, pop), push);
  }

  predicate OfNetwork(a: Action) {
    a.Submit? || a.Network?
  }

  /** Main result: an action of the network thread and one of the matching thread,
      both allowed, may be taken in either order, to the same end. */
  lemma ActionsCommute(s: Server, a: Action, b: Action)
    requires ServerOk(s) && Allowed(s, a) && OfNetwork(a) && Allowed(s, b) && !OfNetwork(b)
    ensures ServerOk(Act(s, a)) && Allowed(Act(s, a), b)
    ensures ServerOk(Act(s, b)) && Allowed(Act(s, b), a)
    ensures Act(Act(s, a), b) == Act(Act(s, b), a)
  {
    hide InOrder, IdsFromCounter, Inv, Next, Enabled, Dispatch, DispatchTrades, ExRun, ExTrades;
    ActKeeps(s, a);
    ActKeeps(s, b);
    if a.Network? && b.Matching? {
      StepsCommute(s.queue, a.step, b.step);
      ProducerFrame(s.queue, a.step);
      ConsumerFrame(s.queue, b.step);
    }
  }
}
