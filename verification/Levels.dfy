/** A price map of FIFO lists, as the in-order sequence of its entries: the
    program's std::map<double, std::list<Order>> on either side. Elements are
    opaque here; the book instantiates them with list nodes. */
module Levels {
  import opened Orders

  datatype Level<T> = Level(price: Price, queue: seq<T>)

  /** A list element together with the key it is filed under. */
  datatype Entry<T> = Entry(key: Price, item: T)

  function Tagged<T>(l: Level<T>): (es: seq<Entry<T>>)
    ensures |es| == |l.queue|
    ensures forall i :: 0 <= i < |es| ==> es[i] == Entry(l.price, l.queue[i])
  {
    seq(|l.queue|, i requires 0 <= i < |l.queue| => Entry(l.price, l.queue[i]))
  }

  /** All elements in priority order, each with its key. */
  function Flat<T>(ls: seq<Level<T>>): seq<Entry<T>> {
    if ls == [] then [] else Tagged(ls[0]) + Flat(ls[1..])
  }

  /** Keys strictly best-first and no empty level, so `begin()` and `front()` are defined. */
  ghost predicate Ordered<T>(side: Side, ls: seq<Level<T>>) {
    && (forall i, j :: 0 <= i < j < |ls| ==> Better(side, ls[i].price, ls[j].price))
    && (forall i :: 0 <= i < |ls| ==> ls[i].queue != [])
  }

  /** The map's lower bound: the first level whose price is not better than `p`. */
  function Find<T>(side: Side, ls: seq<Level<T>>, p: Price): (i: nat)
    ensures i <= |ls|
    ensures forall j :: 0 <= j < i ==> Better(side, ls[j].price, p)
    ensures i < |ls| ==> !Better(side, ls[i].price, p)
  {
    if ls == [] || !Better(side, ls[0].price, p) then 0 else 1 + Find(side, ls[1..], p)
  }

  /** Position of the first occurrence in a list. */
  function IndexOf<T(==)>(q: seq<T>, x: T): (j: nat)
    requires x in q
    ensures j < |q| && q[j] == x
  {
    if q[0] == x then 0 else 1 + IndexOf(q[1..], x)
  }

  /** `levels[p].push_back(x)`, creating the level when it is missing. */
  function PushBack<T>(side: Side, ls: seq<Level<T>>, p: Price, x: T): seq<Level<T>> {
    var i := Find(side, ls, p);
    if i < |ls| && ls[i].price == p then ls[i := Level(p, ls[i].queue + [x])]
    else ls[..i] + [Level(p, [x])] + ls[i..]
  }

  /** Write back the queue of level `i`, dropping the level when the queue is empty. */
  function SetQueue<T>(ls: seq<Level<T>>, i: nat, q: seq<T>): seq<Level<T>>
    requires i < |ls|
  {
    if q == [] then ls[..i] + ls[i + 1..] else ls[i := Level(ls[i].price, q)]
  }

  // ----- flattening

  lemma {:induction false} FlatAppend<T>(xs: seq<Level<T>>, ys: seq<Level<T>>)
    ensures Flat(xs + ys) == Flat(xs) + Flat(ys)
  {
    if xs == [] {
      assert xs + ys == ys;
    } else {
      FlatAppend(xs[1..], ys);
      assert (xs + ys)[0] == xs[0] && (xs + ys)[1..] == xs[1..] + ys;
      assert Tagged(xs[0]) + (Flat(xs[1..]) + Flat(ys)) == Tagged(xs[0]) + Flat(xs[1..]) + Flat(ys);
    }
  }

  lemma FlatSplit<T>(ls: seq<Level<T>>, i: nat)
    requires i < |ls|
    ensures Flat(ls) == Flat(ls[..i]) + Tagged(ls[i]) + Flat(ls[i + 1..])
  {
    assert ls == ls[..i] + ls[i..];
    FlatAppend(ls[..i], ls[i..]);
    assert ls[i..][1..] == ls[i + 1..];
  }

  lemma {:induction false} EntryOrigin<T>(ls: seq<Level<T>>, k: nat) returns (i: nat)
    requires k < |Flat(ls)|
    ensures i < |ls| && Flat(ls)[k].key == ls[i].price && Flat(ls)[k].item in ls[i].queue
  {
    if k < |ls[0].queue| {
      i := 0;
    } else {
      i := EntryOrigin(ls[1..], k - |ls[0].queue|);
      i := i + 1;
    }
  }

  /** An element at flat position `k` is found under its key, in its own list. */
  lemma Locate<T>(side: Side, ls: seq<Level<T>>, k: nat) returns (i: nat)
    requires Ordered(side, ls)
    requires k < |Flat(ls)|
    ensures i == Find(side, ls, Flat(ls)[k].key)
    ensures i < |ls| && ls[i].price == Flat(ls)[k].key && Flat(ls)[k].item in ls[i].queue
  {
    i := EntryOrigin(ls, k);
  }

  // ----- the two updates, seen through `Flat`

  /** The level boundary at which an element priced `p` joins. */
  function Boundary<T>(side: Side, ls: seq<Level<T>>, p: Price): (m: nat)
    ensures m <= |ls|
  {
    var i := Find(side, ls, p);
    if i < |ls| && ls[i].price == p then i + 1 else i
  }

  lemma BoundarySplits<T>(side: Side, ls: seq<Level<T>>, p: Price, i: nat)
    requires Ordered(side, ls) && i < |ls|
    ensures Better(side, p, ls[i].price) <==> Boundary(side, ls, p) <= i
  {
    hide Find;
    var f := Find(side, ls, p);
    if f < i {
      assert Better(side, ls[f].price, ls[i].price);
    }
  }

  lemma PushBackJoins<T>(side: Side, ls: seq<Level<T>>, p: Price, x: T)
    ensures var m := Boundary(side, ls, p);
            Flat(PushBack(side, ls, p, x)) == Flat(ls[..m]) + [Entry(p, x)] + Flat(ls[m..])
  {
    hide Find, Flat, Tagged;
    var i := Find(side, ls, p);
    if i < |ls| && ls[i].price == p {
      JoinLevel(ls, i, x);
    } else {
      NewLevel(ls, i, Level(p, [x]));
    }
  }

  lemma PushBackFlat<T>(side: Side, ls: seq<Level<T>>, p: Price, x: T) returns (k: nat)
    requires Ordered(side, ls)
    ensures Ordered(side, PushBack(side, ls, p, x))
    ensures k <= |Flat(ls)|
    ensures Flat(PushBack(side, ls, p, x)) == Flat(ls)[..k] + [Entry(p, x)] + Flat(ls)[k..]
    ensures forall j :: 0 <= j < k ==> !Better(side, p, Flat(ls)[j].key)
    ensures forall j :: k <= j < |Flat(ls)| ==> Better(side, p, Flat(ls)[j].key)
  {
    hide Flat, Tagged, PushBack, Ordered, Boundary;
    var m := Boundary(side, ls, p);
    k := |Flat(ls[..m])|;
    PushBackJoins(side, ls, p, x);
    FlatCut(ls, m);
    forall i | 0 <= i < |ls| ensures Better(side, p, ls[i].price) <==> m <= i {
      BoundarySplits(side, ls, p, i);
    }
    KeyBounds(side, ls, p, m);
    PushBackOrdered(side, ls, p, x);
  }

  lemma PushBackOrdered<T>(side: Side, ls: seq<Level<T>>, p: Price, x: T)
    requires Ordered(side, ls)
    ensures Ordered(side, PushBack(side, ls, p, x))
  {
    hide Flat, Tagged;
  }

  lemma KeyBounds<T>(side: Side, ls: seq<Level<T>>, p: Price, m: nat)
    requires m <= |ls|
    requires forall i :: 0 <= i < m ==> !Better(side, p, ls[i].price)
    requires forall i :: m <= i < |ls| ==> Better(side, p, ls[i].price)
    ensures |Flat(ls[..m])| <= |Flat(ls)|
    ensures forall j :: 0 <= j < |Flat(ls[..m])| ==> !Better(side, p, Flat(ls)[j].key)
    ensures forall j :: |Flat(ls[..m])| <= j < |Flat(ls)| ==> Better(side, p, Flat(ls)[j].key)
  {
    FlatCut(ls, m);
    forall j | 0 <= j < |Flat(ls)|
      ensures Better(side, p, Flat(ls)[j].key) <==> |Flat(ls[..m])| <= j
    {
      if j < |Flat(ls[..m])| {
        var o := EntryOrigin(ls[..m], j);
      } else {
        var o := EntryOrigin(ls[m..], j - |Flat(ls[..m])|);
      }
    }
  }

  lemma FlatCut<T>(ls: seq<Level<T>>, m: nat)
    requires m <= |ls|
    ensures Flat(ls) == Flat(ls[..m]) + Flat(ls[m..])
  {
    assert ls == ls[..m] + ls[m..];
    FlatAppend(ls[..m], ls[m..]);
  }

  lemma NewLevel<T>(ls: seq<Level<T>>, i: nat, l: Level<T>)
    requires i <= |ls| && |l.queue| == 1
    ensures Flat(ls[..i] + [l] + ls[i..]) == Flat(ls[..i]) + [Entry(l.price, l.queue[0])] + Flat(ls[i..])
  {
    var ls' := ls[..i] + [l] + ls[i..];
    FlatSplit(ls', i);
    assert ls'[..i] == ls[..i] && ls'[i + 1..] == ls[i..] && ls'[i] == l;
    assert Tagged(l) == [Entry(l.price, l.queue[0])];
  }

  lemma JoinLevel<T>(ls: seq<Level<T>>, i: nat, x: T)
    requires i < |ls|
    ensures Flat(ls[i := Level(ls[i].price, ls[i].queue + [x])])
         == Flat(ls[..i + 1]) + [Entry(ls[i].price, x)] + Flat(ls[i + 1..])
  {
    var l := Level(ls[i].price, ls[i].queue + [x]);
    var ls' := ls[i := l];
    FlatSplit(ls', i);
    assert ls'[..i] == ls[..i] && ls'[i + 1..] == ls[i + 1..] && ls'[i] == l;
    assert Tagged(l) == Tagged(ls[i]) + [Entry(l.price, x)];
    FlatSplit(ls[..i + 1], i);
    assert ls[..i + 1][..i] == ls[..i] && ls[..i + 1][i + 1..] == [];
    assert Flat(ls[..i + 1]) == Flat(ls[..i]) + Tagged(ls[i]);
  }

  ghost predicate DistinctItems<T>(es: seq<Entry<T>>) {
    forall m, n :: 0 <= m < n < |es| ==> es[m].item != es[n].item
  }

  lemma SetQueueOrdered<T>(side: Side, ls: seq<Level<T>>, i: nat, q: seq<T>)
    requires Ordered(side, ls) && i < |ls|
    ensures Ordered(side, SetQueue(ls, i, q))
  {
    var ls' := SetQueue(ls, i, q);
    assert forall j :: 0 <= j < |ls'| ==> ls'[j].price == ls[if q == [] && i <= j then j + 1 else j].price;
  }

  lemma EraseFlat<T>(side: Side, ls: seq<Level<T>>, i: nat, j: nat, k: nat)
    requires Ordered(side, ls) && DistinctItems(Flat(ls))
    requires i < |ls| && j < |ls[i].queue|
    requires k < |Flat(ls)| && Flat(ls)[k].item == ls[i].queue[j]
    ensures var ls' := SetQueue(ls, i, ls[i].queue[..j] + ls[i].queue[j + 1..]);
            Ordered(side, ls') && Flat(ls') == Flat(ls)[..k] + Flat(ls)[k + 1..]
  {
    hide Flat, SetQueue, Ordered;
    var q := ls[i].queue[..j] + ls[i].queue[j + 1..];
    var off := |Flat(ls[..i])|;
    FlatSplit(ls, i);
    assert Flat(ls)[off + j].item == ls[i].queue[j];
    assert k == off + j;
    SetQueueFlat(ls, i, q);
    SetQueueOrdered(side, ls, i, q);
    assert Tagged(Level(ls[i].price, q)) == Tagged(ls[i])[..j] + Tagged(ls[i])[j + 1..];
    CutAt(Flat(ls[..i]), Tagged(ls[i]), Flat(ls[i + 1..]), j);
  }

  /** Removing one element from the middle part of a three-part sequence. */
  lemma CutAt<E>(a: seq<E>, b: seq<E>, c: seq<E>, j: nat)
    requires j < |b|
    ensures (a + b + c)[..|a| + j] + (a + b + c)[|a| + j + 1..] == a + (b[..j] + b[j + 1..]) + c
  {
    assert (a + b + c)[..|a| + j] == a + b[..j];
    assert (a + b + c)[|a| + j + 1..] == b[j + 1..] + c;
  }

  lemma SetQueueFlat<T>(ls: seq<Level<T>>, i: nat, q: seq<T>)
    requires i < |ls|
    ensures Flat(SetQueue(ls, i, q)) == Flat(ls[..i]) + Tagged(Level(ls[i].price, q)) + Flat(ls[i + 1..])
  {
    var ls' := SetQueue(ls, i, q);
    if q == [] {
      FlatAppend(ls[..i], ls[i + 1..]);
    } else {
      FlatSplit(ls', i);
      assert ls'[..i] == ls[..i] && ls'[i + 1..] == ls[i + 1..];
    }
  }

  // ----- the flat sequence determines the levels

  /** The first level is exactly the run of entries with its key. */
  lemma HeadRun<T>(side: Side, ls: seq<Level<T>>, k: nat)
    requires Ordered(side, ls) && ls != [] && k < |Flat(ls)|
    ensures Flat(ls)[k].key == ls[0].price <==> k < |ls[0].queue|
    ensures k < |ls[0].queue| ==> Flat(ls)[k].item == ls[0].queue[k]
  {
    if |ls[0].queue| <= k {
      var i := EntryOrigin(ls[1..], k - |ls[0].queue|);
      assert ls[1..][i] == ls[i + 1];
    }
  }

  lemma FlatEmpty<T>(side: Side, ls: seq<Level<T>>)
    requires Ordered(side, ls)
    ensures Flat(ls) == [] <==> ls == []
  {
    if ls != [] {
      assert |Flat(ls)| >= |ls[0].queue|;
    }
  }

  /** How many leading entries carry key `p`. */
  function LeadingRun<T>(es: seq<Entry<T>>, p: Price): (r: nat)
    ensures r <= |es|
    ensures forall j :: 0 <= j < r ==> es[j].key == p
    ensures r < |es| ==> es[r].key != p
  {
    if es == [] || es[0].key != p then 0 else 1 + LeadingRun(es[1..], p)
  }

  lemma HeadIsLeadingRun<T>(side: Side, ls: seq<Level<T>>)
    requires Ordered(side, ls) && ls != []
    ensures Flat(ls) != [] && Flat(ls)[0].key == ls[0].price
    ensures |ls[0].queue| == LeadingRun(Flat(ls), ls[0].price)
    ensures forall k :: 0 <= k < |ls[0].queue| ==> Flat(ls)[k].item == ls[0].queue[k]
  {
    FlatEmpty(side, ls);
    forall k | 0 <= k < |Flat(ls)|
      ensures Flat(ls)[k].key == ls[0].price <==> k < |ls[0].queue|
      ensures k < |ls[0].queue| ==> Flat(ls)[k].item == ls[0].queue[k]
    {
      HeadRun(side, ls, k);
    }
    assert |ls[0].queue| <= |Flat(ls)|;
  }

  lemma SameHead<T>(side: Side, xs: seq<Level<T>>, ys: seq<Level<T>>)
    requires Ordered(side, xs) && Ordered(side, ys) && xs != [] && ys != [] && Flat(xs) == Flat(ys)
    ensures xs[0] == ys[0]
  {
    hide Flat, LeadingRun;
    HeadIsLeadingRun(side, xs);
    HeadIsLeadingRun(side, ys);
    assert xs[0].price == ys[0].price;
    forall k | 0 <= k < |xs[0].queue| ensures xs[0].queue[k] == ys[0].queue[k] {
      assert Flat(xs)[k] == Flat(ys)[k];
    }
    assert xs[0].queue == ys[0].queue;
  }

  /** So equal views mean equal price maps, levels and all. */
  lemma {:induction false} FlatDetermines<T>(side: Side, xs: seq<Level<T>>, ys: seq<Level<T>>)
    requires Ordered(side, xs) && Ordered(side, ys) && Flat(xs) == Flat(ys)
    ensures xs == ys
    decreases |xs|
  {
    FlatEmpty(side, xs);
    FlatEmpty(side, ys);
    if xs != [] {
      SameHead(side, xs, ys);
      assert Flat(xs[1..]) == Flat(xs)[|xs[0].queue|..];
      assert Flat(ys[1..]) == Flat(ys)[|ys[0].queue|..];
      FlatDetermines(side, xs[1..], ys[1..]);
      assert xs == [xs[0]] + xs[1..] && ys == [ys[0]] + ys[1..];
    }
  }
}
