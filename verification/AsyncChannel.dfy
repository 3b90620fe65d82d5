/** The push-to-pull channel (src/core/async-channel.ts), with one outstanding `next`. */
module AsyncChannels {
  import opened Prelude

  /** How a `next` call settles. */
  datatype Delivery<T> = Value(value: T) | End | Failure(error: string)

  /** `pushed` and `delivered` record what was accepted and what `next` calls settled with. */
  datatype Channel<T> = Channel(
    queue: seq<T>,
    done: bool,
    err: Option<string>,
    waiting: bool,
    pushed: seq<T>,
    delivered: seq<Delivery<T>>)

  datatype Event<T> = Push(value: T) | Close | Error(error: string) | Pull

  function Initial<T>(): Channel<T> {
    Channel([], false, None, false, [], [])
  }

  function Closing<T>(c: Channel<T>): Delivery<T> {
    match c.err
    case Some(e) => Failure(e)
    case None => End
  }

  function OnPush<T>(c: Channel<T>, v: T): Channel<T> {
    if c.done then c
    else if c.waiting then c.(waiting := false, pushed := c.pushed + [v], delivered := c.delivered + [Value(v)])
    else c.(queue := c.queue + [v], pushed := c.pushed + [v])
  }

  /** `close` and `error`: a waiter settles at once, as a rejection when `err` was just set. */
  function OnClose<T>(c: Channel<T>, err: Option<string>): Channel<T> {
    if c.done then c else
      var closed := c.(done := true, err := err);
      if c.waiting then closed.(waiting := false, delivered := c.delivered + [Closing(closed)]) else closed
  }

  function OnPull<T>(c: Channel<T>): Channel<T> {
    if c.queue != [] then c.(queue := c.queue[1..], delivered := c.delivered + [Value(c.queue[0])])
    else if c.err.Some? then c.(delivered := c.delivered + [Failure(c.err.value)])
    else if c.done then c.(delivered := c.delivered + [End])
    else c.(waiting := true)
  }

  function Next<T>(c: Channel<T>, e: Event<T>): Channel<T> {
    match e
    case Push(v) => OnPush(c, v)
    case Close => OnClose(c, None)
    case Error(error) => OnClose(c, Some(error))
    case Pull => OnPull(c)
  }

  /** A consumer awaits each `next` before it calls the next one. */
  predicate Enabled<T>(c: Channel<T>, e: Event<T>) {
    e.Pull? ==> !c.waiting
  }

  predicate Legal<T>(c: Channel<T>, es: seq<Event<T>>)
    decreases |es|
  {
    es == [] || (Enabled(c, es[0]) && Legal(Next(c, es[0]), es[1..]))
  }

  function Run<T>(c: Channel<T>, es: seq<Event<T>>): Channel<T>
    decreases |es|
  {
    if es == [] then c else Run(Next(c, es[0]), es[1..])
  }

  function Values<T>(ds: seq<Delivery<T>>): seq<T> {
    if ds == [] then []
    else Values(ds[..|ds| - 1]) + if ds[|ds| - 1].Value? then [ds[|ds| - 1].value] else []
  }

  /** Nothing but the closing result is delivered from index `i` on, and every value was before. */
  ghost predicate EndsAt<T>(c: Channel<T>, i: nat)
    requires i < |c.delivered|
  {
    && c.done
    && c.queue == []
    && Values(c.delivered[..i]) == c.pushed
    && forall j :: i <= j < |c.delivered| ==> c.delivered[j] == Closing(c)
  }

  ghost predicate Inv<T>(c: Channel<T>) {
    && Values(c.delivered) + c.queue == c.pushed
    && (c.waiting ==> c.queue == [] && !c.done)
    && (!c.done ==> c.err.None?)
    && forall i :: 0 <= i < |c.delivered| && !c.delivered[i].Value? ==> EndsAt(c, i)
  }

  lemma ValuesSnoc<T>(ds: seq<Delivery<T>>, d: Delivery<T>)
    ensures Values(ds + [d]) == Values(ds) + if d.Value? then [d.value] else []
  {
    assert (ds + [d])[..|ds|] == ds;
  }

  /** Settling one more `next`. */
  lemma DeliverKeepsInv<T>(c: Channel<T>, c': Channel<T>, d: Delivery<T>)
    requires Inv(c) && c'.delivered == c.delivered + [d] && !c'.waiting
    requires d.Value? ==> !c.done || c.queue != []
    requires Values(c.delivered) + (if d.Value? then [d.value] else []) + c'.queue == c'.pushed
    requires !d.Value? ==> c'.done && c'.queue == [] && d == Closing(c') && c'.pushed == c.pushed
    requires (c.done ==> c'.done && c'.err == c.err) && (!c'.done ==> c'.err.None?)
    ensures Inv(c')
  {
    ValuesSnoc(c.delivered, d);
    forall i | 0 <= i < |c'.delivered| && !c'.delivered[i].Value?
      ensures EndsAt(c', i)
    {
      if i < |c.delivered| {
        assert EndsAt(c, i);
        assert c'.delivered[..i] == c.delivered[..i];
      } else {
        assert c'.delivered[..i] == c.delivered;
      }
    }
  }

  lemma StepKeepsInv<T>(c: Channel<T>, e: Event<T>)
    requires Inv(c) && Enabled(c, e)
    ensures Inv(Next(c, e))
  {
    var next := Next(c, e);
    if |next.delivered| > |c.delivered| {
      DeliverKeepsInv(c, next, next.delivered[|c.delivered|]);
    } else {
      forall i | 0 <= i < |next.delivered| && !next.delivered[i].Value?
        ensures EndsAt(next, i)
      {
        assert EndsAt(c, i);
      }
    }
  }

  lemma {:induction false} RunKeepsInv<T>(c: Channel<T>, es: seq<Event<T>>)
    requires Inv(c) && Legal(c, es)
    ensures Inv(Run(c, es))
    decreases |es|
  {
    if es != [] {
      StepKeepsInv(c, es[0]);
      RunKeepsInv(Next(c, es[0]), es[1..]);
    }
  }

  /** The values pushed before the channel closed. */
  function AcceptedValues<T>(es: seq<Event<T>>): seq<T> {
    if es == [] || es[0].Close? || es[0].Error? then []
    else (if es[0].Push? then [es[0].value] else []) + AcceptedValues(es[1..])
  }

  lemma {:induction false} PushedAreAccepted<T>(c: Channel<T>, es: seq<Event<T>>)
    ensures Run(c, es).pushed == c.pushed + if c.done then [] else AcceptedValues(es)
    decreases |es|
  {
    if es != [] {
      PushedAreAccepted(Next(c, es[0]), es[1..]);
    }
  }

  /** What the first closing call of a run makes of the end. */
  function FirstClosing<T>(es: seq<Event<T>>): Option<Delivery<T>> {
    if es == [] then None
    else
      match es[0]
      case Close => Some(End)
      case Error(error) => Some(Failure(error))
      case _ => FirstClosing(es[1..])
  }

  lemma {:induction false} ClosingIsFirst<T>(c: Channel<T>, es: seq<Event<T>>)
    requires !c.done ==> c.err.None?
    ensures
      var t := Run(c, es);
      && (c.done ==> t.done && t.err == c.err)
      && (!c.done ==> (t.done <==> FirstClosing(es).Some?) && (t.done ==> FirstClosing(es) == Some(Closing(t))))
    decreases |es|
  {
    if es != [] { ClosingIsFirst(Next(c, es[0]), es[1..]); }
  }

  function PullsIn<T>(es: seq<Event<T>>): nat {
    if es == [] then 0 else (if es[0].Pull? then 1 else 0) + PullsIn(es[1..])
  }

  /** Every `next` call is settled, except the one that is waiting. */
  lemma {:induction false} PullsAreSettled<T>(c: Channel<T>, es: seq<Event<T>>)
    requires Legal(c, es)
    ensures
      var t := Run(c, es);
      |t.delivered| + (if t.waiting then 1 else 0) == |c.delivered| + (if c.waiting then 1 else 0) + PullsIn(es)
    decreases |es|
  {
    if es != [] { PullsAreSettled(Next(c, es[0]), es[1..]); }
  }

  /** Every run delivers the accepted values in order, holds the rest, waits only when it is open
      and empty, and reports the end (or the error) only after the last value and forever after. */
  lemma ChannelDeliversInOrder<T>(es: seq<Event<T>>)
    requires Legal(Initial<T>(), es)
    ensures
      var c := Run(Initial<T>(), es);
      && Values(c.delivered) + c.queue == AcceptedValues(es)
      && (c.waiting ==> c.queue == [] && !c.done)
      && (c.waiting || |c.delivered| == PullsIn(es))
      && forall i :: 0 <= i < |c.delivered| && !c.delivered[i].Value? ==>
           EndsAt(c, i) && FirstClosing(es) == Some(c.delivered[i])
  {
    RunKeepsInv(Initial<T>(), es);
    ClosingIsFirst(Initial<T>(), es);
    PullsAreSettled(Initial<T>(), es);
    var c := Run(Initial<T>(), es);
    forall i | 0 <= i < |c.delivered| && !c.delivered[i].Value?
      ensures FirstClosing(es) == Some(c.delivered[i])
    {
      assert EndsAt(c, i);
    }
    PushedAreAccepted(Initial<T>(), es);
    assert [] + AcceptedValues(es) == AcceptedValues(es);
  }

  // ----- The channel object -----

  class AsyncChannel<T> {
    var queue: seq<T>
    var done: bool
    var err: Option<string>
    var waiting: bool
    ghost var pushed: seq<T>
    ghost var delivered: seq<Delivery<T>>

    ghost function View(): Channel<T>
      reads this
    {
      Channel(queue, done, err, waiting, pushed, delivered)
    }

    constructor ()
      ensures View() == Initial()
    {
      queue, done, err, waiting := [], false, None, false;
      pushed, delivered := [], [];
    }

    /** `settled` is what a pending `next` resolves or rejects with, if there is one. */
    method PushValue(v: T) returns (settled: Option<Delivery<T>>)
      modifies this
      ensures View() == OnPush(old(View()), v)
      ensures delivered == old(delivered) + if settled.Some? then [settled.value] else []
    {
      settled := None;
      if done {
        return;
      }
      pushed := pushed + [v];
      if waiting {
        waiting := false;
        settled := Some(Value(v));
        delivered := delivered + [Value(v)];
      } else {
        queue := queue + [v];
      }
    }

    method CloseWith(error: Option<string>) returns (settled: Option<Delivery<T>>)
      modifies this
      ensures View() == OnClose(old(View()), error)
      ensures delivered == old(delivered) + if settled.Some? then [settled.value] else []
    {
      settled := None;
      if done {
        return;
      }
      done := true;
      err := error;
      if waiting {
        waiting := false;
        settled := Some(if err.Some? then Failure(err.value) else End);
        delivered := delivered + [settled.value];
      }
    }

    method PullNext() returns (settled: Option<Delivery<T>>)
      modifies this
      ensures View() == OnPull(old(View()))
      ensures delivered == old(delivered) + if settled.Some? then [settled.value] else []
    {
      if |queue| > 0 {
        settled := Some(Value(queue[0]));
        queue := queue[1..];
      } else if err.Some? {
        settled := Some(Failure(err.value));
      } else if done {
        settled := Some(End);
      } else {
        waiting := true;
        return None;
      }
      delivered := delivered + [settled.value];
    }
  }
}
