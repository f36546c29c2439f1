/**
  * The Win32 back end of the dispatcher: a queue under a mutex and a manual-reset event, in
  * the place of the pipe.
  */
module DispatcherWin32 {
  import opened Wrappers
  import opened DispatcherProtocol

  /** notify_queue_ and the event object fd_receiver_, between two sections locked by mutex_. */
  datatype BackEnd = BackEnd(queue: seq<Message>, signalled: bool) {
    /** The event is signalled exactly when a notification is queued. */
    predicate Valid() {
      signalled <==> queue != []
    }

    /** The locked section of send_notification(). */
    function Send(data: Message): BackEnd {
      BackEnd(queue + [data], queue == [] || signalled)
    }

    /** The locked section of pipe_io_handler(), which may also be called for nothing. */
    function Take(): (Option<Message>, BackEnd) {
      if queue == [] then (None, BackEnd([], false))
      else (Some(queue[0]), BackEnd(queue[1..], |queue| > 1 && signalled))
    }
  }

  const NEW_BACK_END := BackEnd([], false)

  class NotifyQueue {
    var queue: seq<Message>
    var signalled: bool

    ghost function View(): BackEnd
      reads this
    {
      BackEnd(queue, signalled)
    }

    ghost predicate Valid()
      reads this
    {
      View().Valid()
    }

    constructor ()
      ensures Valid() && queue == []
    {
      queue, signalled := [], false;
    }

    /** The locked section of send_notification(). */
    method SendNotification(data: Message)
      requires Valid()
      modifies this
      ensures Valid() && queue == Put(old(queue), data) && View() == old(View()).Send(data)
    {
      var wasEmpty := queue == [];
      queue := queue + [data];
      if wasEmpty {
        signalled := true;
      }
    }

    /** The locked section of pipe_io_handler(), which may also be called for nothing. */
    method TakeNotification() returns (data: Option<Message>)
      requires Valid()
      modifies this
      ensures Valid() && (data, queue) == Get(old(queue)) && (data, View()) == old(View()).Take()
    {
      if queue == [] {
        signalled := false;
        return None;
      }
      data := Some(queue[0]);
      queue := queue[1..];
      if queue == [] {
        signalled := false;
      }
    }

    /** One turn of the main loop: the handler is called when the event is signalled. */
    method Poll() returns (data: Option<Message>)
      requires Valid()
      modifies this
      ensures Valid() && (data, queue) == Get(old(queue))
      ensures data.Some? <==> old(queue) != []
    {
      data := None;
      if signalled {
        data := TakeNotification();
      }
    }

    /** Any sequence of sends and turns of the main loop delivers what the pipe would have delivered. */
    method Perform(ops: seq<Operation>) returns (delivered: seq<Message>)
      requires Valid()
      modifies this
      ensures Valid() && (delivered, queue) == Fifo(old(queue), ops)
    {
      delivered := [];
      ghost var start := queue;
      for i := 0 to |ops|
        invariant Valid() && (delivered, queue) == Fifo(start, ops[..i])
      {
        FifoSnoc(start, ops[..i], ops[i]);
        assert ops[..i + 1] == ops[..i] + [ops[i]];
        match ops[i]
        case Sent(m) => SendNotification(m);
        case Polled =>
          var data := Poll();
          delivered := delivered + (if data.Some? then [data.value] else []);
      }
      assert ops[..|ops|] == ops;
    }
  }

  // ---- The pipe --------------------------------------------------------------------------

  function Put(pipe: seq<Message>, m: Message): seq<Message> {
    pipe + [m]
  }

  function Get(pipe: seq<Message>): (Option<Message>, seq<Message>) {
    if pipe == [] then (None, pipe) else (Some(pipe[0]), pipe[1..])
  }

  datatype Operation = Sent(msg: Message) | Polled

  /** What a pipe delivers, and what stays in it. */
  function Fifo(pipe: seq<Message>, ops: seq<Operation>): (seq<Message>, seq<Message>)
    decreases ops
  {
    if ops == [] then ([], pipe)
    else match ops[0]
      case Sent(m) => Fifo(Put(pipe, m), ops[1..])
      case Polled =>
        var (data, rest) := Get(pipe);
        var (delivered, last) := Fifo(rest, ops[1..]);
        ((if data.Some? then [data.value] else []) + delivered, last)
  }

  lemma {:induction false} FifoSnoc(pipe: seq<Message>, ops: seq<Operation>, op: Operation)
    ensures var (delivered, last) := Fifo(pipe, ops);
            Fifo(pipe, ops + [op]) == match op
                                      case Sent(m) => (delivered, Put(last, m))
                                      case Polled => (delivered + (if last != [] then [last[0]] else []), Get(last).1)
    decreases ops
  {
    if ops == [] {
      assert [op][1..] == [] && [] + [op] == [op];
      if pipe != [] {
        assert [pipe[0]] + [] == [] + [pipe[0]];
      }
    } else {
      assert (ops + [op])[1..] == ops[1..] + [op];
      match ops[0]
      case Sent(m) =>
        FifoSnoc(Put(pipe, m), ops[1..], op);
      case Polled =>
        var rest := Get(pipe).1;
        FifoSnoc(rest, ops[1..], op);
        var first := if pipe != [] then [pipe[0]] else [];
        var (delivered, last) := Fifo(rest, ops[1..]);
        var more := if last != [] then [last[0]] else [];
        assert first + (delivered + more) == first + delivered + more;
    }
  }

  function SentIn(ops: seq<Operation>): seq<Message> {
    if ops == [] then [] else (if ops[0].Sent? then [ops[0].msg] else []) + SentIn(ops[1..])
  }

  /** No notification is lost, doubled or overtaken. */
  lemma {:induction false} FifoConserves(pipe: seq<Message>, ops: seq<Operation>)
    ensures Fifo(pipe, ops).0 + Fifo(pipe, ops).1 == pipe + SentIn(ops)
    decreases ops
  {
    if ops != [] {
      match ops[0]
      case Sent(m) =>
        FifoConserves(Put(pipe, m), ops[1..]);
        assert pipe + [m] + SentIn(ops[1..]) == pipe + SentIn(ops);
      case Polled =>
        var rest := Get(pipe).1;
        FifoConserves(rest, ops[1..]);
        var first := if pipe != [] then [pipe[0]] else [];
        var (delivered, last) := Fifo(rest, ops[1..]);
        assert first + rest == pipe;
        assert first + delivered + last == first + (rest + SentIn(ops[1..])) == pipe + SentIn(ops);
    }
  }

  /** The handler is woken once for every message that is queued: that many polls empty the queue. */
  lemma {:induction false} PollsEmpty(pipe: seq<Message>)
    ensures Fifo(pipe, seq(|pipe|, _ => Polled)) == (pipe, [])
    decreases pipe
  {
    var polls := seq(|pipe|, _ => Polled);
    if pipe != [] {
      assert polls[1..] == seq(|pipe[1..]|, _ => Polled);
      PollsEmpty(pipe[1..]);
      assert [pipe[0]] + pipe[1..] == pipe;
    }
  }

  // ---- The protocol on this back end -----------------------------------------------------

  /** The world with the back end in the place of the pipe, which is not used. */
  datatype World32 = World32(rest: World, backEnd: BackEnd)

  const START_32 := World32(START, NEW_BACK_END)

  /** As on Unix, but that the handler is called when the event is signalled. */
  predicate Enabled32(v: World32, e: Event) {
    if e.ReadPipe?
    then !v.rest.dangling && !v.rest.misled && InLoop(v.rest) && v.rest.instance.Some? && v.backEnd.signalled
    else Enabled(v.rest, e)
  }

  function Apply32(v: World32, e: Event): World32
    requires Enabled32(v, e)
  {
    var w, b := v.rest, v.backEnd;
    match e
    case Send(d) => World32(w.(sent := w.sent + [d]), b.Send(Message(d, w.owner[d], |w.sent|)))
    case ReadPipe =>
      var (data, left) := b.Take();
      World32(if data.Some? then w.(doing := Emit(w.instance.value, data.value)) else w, left)
    case PollAfterEmission =>
      World32(w.(doing := if b.queue == [] then ClearOrphans(w.doing.notifier) else Idle), b)
    case PollInDestructor =>
      var d := w.doing.impl;
      if b.queue == [] then World32(w.(doing := DeleteImpl(d)), b)
      else World32(w.(connected := w.connected - {d}, destructors := w.destructors + [Clearing(d)], doing := Idle), b)
    case Create(_) => World32(Apply(w, e), if w.instance.None? then NEW_BACK_END else b)
    case Unreference => World32(Apply(w, e), if w.refCount - 1 <= 0 then NEW_BACK_END else b)
    case _ => World32(Apply(w, e), b)
  }

  predicate CanRun32(v: World32, es: seq<Event>)
    decreases es
  {
    es == [] || (Enabled32(v, es[0]) && CanRun32(Apply32(v, es[0]), es[1..]))
  }

  function After32(v: World32, es: seq<Event>): World32
    requires CanRun32(v, es)
    decreases es
  {
    if es == [] then v else After32(Apply32(v, es[0]), es[1..])
  }

  /** The world that it stands for: the queue is what the pipe holds. */
  function OnPipe(v: World32): World {
    v.rest.(pipe := v.backEnd.queue)
  }

  ghost predicate Sound(v: World32) {
    v.backEnd.Valid() && v.rest.pipe == []
  }

  lemma {:induction false} StepLikePipe(v: World32, e: Event)
    requires Sound(v)
    ensures Enabled32(v, e) <==> Enabled(OnPipe(v), e)
    ensures Enabled32(v, e) ==> Sound(Apply32(v, e)) && OnPipe(Apply32(v, e)) == Apply(OnPipe(v), e)
  {
  }

  lemma {:induction false} RunLikePipe(v: World32, es: seq<Event>)
    requires Sound(v)
    ensures CanRun32(v, es) <==> CanRun(OnPipe(v), es)
    ensures CanRun32(v, es) ==> Sound(After32(v, es)) && OnPipe(After32(v, es)) == After(OnPipe(v), es)
    decreases es
  {
    if es != [] {
      StepLikePipe(v, es[0]);
      if Enabled32(v, es[0]) {
        RunLikePipe(Apply32(v, es[0]), es[1..]);
      }
    }
  }

  /**
    * The same runs are possible with the queue as with the pipe, and get to the same states, so
    * that all promises of the protocol hold; and the event is signalled exactly while messages wait.
    */
  lemma {:induction false} RunsLikeProtocol(es: seq<Event>)
    ensures CanRun32(START_32, es) <==> CanRun(START, es)
    ensures CanRun32(START_32, es) ==>
              && OnPipe(After32(START_32, es)) == After(START, es)
              && (After32(START_32, es).backEnd.signalled <==> After(START, es).pipe != [])
  {
    RunLikePipe(START_32, es);
  }
}
