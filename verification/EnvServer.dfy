/**
 * Requests and replies between harness and grader process (envserver.py against env.py's serve): a
 * call that returns yields the reply to that very request, however late earlier replies come in.
 */
module EnvServer {
  import opened Base

  type Request = string
  type Body = string

  /** A line of the server's output: text that is no JSON, or a message with or without a number for its id. */
  datatype Line = NoJson | Message(id: Option<int>, body: Body)

  datatype Pending = Pending(id: int, request: Request)

  /** What may happen while a call waits. */
  datatype Event = Answers | Prints(noise: Line) | Reads | TimesOut

  datatype CallError = NotRunning | Exited | TimedOut

  /** The server's answer to a request, as sent under an id. */
  type Answer = (int, Request) -> Body

  /** Both ends of the pipe. `requests` lists every request ever written, in order of id. */
  datatype Pipe = Pipe(requests: seq<Request>, pending: seq<Pending>, unread: seq<Line>)

  /** Noise never carries a request's id. */
  predicate HarmlessNoise(l: Line) {
    l.Message? && l.id.Some? ==> l.id.value <= 0
  }

  /** What waits to be answered: the latest requests, oldest first. */
  ghost predicate PendingInOrder(p: Pipe) {
    && |p.pending| <= |p.requests|
    && forall i :: 0 <= i < |p.pending| ==>
         var k := |p.requests| - |p.pending| + i;
         p.pending[i] == Pending(k + 1, p.requests[k])
  }

  /** The answers given so far: one for each request but the pending ones, in order, under its id. */
  ghost predicate AnsweredInOrder(answer: Answer, p: Pipe, answered: seq<Line>) {
    && |answered| + |p.pending| == |p.requests|
    && forall k :: 0 <= k < |answered| ==> answered[k] == Message(Some(k + 1), answer(k + 1, p.requests[k]))
  }

  /** A line with a request's id is the answer to that request. */
  ghost predicate SoundLine(answer: Answer, p: Pipe, l: Line) {
    l.Message? && l.id.Some? && l.id.value > 0 ==>
      l.id.value <= |p.requests| && l.body == answer(l.id.value, p.requests[l.id.value - 1])
  }

  ghost predicate Sound(answer: Answer, p: Pipe) {
    && PendingInOrder(p)
    && forall i :: 0 <= i < |p.unread| ==> SoundLine(answer, p, p.unread[i])
  }

  class EnvServer {
    const answer: Answer
    var next: nat
    var running: bool
    var pipe: Pipe
    ghost var answered: seq<Line>

    ghost predicate Valid()
      reads this
    {
      next == |pipe.requests| && Sound(answer, pipe) && AnsweredInOrder(answer, pipe, answered)
    }

    constructor (answer: Answer)
      ensures Valid() && this.answer == answer && running && pipe == Pipe([], [], []) && answered == []
    {
      this.answer := answer;
      next, running, pipe, answered := 0, true, Pipe([], [], []), [];
    }

    /** serve: the oldest unanswered request is answered, once, under its id. */
    method ServerAnswers()
      requires Valid()
      modifies this
      ensures Valid() && pipe.requests == old(pipe.requests) && next == old(next) && running == old(running)
      ensures old(pipe.pending) == [] ==> pipe == old(pipe) && answered == old(answered)
      ensures old(pipe.pending) != [] ==>
                var k := |old(answered)|;
                var reply := Message(Some(k + 1), answer(k + 1, pipe.requests[k]));
                && pipe.pending == old(pipe.pending[1..])
                && pipe.unread == old(pipe.unread) + [reply]
                && answered == old(answered) + [reply]
    {
      if pipe.pending != [] {
        var x := pipe.pending[0];
        var reply := Message(Some(x.id), answer(x.id, x.request));
        pipe := pipe.(pending := pipe.pending[1..], unread := pipe.unread + [reply]);
        answered := answered + [reply];
      }
    }

    method ServerPrints(l: Line)
      requires Valid() && HarmlessNoise(l)
      modifies this
      ensures Valid() && next == old(next) && running == old(running) && answered == old(answered)
      ensures pipe == old(pipe).(unread := old(pipe.unread) + [l])
    {
      pipe := pipe.(unread := pipe.unread + [l]);
    }

    /** Next line of output; None when the server has gone. */
    method ReadLine() returns (l: Option<Line>)
      requires Valid()
      modifies this
      ensures Valid() && next == old(next) && running == old(running) && answered == old(answered)
      ensures if old(pipe.unread) == [] then l == None && pipe == old(pipe)
              else l == Some(old(pipe.unread[0])) && pipe == old(pipe).(unread := old(pipe.unread[1..]))
      ensures l.Some? ==> SoundLine(answer, pipe, l.value)
    {
      if pipe.unread == [] { return None; }
      l := Some(pipe.unread[0]);
      pipe := pipe.(unread := pipe.unread[1..]);
    }

    /**
     * Writes the request under a fresh id and reads lines until one carries that id. The schedule says
     * what the server does in between and when the wait times out; what a timed-out call leaves unread
     * stays in the pipe for later calls to skip.
     */
    method Call(req: Request, schedule: seq<Event>) returns (r: Result<Body, CallError>)
      requires Valid() && forall i :: 0 <= i < |schedule| && schedule[i].Prints? ==> HarmlessNoise(schedule[i].noise)
      modifies this
      ensures Valid() && running == old(running)
      ensures next == old(next) + if old(running) then 1 else 0
      ensures pipe.requests == old(pipe.requests) + if old(running) then [req] else []
      ensures r.Ok? ==> old(running) && r.value == answer(old(next) + 1, req)
    {
      if !running { return Err(NotRunning); }
      next := next + 1;
      var rid := next;
      pipe := Pipe(pipe.requests + [req], pipe.pending + [Pending(rid, req)], pipe.unread);
      for i := 0 to |schedule|
        invariant Valid() && running && rid == next == old(next) + 1
        invariant pipe.requests == old(pipe.requests) + [req]
      {
        match schedule[i]
        case Answers => ServerAnswers();
        case Prints(noise) => ServerPrints(noise);
        case TimesOut => return Err(TimedOut);
        case Reads =>
          var l := ReadLine();
          if l.None? { return Err(Exited); }
          if l.value.Message? && l.value.id == Some(rid) { return Ok(l.value.body); }
      }
      return Err(TimedOut);
    }
  }
}
