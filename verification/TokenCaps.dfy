/**
 * Cumulative token caps of an episode (environment.py, get_model_response): a call is refused or its
 * completion limit lowered so that no cap is ever exceeded.
 */
module TokenCaps {
  import opened Base

  const MIN_COMPLETION_TOKENS := 256

  /** The caps set for a model; a model without caps is not checked at all. */
  datatype Caps = Caps(input: Option<int>, output: Option<int>, total: Option<int>) | Uncapped

  datatype Usage = Usage(input: int, output: int)

  /** One model call: the estimate for its prompt, the caller's own limit, and how the provider behaves. */
  datatype Call = Call(estimate: int, limit: Option<int>, prompt: int, completion: int, seedRejected: bool,
                       retryFails: bool)

  // ---------------------------------------------------------------- room for a completion

  function Least(xs: seq<int>): (m: int)
    requires xs != []
    ensures m in xs && forall x :: x in xs ==> m <= x
  {
    if |xs| == 1 then xs[0]
    else
      var m := Least(xs[1..]);
      assert xs == [xs[0]] + xs[1..];
      if xs[0] < m then xs[0] else m
  }

  /** The limits a completion has to stay below: the caller's own, the output cap's, the combined cap's. */
  function Room(caps: Caps, u: Usage, c: Call): seq<int>
    requires caps.Caps?
  {
    (if c.limit.Some? && c.limit.value != 0 then [c.limit.value] else [])
    + (if caps.output.Some? then [caps.output.value - u.output] else [])
    + (if caps.total.Some? then [caps.total.value - u.input - u.output - c.estimate] else [])
  }

  predicate Refused(caps: Caps, u: Usage, c: Call) {
    && caps.Caps?
    && (|| (caps.input.Some? && u.input + c.estimate > caps.input.value)
        || (Room(caps, u, c) != [] && Least(Room(caps, u, c)) < MIN_COMPLETION_TOKENS))
  }

  /** Fewer than 256 tokens are left under a cap, or the input cap would be passed. */
  predicate CapsShort(caps: Caps, u: Usage, estimate: int)
    requires caps.Caps?
  {
    || (caps.input.Some? && u.input + estimate > caps.input.value)
    || (caps.output.Some? && caps.output.value - u.output < 256)
    || (caps.total.Some? && caps.total.value - u.input - u.output - estimate < 256)
  }

  /**
   * When a call is refused: the model has caps, and they leave too little, or the caller's own limit is
   * below 256 however much they leave.
   */
  lemma RefusedExactly(caps: Caps, u: Usage, c: Call)
    ensures Refused(caps, u, c) <==>
              caps.Caps? && (CapsShort(caps, u, c.estimate)
                             || (c.limit.Some? && c.limit.value != 0 && c.limit.value < 256))
  {
    if caps.Caps? {
      var room := Room(caps, u, c);
      if caps.output.Some? { assert caps.output.value - u.output in room; }
      if caps.total.Some? { assert caps.total.value - u.input - u.output - c.estimate in room; }
      if c.limit.Some? && c.limit.value != 0 { assert c.limit.value in room; }
    }
  }

  const PLENTY := Caps(None, None, Some(1000000))
  const SHORT_ANSWER := Call(1000, Some(100), 900, 80, false, false)

  /** A first call asking for at most 100 tokens is refused under a cap of a million; without that limit it is not. */
  lemma SmallLimitRefused()
    ensures !CapsShort(PLENTY, Usage(0, 0), SHORT_ANSWER.estimate)
    ensures Refused(PLENTY, Usage(0, 0), SHORT_ANSWER)
    ensures !Refused(PLENTY, Usage(0, 0), SHORT_ANSWER.(limit := None))
    ensures !Refused(Uncapped, Usage(0, 0), SHORT_ANSWER)
  {
    RefusedExactly(PLENTY, Usage(0, 0), SHORT_ANSWER);
    RefusedExactly(PLENTY, Usage(0, 0), SHORT_ANSWER.(limit := None));
  }

  /** The limit sent with the request. */
  function Granted(caps: Caps, u: Usage, c: Call): Option<int> {
    if caps.Caps? && Room(caps, u, c) != [] then Some(Least(Room(caps, u, c))) else c.limit
  }

  /** One of the numbers a completion has to stay within: the caller's limit, or what is left under a cap. */
  predicate Remains(caps: Caps, u: Usage, c: Call, x: int) {
    || (c.limit == Some(x) && x != 0)
    || (caps.Caps? && caps.output.Some? && x == caps.output.value - u.output)
    || (caps.Caps? && caps.total.Some? && x == caps.total.value - (u.input + u.output + c.estimate))
  }

  /**
   * The limit sent with a call that is not refused is the least of what remains, so it is one of those
   * numbers and no larger than any; it is at least 256 under caps; and without caps, or when nothing
   * limits the call, the caller's own argument is sent as it is.
   */
  lemma GrantedExactly(caps: Caps, u: Usage, c: Call)
    requires !Refused(caps, u, c)
    ensures caps.Caps? && (exists x :: Remains(caps, u, c, x)) ==>
              var g := Granted(caps, u, c);
              g.Some? && g.value >= 256 && Remains(caps, u, c, g.value)
              && forall x :: Remains(caps, u, c, x) ==> g.value <= x
    ensures caps.Uncapped? || (forall x :: !Remains(caps, u, c, x)) ==> Granted(caps, u, c) == c.limit
  {
    if caps.Caps? {
      var room := Room(caps, u, c);
      forall x ensures Remains(caps, u, c, x) <==> x in room {
        if c.limit == Some(x) && x != 0 { assert room[0] == x; }
        if caps.output.Some? { assert caps.output.value - u.output in room; }
        if caps.total.Some? { assert caps.total.value - u.input - u.output - c.estimate in room; }
      }
      if room != [] { assert room[0] in room; }
    }
  }

  /** The provider keeps to what it was told: the prompt within the estimate, the completion within the limit. */
  predicate Behaves(caps: Caps, u: Usage, c: Call) {
    && 0 <= c.prompt <= c.estimate && 0 <= c.completion
    && (Granted(caps, u, c).Some? && Granted(caps, u, c).value != 0 ==> c.completion <= Granted(caps, u, c).value)
  }

  /** A call that never returns a response adds nothing. */
  function AfterCall(caps: Caps, u: Usage, c: Call): Usage {
    if Refused(caps, u, c) || (c.seedRejected && c.retryFails) then u
    else Usage(u.input + c.prompt, u.output + c.completion)
  }

  class TokenMeter {
    const caps: Caps
    var usage: Usage
    var seedSent: bool
    var exhausted: bool

    constructor (caps: Caps)
      ensures this.caps == caps && usage == Usage(0, 0) && seedSent && !exhausted
    {
      this.caps, usage, seedSent, exhausted := caps, Usage(0, 0), true, false;
    }

    /** The sampling arguments are edited in place; a retry without the seed reuses the same limit. */
    method GetModelResponse(c: Call) returns (answered: bool, sent: Option<int>)
      modifies this
      ensures usage == AfterCall(caps, old(usage), c)
      ensures answered ==> usage == Usage(old(usage).input + c.prompt, old(usage).output + c.completion)
      ensures !answered ==> usage == old(usage)
      ensures answered <==> !Refused(caps, old(usage), c) && (c.seedRejected ==> !c.retryFails)
      ensures exhausted <==> old(exhausted) || Refused(caps, old(usage), c)
      ensures answered <==> !Refused(caps, old(usage), c) && !(c.seedRejected && c.retryFails)
      ensures !Refused(caps, old(usage), c) ==> sent == Granted(caps, old(usage), c)
      ensures seedSent <==> old(seedSent) && (Refused(caps, old(usage), c) || !c.seedRejected)
    {
      sent := c.limit;
      if caps.Caps? {
        var room: seq<int> := if c.limit.Some? && c.limit.value != 0 then [c.limit.value] else [];
        if caps.input.Some? {
          if usage.input + c.estimate > caps.input.value {
            exhausted := true;
            return false, None;
          }
        }
        if caps.output.Some? { room := room + [caps.output.value - usage.output]; }
        if caps.total.Some? { room := room + [caps.total.value - usage.input - usage.output - c.estimate]; }
        assert room == Room(caps, usage, c);
        if room != [] && Least(room) < MIN_COMPLETION_TOKENS {
          exhausted := true;
          return false, None;
        }
        if room != [] { sent := Some(Least(room)); }
      }
      if c.seedRejected {
        seedSent := false;
        if c.retryFails { return false, sent; }
      }
      usage := Usage(usage.input + c.prompt, usage.output + c.completion);
      return true, sent;
    }
  }

  // ---------------------------------------------------------------- any number of calls

  function AfterCalls(caps: Caps, calls: seq<Call>): Usage {
    if calls == [] then Usage(0, 0) else AfterCall(caps, AfterCalls(caps, calls[..|calls| - 1]), calls[|calls| - 1])
  }

  predicate AllBehave(caps: Caps, calls: seq<Call>) {
    calls == [] || (AllBehave(caps, calls[..|calls| - 1])
                    && Behaves(caps, AfterCalls(caps, calls[..|calls| - 1]), calls[|calls| - 1]))
  }

  /** Within a cap, or nothing used at all (a cap may be smaller than one call). */
  predicate Within(used: int, cap: Option<int>) {
    used >= 0 && (cap.Some? ==> used == 0 || used <= cap.value)
  }

  lemma OneCallWithin(caps: Caps, u: Usage, c: Call)
    requires caps.Caps? && u.input >= 0 && u.output >= 0 && !Refused(caps, u, c) && Behaves(caps, u, c)
    ensures caps.input.Some? ==> u.input + c.prompt <= caps.input.value
    ensures caps.output.Some? ==> u.output + c.completion <= caps.output.value
    ensures caps.total.Some? ==> u.input + c.prompt + u.output + c.completion <= caps.total.value
  {
    var room := Room(caps, u, c);
    if caps.output.Some? { assert caps.output.value - u.output in room; }
    if caps.total.Some? { assert caps.total.value - u.input - u.output - c.estimate in room; }
  }

  /** Cumulative usage stays within the input cap, the output cap and the combined cap. */
  lemma {:induction false} CapsHold(caps: Caps, calls: seq<Call>)
    requires caps.Caps? && AllBehave(caps, calls)
    ensures var u := AfterCalls(caps, calls);
            Within(u.input, caps.input) && Within(u.output, caps.output) && Within(u.input + u.output, caps.total)
  {
    if calls != [] {
      var n := |calls| - 1;
      CapsHold(caps, calls[..n]);
      var u := AfterCalls(caps, calls[..n]);
      if !Refused(caps, u, calls[n]) { OneCallWithin(caps, u, calls[n]); }
    }
  }
}
