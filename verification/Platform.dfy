/**
  The environment: a clock that only moves forward, and the modem UART.

  Everything the environment decides is a script held in a field, so a statement about all
  scripts is a statement about every behaviour of the environment.
 */
module Platform {
  import opened ByteText

  // Only the distinctness of the error numbers matters.
  const EIO: int := 5
  const EBUSY: int := 16
  const ENODEV: int := 19
  const EINVAL: int := 22
  const ENOSPC: int := 28
  const ENOSYS: int := 88
  const EHOSTDOWN: int := 112
  const ETIMEDOUT: int := 116

  /** A clock reading and the lags still to come: the time that passes unnoticed before each of
      the next readings or sleeps is over. */
  datatype Time = Time(now: int, lag: seq<nat>)

  /** After a reading (0 ms) or a sleep: what was asked for and the next lag have passed. */
  function Tick(t: Time, ms: nat): (r: Time)
    ensures t.now + ms <= r.now
  {
    if t.lag == [] then Time(t.now + ms, []) else Time(t.now + ms + t.lag[0], t.lag[1..])
  }

  function Total(lag: seq<nat>): nat {
    if lag == [] then 0 else lag[0] + Total(lag[1..])
  }

  /** When the clock would stand if all the lag still to come passed at once. */
  function Horizon(t: Time): int {
    t.now + Total(t.lag)
  }

  /** Nothing but the time asked for moves the horizon. */
  lemma {:induction false} TickMovesHorizon(t: Time, ms: nat)
    ensures Horizon(Tick(t, ms)) == Horizon(t) + ms
  {}

  class Clock {
    var now: int
    var lag: seq<nat>

    function When(): Time
      reads this
    {
      Time(now, lag)
    }

    constructor (start: int, lag: seq<nat>)
      ensures When() == Time(start, lag)
    {
      this.now := start;
      this.lag := lag;
    }

    method Advance(ms: nat)
      modifies this
      ensures When() == Tick(old(When()), ms)
    {
      now := now + ms;
      if lag != [] {
        now := now + lag[0];
        lag := lag[1..];
      }
    }

    method Uptime() returns (t: int)
      modifies this
      ensures When() == Tick(old(When()), 0) && old(now) <= now == t
    {
      Advance(0);
      t := now;
    }

    method Sleep(ms: nat)
      modifies this
      ensures When() == Tick(old(When()), ms) && old(now) + ms <= now
    {
      Advance(ms);
    }
  }

  /** What uart_poll_in returns besides 0 (a byte) and -1 (nothing yet). */
  type FaultCode = code: int | code != 0 && code != -1 witness 1

  datatype Poll = Got(b: byte) | Idle | Fault(code: FaultCode)

  /** What is left of a script after `n` draws from it. */
  function Rest<T>(script: seq<T>, n: nat): seq<T> {
    script[Min(n, |script|)..]
  }

  lemma {:induction false} NextOfRest(script: seq<bool>, n: nat)
    ensures (Rest(script, n) != [] ==> Rest(script, n)[0]) <==> (n < |script| ==> script[n])
  {}

  lemma {:induction false} RestAfter<T>(script: seq<T>, n: nat)
    ensures Rest(Rest(script, n), 1) == Rest(script, n + 1)
  {}

  lemma {:induction false} RestOfNothing<T>(script: seq<T>)
    ensures Rest(script, 0) == script
  {}

  class Uart {
    var answers: seq<bool>  // successive answers of device_is_ready; true when exhausted
    var polls: seq<Poll>    // successive results of uart_poll_in; Idle when exhausted
    var sent: bytes         // everything written to the modem

    constructor (answers: seq<bool>, polls: seq<Poll>)
      ensures this.answers == answers && this.polls == polls && sent == []
    {
      this.answers := answers;
      this.polls := polls;
      sent := [];
    }

    /** The answer to the (n + 1)-th question from now. */
    ghost predicate ReadyAt(n: nat)
      reads this`answers
    {
      n < |answers| ==> answers[n]
    }

    ghost predicate ReadyNext()
      reads this`answers
    {
      ReadyAt(0)
    }

    method IsReady() returns (ready: bool)
      modifies this`answers
      ensures ready == old(ReadyNext()) && answers == Rest(old(answers), 1)
    {
      ready := true;
      if answers != [] {
        ready := answers[0];
        answers := answers[1..];
      }
    }

    method PollIn() returns (p: Poll)
      modifies this`polls
      ensures p == if old(polls) == [] then Idle else old(polls)[0]
      ensures polls == Rest(old(polls), 1)
    {
      p := Idle;
      if polls != [] {
        p := polls[0];
        polls := polls[1..];
      }
    }

    method PollOut(b: byte)
      modifies this`sent
      ensures sent == old(sent) + [b]
    {
      sent := sent + [b];
    }

    /** Writes all of the data or none of it. */
    method Write(data: Option<bytes>, length: nat) returns (ret: int)
      requires data.Some? ==> length <= |data.value|
      modifies this`answers, this`sent
      ensures ret == if data.None? && length > 0 then -EINVAL
                     else if old(ReadyNext()) then 0 else -ENODEV
      ensures answers == if data.None? && length > 0 then old(answers) else Rest(old(answers), 1)
      ensures sent == if ret == 0 && data.Some? then old(sent) + data.value[..length] else old(sent)
    {
      if data.None? && length > 0 {
        return -EINVAL;
      }
      var ready := IsReady();
      if !ready {
        return -ENODEV;
      }
      ghost var before := sent;
      for i := 0 to length
        invariant data.Some? ==> sent == before + data.value[..i]
        invariant data.None? ==> sent == before
        modifies this`sent
      {
        PollOut(data.value[i]);
      }
      return 0;
    }
  }
}
