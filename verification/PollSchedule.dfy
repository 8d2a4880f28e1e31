/** When a tunnel client sends: permits earned by data-carrying responses, and a timer that backs off. */
module PollSchedule {
  import opened Wire

  const INIT_DELAY := 500
  const MAX_DELAY := 10000
  const POLL_LIMIT := 16

  /** What happens, in order: a data-carrying response arrives, or the send loop turns once. */
  datatype Event =
    | DataResponse
    | SendPacket(length: nat)
    | SendPermitted
    | TimerExpired

  /** Permits pending, the current timer delay in milliseconds, and totals so far. */
  datatype State = State(pending: nat, delay: nat, responses: nat, refused: nat, spent: nat, displaced: nat)

  const INITIAL := State(0, INIT_DELAY, 0, 0, 0, 0)

  /** A permitted poll needs a pending permit; the other events can always happen. */
  predicate Enabled(s: State, e: Event) {
    e.SendPermitted? ==> s.pending > 0
  }

  function Step(s: State, e: Event): State
    requires Enabled(s, e)
  {
    match e
    case DataResponse =>
      if s.pending < POLL_LIMIT then s.(pending := s.pending + 1, responses := s.responses + 1)
      else s.(refused := s.refused + 1, responses := s.responses + 1)
    case SendPacket(n) =>
      if n > 0 && s.pending > 0 then s.(pending := s.pending - 1, displaced := s.displaced + 1, delay := INIT_DELAY)
      else s.(delay := INIT_DELAY)
    case SendPermitted => s.(pending := s.pending - 1, spent := s.spent + 1, delay := INIT_DELAY)
    case TimerExpired => s.(delay := if s.delay * 2 > MAX_DELAY then MAX_DELAY else s.delay * 2)
  }

  /** The state of the channel and the timer, changed in place by the two loops. */
  class Scheduler {
    var state: State

    constructor ()
      ensures state == INITIAL
    {
      state := INITIAL;
    }

    /** The receive loop after a response with at least one packet: a send that does not block. */
    method Permit()
      modifies this
      ensures state == Step(old(state), DataResponse)
      ensures state.pending == if old(state.pending) < 16 then old(state.pending) + 1 else old(state.pending)
    {
      state := state.(responses := state.responses + 1);
      if state.pending < POLL_LIMIT {
        state := state.(pending := state.pending + 1);
      } else {
        state := state.(refused := state.refused + 1);
      }
    }

    /** One turn of the send loop, for whichever of its cases was ready. */
    method Turn(e: Event)
      requires !e.DataResponse? && Enabled(state, e)
      modifies this
      ensures state == Step(old(state), e)
      ensures state.delay ==
              if !e.TimerExpired? then 500 else if old(state.delay) > 5000 then 10000 else 2 * old(state.delay)
      ensures old(state.pending) - state.pending ==
              if e.SendPermitted? || (e.SendPacket? && e.length > 0 && old(state.pending) > 0) then 1 else 0
    {
      var length, expired := 0, false;
      match e {
        case SendPacket(n) => length := n;
        case SendPermitted => state := state.(pending := state.pending - 1, spent := state.spent + 1);
        case TimerExpired => expired := true;
      }
      if length > 0 && state.pending > 0 {
        state := state.(pending := state.pending - 1, displaced := state.displaced + 1);
      }
      if expired {
        var delay := state.delay * 2;
        if delay > MAX_DELAY {
          delay := MAX_DELAY;
        }
        state := state.(delay := delay);
      } else {
        state := state.(delay := INIT_DELAY);
      }
    }
  }

  datatype Outcome = Stuck | Reached(state: State)

  /** The state after a run of events; a run is stuck if it spends a permit that is not there. */
  function After(events: seq<Event>): Outcome {
    if events == [] then Reached(INITIAL)
    else match After(events[..|events| - 1])
      case Stuck => Stuck
      case Reached(s) =>
        var e := events[|events| - 1];
        if Enabled(s, e) then Reached(Step(s, e)) else Stuck
  }

  /** Timer expiries since the last send that was not due to the timer; responses do not matter. */
  function TimerStreak(events: seq<Event>): nat {
    if events == [] then 0
    else
      var fore := events[..|events| - 1];
      match events[|events| - 1]
      case DataResponse => TimerStreak(fore)
      case TimerExpired => TimerStreak(fore) + 1
      case _ => 0
  }

  /** How many data-carrying responses have arrived. */
  function Responses(events: seq<Event>): nat {
    if events == [] then 0
    else Responses(events[..|events| - 1]) + if events[|events| - 1].DataResponse? then 1 else 0
  }

  /** How many polls were sent because a response permitted them. */
  function Permitted(events: seq<Event>): nat {
    if events == [] then 0
    else Permitted(events[..|events| - 1]) + if events[|events| - 1].SendPermitted? then 1 else 0
  }

  /** How many packets with data were sent while a permit was waiting. */
  function Displacing(events: seq<Event>): nat
    requires After(events).Reached?
  {
    if events == [] then 0
    else
      var fore, e := events[..|events| - 1], events[|events| - 1];
      Displacing(fore) + if e.SendPacket? && e.length > 0 && After(fore).state.pending > 0 then 1 else 0
  }

  /** How many responses found 16 permits waiting. */
  function Refusals(events: seq<Event>): nat
    requires After(events).Reached?
  {
    if events == [] then 0
    else
      var fore, e := events[..|events| - 1], events[|events| - 1];
      Refusals(fore) + if e.DataResponse? && After(fore).state.pending == 16 then 1 else 0
  }

  function Backoff(k: nat): nat {
    if INIT_DELAY * Pow2(k) > MAX_DELAY then MAX_DELAY else INIT_DELAY * Pow2(k)
  }

  /**
    In every run: at most 16 permits wait; they are the responses that came, less the polls they permitted, the
    packets with data sent while one was waiting, and the responses that found 16 waiting; and the delay depends
    only on how many times in a row the timer was the reason to send.
   */
  lemma {:induction false} PollAccounting(events: seq<Event>)
    requires After(events).Reached?
    ensures var s := After(events).state;
            && s.pending <= 16
            && s.pending == Responses(events) - Permitted(events) - Displacing(events) - Refusals(events)
            && s.responses == Responses(events) && s.spent == Permitted(events)
            && s.displaced == Displacing(events) && s.refused == Refusals(events)
            && s.delay == Backoff(TimerStreak(events))
    decreases |events|
  {
    if events != [] {
      PollAccounting(events[..|events| - 1]);
    }
  }
}
