/** The OpenXR session event handler (processXREvents): one polled event is
    mapped to an update of the session-initialised flag and to the value
    that tells the driver loop to stop. The result of xrBeginSession is an
    oracle; the result of xrEndSession is only logged. */
module Session {

  /** The XrSessionState values the handler distinguishes. */
  datatype SessionState =
    | Unknown | Idle | Ready | Synchronized | Visible | Focused
    | Stopping | LossPending | Exiting | MaxEnum

  /** The event types the handler distinguishes; every other type is `OtherEvent`. */
  datatype XrEvent =
    | InstanceLossPending
    | SessionStateChanged(state: SessionState)
    | ReferenceSpaceChangePending
    | InteractionProfileChanged
    | OtherEvent(code: int)

  /** What xrPollEvent reports. */
  datatype PollResult = EventUnavailable | PollFailed | Polled(event: XrEvent)

  /** The session calls the handler makes. */
  datatype SessionCall = BeginSession | EndSession

  /** The loop-stop value returned, the new flag and the calls made. */
  datatype EventOutcome = EventOutcome(stop: bool, initialized: bool, calls: seq<SessionCall>)

  predicate IsState(poll: PollResult, s: SessionState)
  {
    poll.Polled? && poll.event.SessionStateChanged? && poll.event.state == s
  }

  /** The states that mark the session as running. */
  predicate Running(s: SessionState)
  {
    s == Synchronized || s == Visible || s == Focused
  }

  /** processXREvents for one polled event, given the result `beginOk` of
      xrBeginSession (consulted only for READY) and the current flag. */
  function ProcessEvent(poll: PollResult, beginOk: bool, initialized: bool): (r: EventOutcome)
    // the loop is told to stop only on STOPPING and on a failed begin
    ensures r.stop <==> IsState(poll, Stopping) || (IsState(poll, Ready) && !beginOk)
    // IDLE clears the flag; a successful begin or a running state sets it
    ensures IsState(poll, Idle) ==> !r.initialized
    ensures ((IsState(poll, Ready) && beginOk) ||
             (poll.Polled? && poll.event.SessionStateChanged? && Running(poll.event.state))) ==> r.initialized
    // every other outcome leaves it as it was
    ensures (!IsState(poll, Idle) && !IsState(poll, Ready) &&
             !(poll.Polled? && poll.event.SessionStateChanged? && Running(poll.event.state))) ==>
              r.initialized == initialized
    ensures IsState(poll, Ready) && !beginOk ==> r.initialized == initialized
    // xrBeginSession only on READY, xrEndSession only on STOPPING
    ensures r.calls == (if IsState(poll, Ready) then [BeginSession]
                        else if IsState(poll, Stopping) then [EndSession] else [])
  {
    match poll
    case EventUnavailable => EventOutcome(false, initialized, [])
    case PollFailed => EventOutcome(false, initialized, [])
    case Polled(event) =>
      match event
      case SessionStateChanged(state) => (
        match state
        case Unknown => EventOutcome(false, initialized, [])
        case MaxEnum => EventOutcome(false, initialized, [])
        case Idle => EventOutcome(false, false, [])
        case Ready => if beginOk then EventOutcome(false, true, [BeginSession])
                      else EventOutcome(true, initialized, [BeginSession])
        case Synchronized => EventOutcome(false, true, [])
        case Visible => EventOutcome(false, true, [])
        case Focused => EventOutcome(false, true, [])
        case Stopping => EventOutcome(true, initialized, [EndSession])
        case LossPending => EventOutcome(false, initialized, [])
        case Exiting => EventOutcome(false, initialized, []))
      case InstanceLossPending => EventOutcome(false, initialized, [])
      case ReferenceSpaceChangePending => EventOutcome(false, initialized, [])
      case InteractionProfileChanged => EventOutcome(false, initialized, [])
      case OtherEvent(_) => EventOutcome(false, initialized, [])
  }

  /** Loss and exit are only logged: the loop goes on and nothing changes. */
  lemma LossAndExitOnlyLog(poll: PollResult, beginOk: bool, initialized: bool)
    requires poll == Polled(InstanceLossPending) || IsState(poll, LossPending) || IsState(poll, Exiting)
    ensures ProcessEvent(poll, beginOk, initialized) == EventOutcome(false, initialized, [])
  {
  }

  /** Once xrBeginSession succeeded or the runtime reports a running state,
      the flag no longer depends on what it was before. */
  lemma NewFlagForgetsOldFlag(poll: PollResult, beginOk: bool)
    requires IsState(poll, Idle) || (IsState(poll, Ready) && beginOk) ||
             (poll.Polled? && poll.event.SessionStateChanged? && Running(poll.event.state))
    ensures ProcessEvent(poll, beginOk, false).initialized == ProcessEvent(poll, beginOk, true).initialized
  {
  }

  /** Handling an event twice has the effect on the flag of handling it
      once: every outcome is a constant or the old flag. */
  lemma ProcessEventIdempotent(poll: PollResult, beginOk: bool, initialized: bool)
    ensures var once := ProcessEvent(poll, beginOk, initialized);
      ProcessEvent(poll, beginOk, once.initialized).initialized == once.initialized
  {
  }

  /** Stopping does not clear the flag: it stays as it was until IDLE. */
  lemma StopKeepsFlag(poll: PollResult, beginOk: bool, initialized: bool)
    requires ProcessEvent(poll, beginOk, initialized).stop
    ensures ProcessEvent(poll, beginOk, initialized).initialized == initialized
  {
  }
}
