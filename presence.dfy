/** The presence vocabulary of the chat relay: the four named statuses
    (ChatStatusServer) and the ids they travel as, the timing constants of
    the presence engine, and the viewer-relative status that
    ChatUser.GetStatus computes. */
module Presence {
  import opened Wrappers

  /** ChatStatusServer: ONLINE = 0, AWAY = 1, BUSY = 2, OFFLINE = 3. */
  datatype Status = Online | Away | Busy | Offline

  /** The numeric identifier a status travels as (statusId). */
  function StatusId(s: Status): (id: nat)
    ensures id < 4
    ensures StatusOfId(id) == Some(s)
  {
    match s
    case Online => 0
    case Away => 1
    case Busy => 2
    case Offline => 3
  }

  /** The status a numeric identifier names, if any. */
  function StatusOfId(id: int): (r: Option<Status>)
    ensures r.Some? <==> 0 <= id < 4
  {
    if id == 0 then Some(Online)
    else if id == 1 then Some(Away)
    else if id == 2 then Some(Busy)
    else if id == 3 then Some(Offline)
    else None
  }

  /** Milliseconds without activity after which a user counts as inactive. */
  const InactivityThreshold: int := 120000
  /** Grace period of the offline debounce timer armed when the last socket closes. */
  const OfflineGrace: int := 10000
  /** Time since the last idle check after which the daemon declares a user offline. */
  const SweepGate: int := 300000

  /** ChatUser.IsInactive: more than two minutes since the last recorded activity. */
  predicate IsInactive(lastChatPing: int, now: int)
  {
    now - lastChatPing > InactivityThreshold
  }

  /** The status id a viewer sees of a subject (ChatUser.GetStatus). The
      subject's `raw` status is whatever id the client last set, named or
      not: a viewer the subject blocked sees OFFLINE; an offline or disabled
      subject is OFFLINE; an inactive ONLINE or AWAY subject is AWAY; any
      other id is relayed unchanged. */
  function EffectiveStatus(viewerBlocked: bool, offline: bool, disabled: bool, inactive: bool, raw: int): (r: int)
    ensures viewerBlocked ==> r == StatusId(Offline)
    ensures r == StatusId(Offline) <==> (viewerBlocked || offline || disabled || raw == StatusId(Offline))
    ensures r == StatusId(Away) <==>
              !viewerBlocked && !offline && !disabled && (raw == StatusId(Away) || (raw == StatusId(Online) && inactive))
    ensures r == StatusId(Busy) <==> !viewerBlocked && !offline && !disabled && raw == StatusId(Busy)
    ensures r == StatusId(Online) <==> !viewerBlocked && !offline && !disabled && raw == StatusId(Online) && !inactive
    ensures StatusOfId(raw).None? ==> (r == raw <==> !viewerBlocked && !offline && !disabled)
    ensures r == raw || StatusOfId(r).Some?
  {
    if viewerBlocked then StatusId(Offline)
    else if offline || disabled then StatusId(Offline)
    else if inactive && (raw == StatusId(Online) || raw == StatusId(Away)) then StatusId(Away)
    else raw
  }
}
