/** The shell's decisions, as pure functions of the status document (ladder.rs). */
module Ladder {
  import opened Options

  newtype u32 = x: int | 0 <= x <= 0xFFFF_FFFF

  /** The fields of the status document the supervision code reads. Seconds are reals. */
  datatype Status = Status(
    adminUrl: string,
    healthUrl: string,
    serverPresence: string,
    portConflict: Option<string>,
    serverMode: string,
    serverLog: string,
    startTimeout: real,
    healthCheckInterval: real,
    healthPoll: real,
    failureThreshold: u32,
    reconnectTimeout: real)

  datatype Decision =
    | Attach(adminUrl: string)
    | Start(startUrl: string, healthUrl: string)
    | NotOurServer(serverMode: string)
    | PortConflict(message: string)
    | UnknownPresence(presence: string)

  const DEFAULT_CONFLICT := "Something other than My Claude Code is already listening on the configured port."

  function Decide(status: Status): Decision {
    if status.serverPresence == "healthy" then
      Attach(status.adminUrl)
    else if status.serverPresence == "foreign" then
      PortConflict(if status.portConflict.Some? then status.portConflict.value else DEFAULT_CONFLICT)
    else if status.serverPresence == "free" then
      if status.serverMode == "spawn" then Start(status.adminUrl, status.healthUrl)
      else NotOurServer(status.serverMode)
    else
      UnknownPresence(status.serverPresence)
  }

  /** Each presence the status can report leads to its own decision, and any other to none of them. */
  lemma DecideMeaning(status: Status)
    ensures Decide(status).Attach? <==> status.serverPresence == "healthy"
    ensures Decide(status).PortConflict? <==> status.serverPresence == "foreign"
    ensures Decide(status).Start? <==> status.serverPresence == "free" && status.serverMode == "spawn"
    ensures Decide(status).NotOurServer? <==> status.serverPresence == "free" && status.serverMode != "spawn"
    ensures Decide(status).UnknownPresence? <==> status.serverPresence !in {"healthy", "foreign", "free"}
    ensures Decide(status).PortConflict? && status.portConflict.Some? ==>
      Decide(status).message == status.portConflict.value
  {
    assert "healthy" != "foreign" && "foreign" != "free" && "healthy" != "free";
  }

  datatype Verdict = Ignore | Waiting | Failed(serverLog: string)

  function ReconnectVerdict(status: Status, consecutiveFailures: u32, elapsed: real): Verdict {
    if consecutiveFailures < status.failureThreshold then Ignore
    else if elapsed < status.reconnectTimeout then Waiting
    else Failed(status.serverLog)
  }

  predicate StartMayContinue(status: Status, elapsed: real) {
    elapsed < status.startTimeout
  }

  /** `u32::saturating_add(1)`. */
  function SaturatingIncrement(n: u32): u32 {
    if n == 0xFFFF_FFFF then n else n + 1
  }

  /** `Instant::elapsed`: never negative, whatever the clock does. */
  function Elapsed(since: real, now: real): real {
    if now < since then 0.0 else now - since
  }
}
