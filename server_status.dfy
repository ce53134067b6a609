/**
 * The status helpers of `src/utils/serverStatus.ts`: how a server status
 * string maps to a badge variant, a CSS class, a colour, a translation key
 * and the start/stop buttons.
 *
 * The five status strings come from `src/utils/constants.ts`, which is not
 * part of this model; they are a parameter, assumed distinct and non-empty.
 * A missing status (`undefined`) is `None`; the translator is a parameter.
 */
module ServerStatus {
  import opened Wrappers

  datatype StatusCodes = StatusCodes(running: string, starting: string, stopping: string, stopped: string, error: string)

  /** The five codes are distinct, non-empty strings. */
  predicate WellFormed(c: StatusCodes) {
    c.running != "" && c.starting != "" && c.stopping != "" && c.stopped != "" && c.error != ""
    && c.running != c.starting && c.running != c.stopping && c.running != c.stopped && c.running != c.error
    && c.starting != c.stopping && c.starting != c.stopped && c.starting != c.error
    && c.stopping != c.stopped && c.stopping != c.error
    && c.stopped != c.error
  }

  /** `status === code`; `undefined` equals no code. */
  predicate Is(status: Option<string>, code: string) {
    status == Some(code)
  }

  /** JavaScript falsiness of the status: `undefined` or "". */
  predicate Falsy(status: Option<string>) {
    status.None? || status == Some("")
  }

  function GetStatusVariant(c: StatusCodes, status: Option<string>): string {
    if Is(status, c.running) then "success"
    else if Is(status, c.starting) || Is(status, c.stopping) then "warning"
    else if Is(status, c.error) then "error"
    else "neutral"
  }

  /** The translation key `getStatusText` looks up. */
  function StatusTextKey(c: StatusCodes, status: Option<string>): string {
    if Is(status, c.running) then "console.running"
    else if Is(status, c.starting) then "console.starting"
    else if Is(status, c.stopping) then "console.stopping"
    else if Is(status, c.error) then "console.error"
    else "console.stopped"
  }

  function GetStatusClass(c: StatusCodes, status: Option<string>): string {
    if Is(status, c.running) then "running"
    else if Is(status, c.starting) then "starting"
    else if Is(status, c.stopping) then "stopping"
    else if Is(status, c.error) then "error"
    else "stopped"
  }

  function GetStatusColor(c: StatusCodes, status: Option<string>): string {
    if Is(status, c.running) then "#22c55e"
    else if Is(status, c.starting) || Is(status, c.stopping) then "#f59e0b"
    else if Is(status, c.error) then "#ef4444"
    else "#6b7280"
  }

  predicate IsRunning(c: StatusCodes, status: Option<string>) {
    Is(status, c.running)
  }

  predicate IsStopped(c: StatusCodes, status: Option<string>) {
    Falsy(status) || Is(status, c.stopped)
  }

  predicate IsTransitioning(c: StatusCodes, status: Option<string>) {
    Is(status, c.starting) || Is(status, c.stopping)
  }

  predicate CanStart(c: StatusCodes, status: Option<string>) {
    IsStopped(c, status) || Is(status, c.error)
  }

  predicate CanStop(c: StatusCodes, status: Option<string>) {
    Is(status, c.running) || Is(status, c.starting)
  }

  datatype StatusInfo = StatusInfo(
    status: string,
    variant: string,
    text: string,
    className: string,
    color: string,
    canStart: bool,
    canStop: bool
  )

  /** `getServerStatusInfo`: every field is the matching helper's answer,
      and a falsy status is reported as the stopped code. */
  function GetServerStatusInfo(c: StatusCodes, status: Option<string>, t: string -> string): (r: StatusInfo)
    ensures r.status == if Falsy(status) then c.stopped else status.value
    ensures r.variant == GetStatusVariant(c, status) && r.className == GetStatusClass(c, status)
    ensures r.color == GetStatusColor(c, status) && r.text == t(StatusTextKey(c, status))
    ensures r.canStart == CanStart(c, status) && r.canStop == CanStop(c, status)
  {
    StatusInfo(
      if Falsy(status) then c.stopped else status.value,
      GetStatusVariant(c, status),
      t(StatusTextKey(c, status)),
      GetStatusClass(c, status),
      GetStatusColor(c, status),
      CanStart(c, status),
      CanStop(c, status))
  }

  /** No status allows both starting and stopping. */
  lemma StartStopExclusive(c: StatusCodes, status: Option<string>)
    requires WellFormed(c)
    ensures !(CanStart(c, status) && CanStop(c, status))
  {
  }

  /** The transitional states are exactly those with the "warning" badge
      and exactly those coloured amber. */
  lemma TransitioningIsWarning(c: StatusCodes, status: Option<string>)
    requires WellFormed(c)
    ensures IsTransitioning(c, status) <==> GetStatusVariant(c, status) == "warning"
    ensures IsTransitioning(c, status) <==> GetStatusColor(c, status) == "#f59e0b"
  {
  }

  /** A missing or empty status reads as stopped. */
  lemma FalsyIsStopped(c: StatusCodes, status: Option<string>)
    requires WellFormed(c) && Falsy(status)
    ensures IsStopped(c, status) && CanStart(c, status) && !CanStop(c, status)
    ensures GetStatusClass(c, status) == "stopped" && GetStatusVariant(c, status) == "neutral"
  {
  }

  /** Any status that is none of the codes (the stopped code included) gets
      the neutral look. */
  lemma UnknownIsNeutral(c: StatusCodes, status: Option<string>)
    requires !Is(status, c.running) && !Is(status, c.starting) && !Is(status, c.stopping) && !Is(status, c.error)
    ensures GetStatusVariant(c, status) == "neutral" && GetStatusClass(c, status) == "stopped"
    ensures GetStatusColor(c, status) == "#6b7280" && StatusTextKey(c, status) == "console.stopped"
  {
  }

  /** An errored server shows the error badge and can be started again. */
  lemma ErrorCanRestart(c: StatusCodes)
    requires WellFormed(c)
    ensures GetStatusVariant(c, Some(c.error)) == "error"
    ensures CanStart(c, Some(c.error)) && !CanStop(c, Some(c.error))
  {
  }
}
