/** The life of one tracked command: sent, acknowledged, timed out, waiting to be resent, given up. */
module CommandSlots {
  import opened Basics

  /** Nanoseconds on the controller's steady clock. */
  type Time = int

  datatype Config = Config(timeout: Time, maxAttempts: int, backoffBase: Time)

  datatype SlotState = InFlight | Backoff

  /** A tracked command. `nextAt` is the answer deadline in flight and the resend time in backoff. */
  datatype Slot = Slot(
    id: nat, command: Command, dispatchedAt: Time, nextAt: Time, sink: Option<nat>, attempts: int, state: SlotState)

  function NewSlot(cfg: Config, id: nat, command: Command, now: Time, sink: Option<nat>): Slot {
    Slot(id, command, now, now + cfg.timeout, sink, 1, InFlight)
  }

  function Power2(n: nat): nat {
    if n == 0 then 1 else 2 * Power2(n - 1)
  }

  /** The wait before the next send, doubled once per attempt already made, at most fifteen times. */
  function BackoffFor(cfg: Config, attempts: int): Time {
    cfg.backoffBase * Power2(if attempts <= 1 then 0 else if attempts <= 16 then attempts - 1 else 15)
  }

  function Acknowledged(cfg: Config, s: Slot, now: Time): Slot {
    s.(state := InFlight, nextAt := now + cfg.timeout)
  }

  predicate Exhausted(cfg: Config, s: Slot) {
    s.attempts >= cfg.maxAttempts
  }

  /** What a failed attempt leaves; None when the command is given up. */
  function AttemptFailed(cfg: Config, s: Slot, now: Time): Option<Slot> {
    if Exhausted(cfg, s) then None
    else Some(s.(state := Backoff, nextAt := now + BackoffFor(cfg, s.attempts)))
  }

  function Resent(cfg: Config, s: Slot, now: Time): Slot {
    s.(attempts := s.attempts + 1, state := InFlight, nextAt := now + cfg.timeout)
  }

  predicate Due(s: Slot, now: Time) {
    s.nextAt < now
  }

  /** Whether a sweep at `now` tries to send the command again. */
  predicate Resends(s: Slot, now: Time) {
    Due(s, now) && s.state.Backoff?
  }

  /** What one sweep leaves of a slot, if a resend would come back with `sent`; None when it gives the command up. */
  function Swept(cfg: Config, s: Slot, now: Time, sent: SendResult): Option<Slot> {
    if !Due(s, now) then Some(s)
    else if s.state.InFlight? then AttemptFailed(cfg, s, now)
    else if sent.Sent? then Some(Resent(cfg, s, now))
    else None
  }

  // ---------------------------------------------------------------------------------------------------------------
  // A command nobody answers is given up after a bounded number of sweeps and sends.

  function MaxOne(n: int): nat {
    if n < 1 then 1 else n
  }

  /** Twice the attempts left, plus one while an answer is awaited. */
  function Patience(cfg: Config, s: Slot): int {
    2 * (MaxOne(cfg.maxAttempts) - s.attempts) + (if s.state.InFlight? then 1 else 0)
  }

  /** A slot as the service makes them: it was sent at least once, and waits to be resent only with attempts left. */
  predicate Sound(cfg: Config, s: Slot) {
    1 <= s.attempts <= MaxOne(cfg.maxAttempts) && (s.state.Backoff? ==> s.attempts < cfg.maxAttempts)
  }

  /** The slot after sweeps at the given times with the given send results and no answer in between. */
  function Unanswered(cfg: Config, s: Slot, sweeps: seq<(Time, SendResult)>): Option<Slot>
    decreases |sweeps|
  {
    if sweeps == [] then Some(s)
    else
      var next := Swept(cfg, s, sweeps[0].0, sweeps[0].1);
      if next.None? then None else Unanswered(cfg, next.value, sweeps[1..])
  }

  /** How many of those sweeps find the slot due, while it lasts. */
  function DueSweeps(cfg: Config, s: Slot, sweeps: seq<(Time, SendResult)>): nat
    decreases |sweeps|
  {
    if sweeps == [] then 0
    else
      var next := Swept(cfg, s, sweeps[0].0, sweeps[0].1);
      (if Due(s, sweeps[0].0) then 1 else 0) + (if next.None? then 0 else DueSweeps(cfg, next.value, sweeps[1..]))
  }

  /** How many of those sweeps put the command on the wire. */
  function Sends(cfg: Config, s: Slot, sweeps: seq<(Time, SendResult)>): nat
    decreases |sweeps|
  {
    if sweeps == [] then 0
    else
      var next := Swept(cfg, s, sweeps[0].0, sweeps[0].1);
      (if Resends(s, sweeps[0].0) && sweeps[0].1.Sent? then 1 else 0) +
      (if next.None? then 0 else Sends(cfg, next.value, sweeps[1..]))
  }

  /** Every due sweep either gives the command up or strictly lowers the patience left, which stays positive. */
  lemma DueSweepLowersPatience(cfg: Config, s: Slot, now: Time, sent: SendResult)
    requires Sound(cfg, s)
    ensures Patience(cfg, s) >= 1
    ensures var next := Swept(cfg, s, now, sent);
            next.Some? ==> Sound(cfg, next.value)
                           && (if Due(s, now) then Patience(cfg, next.value) < Patience(cfg, s) else next == Some(s))
  {
  }

  lemma {:induction false} UnansweredRun(cfg: Config, s: Slot, sweeps: seq<(Time, SendResult)>)
    requires Sound(cfg, s)
    ensures DueSweeps(cfg, s, sweeps) <= Patience(cfg, s)
    ensures s.attempts + Sends(cfg, s, sweeps) <= MaxOne(cfg.maxAttempts)
    ensures DueSweeps(cfg, s, sweeps) == Patience(cfg, s) ==> Unanswered(cfg, s, sweeps).None?
    decreases |sweeps|
  {
    DueSweepLowersPatience(cfg, s, 0, Sent);
    if sweeps != [] {
      DueSweepLowersPatience(cfg, s, sweeps[0].0, sweeps[0].1);
      var next := Swept(cfg, s, sweeps[0].0, sweeps[0].1);
      if next.Some? {
        UnansweredRun(cfg, next.value, sweeps[1..]);
      }
    }
  }

  /** A freshly dispatched command that nobody answers is put on the wire at most max(1, maxAttempts) times in all,
      and is gone once 2 * max(1, maxAttempts) - 1 sweeps have found it due. */
  lemma UnansweredCommandCloses(cfg: Config, id: nat, command: Command, at: Time, sink: Option<nat>,
                                sweeps: seq<(Time, SendResult)>)
    ensures var s := NewSlot(cfg, id, command, at, sink);
            && 1 + Sends(cfg, s, sweeps) <= MaxOne(cfg.maxAttempts)
            && DueSweeps(cfg, s, sweeps) <= 2 * MaxOne(cfg.maxAttempts) - 1
            && (DueSweeps(cfg, s, sweeps) == 2 * MaxOne(cfg.maxAttempts) - 1 ==> Unanswered(cfg, s, sweeps).None?)
  {
    UnansweredRun(cfg, NewSlot(cfg, id, command, at, sink), sweeps);
  }
}
