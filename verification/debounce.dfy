/**
 * The typing debouncer: every keystroke of a connected user sends
 * `typing: true`, cancels the pending quiet-period timer if there is one,
 * and arms a new one; the timer, when it fires, sends `typing: false`.
 * Timers are tokens issued in increasing order and their expiry is an
 * explicit event; the quiet period itself is not modelled.
 */
module Debounce {
  import opened Wrappers

  /**
   * `pending` is the one live timer, if any; `nextTimer` is the token the next
   * armed timer gets; `signals` logs the `typing` values sent, oldest first.
   */
  datatype Debouncer = Debouncer(pending: Option<nat>, nextTimer: nat, signals: seq<bool>)

  const Quiet := Debouncer(None, 0, [])

  /** Every `typing: false` is directly preceded by a `typing: true`: no stop without a start, no double stop. */
  predicate StopFollowsStart(signals: seq<bool>) {
    forall i :: 0 <= i < |signals| && !signals[i] ==> 0 < i && signals[i - 1]
  }

  /** Tokens of the past are never pending, and a pending timer follows a `typing: true`. */
  predicate Valid(d: Debouncer) {
    && StopFollowsStart(d.signals)
    && (d.pending.Some? ==> d.pending.value < d.nextTimer && |d.signals| > 0 && d.signals[|d.signals| - 1])
  }

  /** A change of the message input. */
  function Keystroke(d: Debouncer, connected: bool): (r: Debouncer)
    ensures !connected ==> r == d
    ensures connected ==> r.signals == d.signals + [true] && r.pending.Some?
    ensures connected && Valid(d) && d.pending.Some? ==> d.pending.value < r.pending.value
    ensures Valid(d) ==> Valid(r)
  {
    if !connected then d
    else Debouncer(Some(d.nextTimer), d.nextTimer + 1, d.signals + [true])
  }

  /** Expiry of timer `timer`; a cancelled or already fired timer does nothing. */
  function TimerFires(d: Debouncer, timer: nat): (r: Debouncer)
    ensures d.pending == Some(timer) ==> r.signals == d.signals + [false]
    ensures d.pending != Some(timer) ==> r == d
    ensures r.pending.None? || r == d
    ensures r.nextTimer == d.nextTimer
    ensures Valid(d) ==> Valid(r)
  {
    if d.pending == Some(timer) then d.(pending := None, signals := d.signals + [false]) else d
  }

  /** `n` keystrokes of a connected user. */
  function Keystrokes(d: Debouncer, n: nat): Debouncer {
    if n == 0 then d else Keystroke(Keystrokes(d, n - 1), true)
  }

  /** After a keystroke, no timer armed earlier can fire. */
  lemma StaleTimerInert(d: Debouncer, timer: nat)
    requires Valid(d)
    requires timer < d.nextTimer
    ensures TimerFires(Keystroke(d, true), timer) == Keystroke(d, true)
  {
  }

  /** A burst of keystrokes sends one `typing: true` each and leaves exactly the last armed timer pending. */
  lemma {:induction false} BurstSignals(d: Debouncer, n: nat)
    requires Valid(d)
    ensures Keystrokes(d, n).signals == d.signals + seq(n, _ => true)
    ensures Keystrokes(d, n).nextTimer == d.nextTimer + n
    ensures n > 0 ==> Keystrokes(d, n).pending == Some(d.nextTimer + n - 1)
    ensures Valid(Keystrokes(d, n))
  {
    if n > 0 {
      BurstSignals(d, n - 1);
      assert seq(n, _ => true) == seq(n - 1, _ => true) + [true];
    }
  }

  /**
   * A burst of `n` keystrokes followed by quiet: once the last timer fires
   * exactly one `typing: false` is sent, and any later expiry sends nothing.
   */
  lemma BurstThenQuiet(d: Debouncer, n: nat, later: nat)
    requires Valid(d)
    requires n > 0
    ensures var burst := Keystrokes(d, n);
      var fired := TimerFires(burst, d.nextTimer + n - 1);
      && fired.signals == d.signals + seq(n, _ => true) + [false]
      && TimerFires(fired, later) == fired
  {
    BurstSignals(d, n);
  }
}
