/** The WebSocket reconnection policy of `connectWebSocket` (public/app.js:74-133):
    `onopen` resets the attempt counter, `onclose` either stays down (normal
    closure, or no token), gives up after ten attempts, or schedules a new
    connection after an exponentially growing delay capped at thirty seconds.
    Sockets and timers are not modelled: opening, closing, erroring and the
    timer firing are explicit method calls. */
module Backoff {
  import opened Wrappers
  import opened Numbers

  /** `maxReconnectAttempts`. */
  const MaxReconnectAttempts := 10
  /** The close code of a normal closure, which never reconnects. */
  const NormalClosure := 1000
  /** The cap on the reconnection delay, in milliseconds. */
  const MaxDelay := 30000

  /** What a close event decides. */
  datatype CloseAction =
    | StayClosed       // normal closure or no token: nothing is scheduled
    | GiveUp           // the attempt limit was passed: nothing is scheduled
    | Retry(delay: nat) // a reconnection is scheduled after `delay` ms

  /** The text shown in the connection status line, one case per message. */
  datatype Status =
    | Idle
    | Connecting
    | Connected
    | Reconnecting       // "Desconectado. Intentando reconectar..."
    | RetryingIn(delay: nat)
    | ReconnectFailed
    | ConnectionError

  /** JavaScript truthiness of the stored token: undefined and '' are falsy. */
  predicate HasToken(token: Option<string>)
  {
    token.Some? && token.value != ""
  }

  /** `Math.min(30000, 1000 * Math.pow(2, attempts))`. */
  function RetryDelay(attempts: nat): (r: nat)
    ensures r <= MaxDelay
    ensures r == MaxDelay || r == 1000 * Pow2(attempts)
  {
    if 1000 * Pow2(attempts) < MaxDelay then 1000 * Pow2(attempts) else MaxDelay
  }

  /** The decision of `onclose` given the counter before the event: the new
      counter and the action (public/app.js:112-126). */
  function CloseStep(attempts: nat, code: int, hasToken: bool): (nat, CloseAction)
  {
    if code == NormalClosure || !hasToken then (attempts, StayClosed)
    else if attempts + 1 > MaxReconnectAttempts then (attempts + 1, GiveUp)
    else (attempts + 1, Retry(RetryDelay(attempts + 1)))
  }

  /** The actions of `k` abnormal closes in a row, with no successful open
      between them, starting from counter `attempts`. */
  function Closes(attempts: nat, k: nat): (actions: seq<CloseAction>)
    ensures |actions| == k
    decreases k
  {
    if k == 0 then []
    else
      var (next, action) := CloseStep(attempts, 1006, true);
      [action] + Closes(next, k - 1)
  }

  /** The delays double from two seconds and stop growing at thirty. */
  lemma DelaySchedule(n: nat)
    ensures RetryDelay(1) == 2000 && RetryDelay(2) == 4000
    ensures RetryDelay(3) == 8000 && RetryDelay(4) == 16000
    ensures n >= 5 ==> RetryDelay(n) == MaxDelay
  {
    assert Pow2(5) == 32;
    if n >= 5 {
      Pow2Monotone(5, n);
    }
  }

  /** A longer wait never comes before a shorter one. */
  lemma RetryDelayMonotone(m: nat, n: nat)
    requires m <= n
    ensures RetryDelay(m) <= RetryDelay(n)
  {
    Pow2Monotone(m, n);
  }

  /** Closing normally, or without a token, changes nothing and schedules nothing;
      any other close counts one attempt. */
  lemma CloseCounts(attempts: nat, code: int, hasToken: bool)
    ensures var (next, action) := CloseStep(attempts, code, hasToken);
      (code == NormalClosure || !hasToken <==> action == StayClosed) &&
      (action == StayClosed ==> next == attempts) &&
      (action != StayClosed ==> next == attempts + 1)
  {
  }

  /** A close schedules a retry exactly while the counter stays within the limit,
      and then waits `RetryDelay` of the new counter. */
  lemma RetryWhileWithinLimit(attempts: nat, code: int)
    requires code != NormalClosure
    ensures var (next, action) := CloseStep(attempts, code, true);
      (action.Retry? <==> next <= MaxReconnectAttempts) &&
      (action.GiveUp? <==> next > MaxReconnectAttempts) &&
      (action.Retry? ==> action.delay == RetryDelay(next))
  {
  }

  /** In a run of abnormal closes the i-th one retries exactly when the counter
      it produces is still within the limit, with that counter's delay. */
  lemma {:induction false} ClosesRetryUntilLimit(attempts: nat, k: nat, i: nat)
    requires i < k
    decreases k
    ensures Closes(attempts, k)[i] ==
      if attempts + i + 1 <= MaxReconnectAttempts then Retry(RetryDelay(attempts + i + 1)) else GiveUp
  {
    if i > 0 {
      ClosesRetryUntilLimit(attempts + 1, k - 1, i - 1);
    }
  }

  /** From a fresh (or just opened) connection, eleven failing closes in a row
      retry after 2, 4, 8, 16 and then 30 seconds six times, and the eleventh
      gives up. */
  lemma ElevenCloses()
    ensures Closes(0, 11) == [Retry(2000), Retry(4000), Retry(8000), Retry(16000),
                              Retry(MaxDelay), Retry(MaxDelay), Retry(MaxDelay),
                              Retry(MaxDelay), Retry(MaxDelay), Retry(MaxDelay), GiveUp]
  {
    forall i | 0 <= i < 11
      ensures Closes(0, 11)[i] ==
        if i + 1 <= MaxReconnectAttempts then Retry(RetryDelay(i + 1)) else GiveUp
    {
      ClosesRetryUntilLimit(0, 11, i);
    }
    forall n: nat | 5 <= n
      ensures RetryDelay(n) == MaxDelay
    {
      DelaySchedule(n);
    }
    DelaySchedule(1);
  }

  /** The connection state kept by the page: the token given by login, the
      attempt counter, the status line and the pending reconnection timer. */
  class Connection {
    var token: Option<string>
    var attempts: nat
    var status: Status
    /** The delay of the pending reconnection timer, if one is scheduled. */
    var timer: Option<nat>

    /** The page before login: no token, no attempts, nothing scheduled. */
    constructor()
      ensures token == None && attempts == 0 && status == Idle && timer == None
    {
      token := None;
      attempts := 0;
      status := Idle;
      timer := None;
    }

    /** `connectWebSocket(token)` (public/app.js:74-81): a falsy token does
        nothing; otherwise a socket is opened and the status says so. */
    method Connect(t: Option<string>)
      modifies this
      ensures token == old(token) && attempts == old(attempts) && timer == old(timer)
      ensures status == if HasToken(t) then Connecting else old(status)
    {
      if HasToken(t) {
        status := Connecting;
      }
    }

    /** A successful login stores the access token and connects with it
        (public/app.js:48-49). */
    method LoggedIn(accessToken: Option<string>)
      modifies this
      ensures token == accessToken && attempts == old(attempts) && timer == old(timer)
      ensures status == if HasToken(accessToken) then Connecting else old(status)
    {
      token := accessToken;
      Connect(accessToken);
    }

    /** `onopen` (public/app.js:83-92): connected, the counter back to zero and
        any pending timer cancelled. */
    method OnOpen()
      modifies this
      ensures status == Connected && attempts == 0 && timer == None && token == old(token)
    {
      status := Connected;
      attempts := 0;
      timer := None;
    }

    /** `onclose` (public/app.js:107-127): the counter and the action follow
        `CloseStep`; a retry arms the timer with its delay. */
    method OnClose(code: int) returns (action: CloseAction)
      modifies this
      ensures (attempts, action) == CloseStep(old(attempts), code, HasToken(token))
      ensures token == old(token)
      ensures action.Retry? ==> timer == Some(action.delay) && status == RetryingIn(action.delay)
      ensures action.GiveUp? ==> timer == old(timer) && status == ReconnectFailed
      ensures action.StayClosed? ==> timer == old(timer) && status == Reconnecting
    {
      status := Reconnecting;
      if code == NormalClosure || !HasToken(token) {
        return StayClosed;
      }
      attempts := attempts + 1;
      if attempts > MaxReconnectAttempts {
        status := ReconnectFailed;
        return GiveUp;
      }
      var delay := RetryDelay(attempts);
      status := RetryingIn(delay);
      timer := Some(delay);
      action := Retry(delay);
    }

    /** `onerror` (public/app.js:128-132): only the status line changes. */
    method OnError()
      modifies this
      ensures status == ConnectionError
      ensures token == old(token) && attempts == old(attempts) && timer == old(timer)
    {
      status := ConnectionError;
    }

    /** The reconnection timer fires: it connects again with the stored token
        (public/app.js:126). */
    method TimerFires()
      requires timer.Some?
      modifies this
      ensures timer == None && token == old(token) && attempts == old(attempts)
      ensures status == if HasToken(token) then Connecting else old(status)
    {
      timer := None;
      Connect(token);
    }
  }
}
