/**
 * `setupOAuthCallbackServerWithLongPoll` (src/lib/utils.ts): the state its
 * route handlers share, with each event a method.  Express, the timer,
 * the promise and the event emitter are replaced by explicit events:
 * a redirect, a `/wait-for-auth` request, a long-poll timer firing, the
 * completion promise's `then` reaching one held request, and a call of
 * `waitForAuthCode`.
 */
module CallbackServer {

  import opened Base

  /** The long-poll window of `/wait-for-auth`, in milliseconds. */
  const LongPollTimeoutMs: nat := 30000

  const StatusOk: int := 200
  const StatusAccepted: int := 202
  const StatusBadRequest: int := 400

  /**
   * One held `/wait-for-auth` request: the status it was answered with (if
   * any), how many times a response was written, whether its 30-second timer
   * is still armed and whether the completion promise's `then` is still due.
   */
  datatype LongPoll = LongPoll(response: Option<int>, sends: nat, timerArmed: bool, completionDue: bool)

  /** At most one response; while unanswered, the timer is armed, so an answer will come. */
  ghost predicate LongPollValid(p: LongPoll)
  {
    && p.sends <= 1
    && (p.sends == 0 <==> p.response.None?)
    && (p.timerArmed <==> p.response.None?)
    && (p.response.Some? ==> p.response.value == StatusOk || p.response.value == StatusAccepted)
  }

  class OAuthCallbackServer {
    /** `authCode`: the last code received, if any. */
    var authCode: Option<string>
    /** The value `authCompletedPromise` resolved with: the first code. */
    var completedWith: Option<string>
    /** Held `/wait-for-auth` requests, by request number. */
    var longPolls: map<nat, LongPoll>
    var nextRequest: nat
    /** `waitForAuthCode` calls still waiting on the `auth-code-received` event. */
    var waiters: set<nat>
    /** What each resolved `waitForAuthCode` call resolved with. */
    var resolved: map<nat, string>
    var nextWaiter: nat

    ghost predicate Valid()
      reads this
    {
      && (authCode.Some? ==> authCode.value != "")
      && (authCode.Some? <==> completedWith.Some?)
      && (completedWith.Some? ==> waiters == {})
      && (forall id :: id in longPolls ==> id < nextRequest && LongPollValid(longPolls[id]))
      && (forall w :: w in waiters ==> w < nextWaiter && w !in resolved)
      && (forall w :: w in resolved ==> w < nextWaiter)
    }

    /** Setting up the server: no code yet, nothing held, nobody waiting. */
    constructor ()
      ensures Valid()
      ensures authCode == None && completedWith == None
      ensures longPolls == map[] && waiters == {} && resolved == map[]
    {
      authCode := None;
      completedWith := None;
      longPolls := map[];
      nextRequest := 0;
      waiters := {};
      resolved := map[];
      nextWaiter := 0;
    }

    /**
     * The OAuth redirect, `GET <path>?code=...`.  A missing or empty code
     * answers 400 and changes nothing.  Otherwise the code is stored (a later
     * code overwrites an earlier one), the completion promise resolves (only
     * the first time), every waiting `waitForAuthCode` call resolves with the
     * code, and the answer is 200.
     */
    method Redirect(code: Option<string>) returns (status: int)
      requires Valid()
      modifies this
      ensures Valid()
      ensures code.None? || code.value == "" ==> status == StatusBadRequest && unchanged(this)
      ensures code.Some? && code.value != "" ==>
                && status == StatusOk
                && authCode == code
                && completedWith == (if old(completedWith).None? then code else old(completedWith))
                && waiters == {}
                && resolved == old(resolved) + (map w | w in old(waiters) :: code.value)
                && longPolls == old(longPolls) && nextRequest == old(nextRequest)
                && nextWaiter == old(nextWaiter)
    {
      if code.None? || code.value == "" {
        return StatusBadRequest;
      }
      authCode := code;
      if completedWith.None? {
        completedWith := code;
      }
      status := StatusOk;
      resolved := resolved + (map w | w in waiters :: code.value);
      waiters := {};
    }

    /**
     * `GET /wait-for-auth?poll=...`.  Answers 200 at once when a code is
     * stored, 202 at once when `poll` is `'false'`, and otherwise holds the
     * request (`None`) with its timer armed and the completion's `then` due.
     */
    method WaitForAuthRequest(poll: Option<string>) returns (id: nat, status: Option<int>)
      requires Valid()
      modifies this
      ensures Valid()
      ensures old(authCode).Some? ==> status == Some(StatusOk) && unchanged(this)
      ensures old(authCode).None? && poll == Some("false") ==> status == Some(StatusAccepted) && unchanged(this)
      ensures old(authCode).None? && poll != Some("false") ==>
                && status == None && id == old(nextRequest) && id !in old(longPolls)
                && longPolls == old(longPolls)[id := LongPoll(None, 0, true, true)]
                && nextRequest == old(nextRequest) + 1
                && authCode == old(authCode) && completedWith == old(completedWith)
                && waiters == old(waiters) && resolved == old(resolved) && nextWaiter == old(nextWaiter)
    {
      id := nextRequest;
      if authCode.Some? {
        return id, Some(StatusOk);
      }
      if poll == Some("false") {
        return id, Some(StatusAccepted);
      }
      longPolls := longPolls[id := LongPoll(None, 0, true, true)];
      nextRequest := nextRequest + 1;
      status := None;
    }

    /**
     * The 30-second timer of a held request fires (it can only while armed)
     * and writes 202.  The handler checks nothing, yet this is the request's
     * only response, because an armed timer means none was written.
     */
    method LongPollTimeout(id: nat)
      requires Valid()
      requires id in longPolls && longPolls[id].timerArmed
      modifies this
      ensures Valid()
      ensures longPolls == old(longPolls)[id := LongPoll(Some(StatusAccepted), 1, false, old(longPolls)[id].completionDue)]
      ensures authCode == old(authCode) && completedWith == old(completedWith)
      ensures waiters == old(waiters) && resolved == old(resolved)
      ensures nextRequest == old(nextRequest) && nextWaiter == old(nextWaiter)
    {
      var p := longPolls[id];
      longPolls := longPolls[id := LongPoll(Some(StatusAccepted), p.sends + 1, false, p.completionDue)];
    }

    /**
     * The completion promise's `then` reaches a held request (only once the
     * promise has resolved): it clears the timer and writes 200 unless a
     * response was already sent.
     */
    method LongPollCompleted(id: nat)
      requires Valid()
      requires completedWith.Some?
      requires id in longPolls && longPolls[id].completionDue
      modifies this
      ensures Valid()
      ensures var p := old(longPolls)[id];
              longPolls == old(longPolls)[id := LongPoll(if p.response.None? then Some(StatusOk) else p.response,
                                                        if p.response.None? then 1 else p.sends, false, false)]
      ensures authCode == old(authCode) && completedWith == old(completedWith)
      ensures waiters == old(waiters) && resolved == old(resolved)
      ensures nextRequest == old(nextRequest) && nextWaiter == old(nextWaiter)
    {
      var p := longPolls[id];
      if p.response.None? {
        longPolls := longPolls[id := LongPoll(Some(StatusOk), p.sends + 1, false, false)];
      } else {
        longPolls := longPolls[id := LongPoll(p.response, p.sends, false, false)];
      }
    }

    /**
     * `waitForAuthCode()`: yields the stored code at once (registering
     * nothing), or registers a one-shot waiter resolved by the next redirect.
     */
    method WaitForAuthCode() returns (waiter: nat, immediate: Option<string>)
      requires Valid()
      modifies this
      ensures Valid()
      ensures old(authCode).Some? ==> immediate == old(authCode) && unchanged(this)
      ensures old(authCode).None? ==>
                && immediate == None && waiter == old(nextWaiter) && waiter !in old(waiters)
                && waiters == old(waiters) + {waiter} && nextWaiter == old(nextWaiter) + 1
                && authCode == old(authCode) && completedWith == old(completedWith)
                && longPolls == old(longPolls) && nextRequest == old(nextRequest) && resolved == old(resolved)
    {
      waiter := nextWaiter;
      if authCode.Some? {
        return waiter, authCode;
      }
      waiters := waiters + {waiter};
      nextWaiter := nextWaiter + 1;
      immediate := None;
    }
  }

  /**
   * A held request gets exactly one response whichever of its two events
   * comes first: the timer (202) or the completion (200); the later event
   * writes nothing.
   */
  method HeldRequestAnsweredOnce(server: OAuthCallbackServer, id: nat, timerFirst: bool)
    requires server.Valid() && server.completedWith.Some?
    requires id in server.longPolls && server.longPolls[id] == LongPoll(None, 0, true, true)
    modifies server
    ensures server.Valid() && id in server.longPolls
    ensures server.longPolls[id].sends == 1 && !server.longPolls[id].timerArmed && !server.longPolls[id].completionDue
    ensures server.longPolls[id].response == Some(if timerFirst then StatusAccepted else StatusOk)
  {
    if timerFirst {
      server.LongPollTimeout(id);
      server.LongPollCompleted(id);
    } else {
      server.LongPollCompleted(id);
    }
  }

  /**
   * A `waitForAuthCode` call made before the redirect resolves with the
   * redirect's code; a call made after it returns that code at once.
   */
  method CodeReachesWaiters(server: OAuthCallbackServer, code: string) returns (early: string, late: Option<string>)
    requires server.Valid() && server.authCode.None? && code != ""
    modifies server
    ensures server.Valid()
    ensures early == code && late == Some(code)
  {
    var waiter, first := server.WaitForAuthCode();
    var status := server.Redirect(Some(code));
    early := server.resolved[waiter];
    var again: nat;
    again, late := server.WaitForAuthCode();
  }
}
