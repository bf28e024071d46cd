/**
 * The inactivity logout of the application shell (src/App.js): page
 * activity stamps `LastActivity` in storage, and a periodic tick compares
 * the stamp with the clock, warns after 55 minutes and logs the user out
 * after 60. Times are milliseconds since the epoch; the clock is a
 * parameter of each step.
 */
module IdleLogout {
  import opened Wrappers
  import Strings
  import Storage
  import Credentials

  /** 3300 seconds (55 minutes), in milliseconds. */
  const WarningAfter := 3300 * 1000
  /** 3600 seconds (60 minutes), in milliseconds. */
  const LogoutAfter := 3600 * 1000

  function Abs(x: int): nat {
    if x < 0 then -x else x
  }

  /** The text an activity event stores for the time `now`. */
  function StampText(now: nat): string {
    Strings.NatToString(now)
  }

  /**
   * `new Date(localStorage.getItem('LastActivity'))`: nothing stored reads as
   * the epoch (`new Date(null)`), text that is not a time as an invalid date.
   */
  function StampTime(stored: Option<string>): Option<nat> {
    match stored
    case None => Some(0)
    case Some(s) => Strings.ParseNat(s)
  }

  /**
   * `|currentTime - lastActivity|`; an invalid date makes the difference NaN,
   * which no threshold exceeds.
   */
  predicate IdleLongerThan(stamp: Option<string>, now: int, limit: nat) {
    match StampTime(stamp)
    case None => false
    case Some(t) => Abs(now - t) > limit
  }

  /** The warning of one tick: idle for more than 55 minutes with a username stored. */
  predicate Warns(stamp: Option<string>, username: Option<string>, now: int) {
    IdleLongerThan(stamp, now, WarningAfter) && !Credentials.Blank(username)
  }

  /** The logout of one tick: idle for more than 60 minutes with a username stored. */
  predicate LogsOut(stamp: Option<string>, username: Option<string>, now: int) {
    IdleLongerThan(stamp, now, LogoutAfter) && !Credentials.Blank(username)
  }

  /** Within 55 minutes of an activity, in either direction, no tick warns or logs out. */
  lemma ActiveUserStays(stamped: nat, now: int, username: Option<string>)
    requires Abs(now - stamped) <= WarningAfter
    ensures !Warns(Some(StampText(stamped)), username, now)
    ensures !LogsOut(Some(StampText(stamped)), username, now)
  {
    Strings.ParseNatToString(stamped);
  }

  /** More than an hour after the last activity, a stored user is logged out. */
  lemma InactiveUserLeaves(stamped: nat, now: int, username: string)
    requires Abs(now - stamped) > LogoutAfter && username != ""
    ensures LogsOut(Some(StampText(stamped)), Some(username), now)
  {
    Strings.ParseNatToString(stamped);
  }

  class IdleMonitor {
    const storage: Storage.LocalStorage
    /** Whether the interval is still running. */
    var timerActive: bool

    constructor (storage: Storage.LocalStorage)
      ensures this.storage == storage && timerActive
    {
      this.storage := storage;
      timerActive := true;
    }

    /** A mouse move or a click: `LastActivity` is overwritten with the time of the event. */
    method Activity(now: nat)
      modifies storage
      ensures storage.items == old(storage.items)[Storage.LastActivityKey := StampText(now)]
    {
      storage.SetItem(Storage.LastActivityKey, StampText(now));
    }

    /**
     * One run of the interval callback. Past 55 minutes with a username
     * stored it warns; past 60 it also removes the token and the username
     * and stops the interval. The page is then reloaded once the log request
     * has answered, unless that request throws or a refusal's body is not
     * JSON, in which case the reload is never reached. Without a username a
     * tick changes nothing.
     */
    method Tick(now: int) returns (warned: bool, loggedOut: bool)
      modifies this, storage
      ensures !old(timerActive) ==> !warned && !loggedOut
      ensures old(timerActive) ==>
        warned == Warns(old(storage.GetItem(Storage.LastActivityKey)), old(storage.GetItem(Storage.UsernameKey)), now)
        && loggedOut == LogsOut(old(storage.GetItem(Storage.LastActivityKey)), old(storage.GetItem(Storage.UsernameKey)), now)
      ensures loggedOut ==> warned
      ensures loggedOut ==> storage.items == old(storage.items) - {Storage.TokenKey} - {Storage.UsernameKey} && !timerActive
      ensures !loggedOut ==> storage.items == old(storage.items) && timerActive == old(timerActive)
    {
      warned := false;
      loggedOut := false;
      if !timerActive {
        return;
      }
      var stamp := storage.GetItem(Storage.LastActivityKey);
      var username := storage.GetItem(Storage.UsernameKey);
      if IdleLongerThan(stamp, now, WarningAfter) && !Credentials.Blank(username) {
        warned := true;
      }
      if IdleLongerThan(stamp, now, LogoutAfter) && !Credentials.Blank(username) {
        storage.RemoveItem(Storage.TokenKey);
        storage.RemoveItem(Storage.UsernameKey);
        timerActive := false;
        loggedOut := true;
      }
    }
  }
}
