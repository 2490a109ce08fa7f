/**
 * The plugin's two option readers: the abandoned-cart timeout, stored in
 * hours and read in seconds, and the Vambe API key.
 */
module PluginOptions {
  import opened Optional
  import opened CartTracker

  const HourInSeconds := 3600

  /** The timeout when the option was never saved: one hour. */
  const DefaultHours := 1

  /** `vambe_get_cart_timeout`: the stored number of hours, in seconds. */
  function CartTimeout(storedHours: Option<int>): (seconds: int)
    ensures seconds % HourInSeconds == 0
    ensures seconds / HourInSeconds == storedHours.GetOr(DefaultHours)
  {
    storedHours.GetOr(DefaultHours) * HourInSeconds
  }

  /** `vambe_get_api_key`: the stored key, or "" when there is none. */
  function ApiKey(stored: Option<string>): (key: string)
    ensures stored.Some? ==> key == stored.value
    ensures stored.None? ==> key == ""
  {
    stored.GetOr("")
  }

  /**
   * The scan with the configured timeout: a session whose record has not been
   * notified and whose customer can be reached is notified exactly once its
   * cart has been idle for the stored number of hours (one hour by default).
   */
  lemma NotifiedAfterStoredHours(s: SessionData, now: int, storedHours: Option<int>, userEmail: string -> Option<string>)
    requires RecordOf(s).Some? && !RecordOf(s).value.notificationSent
    requires Reachable(ContactOf(CustomerOf(s), userEmail))
    ensures ProcessSingleSession(Some(s), now, CartTimeout(storedHours), userEmail).notice.Some?
      <==> now >= RecordOf(s).value.lastActivity + 3600 * storedHours.GetOr(DefaultHours)
  {
  }

  /** Lowering the stored hours never withholds a notification that the higher setting would send. */
  lemma FewerHoursNotifyNoLater(s: Option<SessionData>, now: int, h1: int, h2: int, userEmail: string -> Option<string>)
    requires h1 <= h2
    ensures ProcessSingleSession(s, now, CartTimeout(Some(h2)), userEmail).notice.Some?
      ==> ProcessSingleSession(s, now, CartTimeout(Some(h1)), userEmail).notice.Some?
  {
  }
}
