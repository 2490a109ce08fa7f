/**
 * The abandoned-cart tracker of the packaged plugin. Each WooCommerce session
 * may hold a `cart_tracking` record. A cart change creates or resets it, a new
 * order removes it, and a periodic scan notifies idle carts once.
 * `md5(serialize(..))` equality is modelled as equality of the cart lines.
 * Clock reads are the `now` parameter.
 */
module CartTracker {
  import opened Optional
  import opened Php
  import opened Storefront

  /** The `cart_tracking` record. */
  datatype Tracking = Tracking(contents: seq<CartLine>, lastActivity: int, notificationSent: bool)

  /** The `customer` array as the session stores it; a missing field is "". */
  datatype Customer = Customer(email: string, id: string, firstName: string, lastName: string, phone: string)

  /** One value of a session's data. */
  datatype SessionValue =
    | TrackingValue(tracking: Tracking)
    | CustomerValue(customer: Customer)
    | Raw(text: string)

  /** A session's data, by key. */
  type SessionData = map<string, SessionValue>

  const TrackingKey := "cart_tracking"
  const CustomerKey := "customer"

  /** The record the session holds, if the value under `cart_tracking` is one. */
  function RecordOf(s: SessionData): (r: Option<Tracking>)
    ensures r.Some? <==> TrackingKey in s && s[TrackingKey].TrackingValue?
  {
    if TrackingKey in s && s[TrackingKey].TrackingValue? then Some(s[TrackingKey].tracking) else None
  }

  /** What `track_cart_changes` did: the session afterwards, and whether `action.cart_updated` was triggered. */
  datatype Tracked = Tracked(session: Option<SessionData>, webhookFired: bool)

  /**
   * `track_cart_changes`. `session` is `WC()->session` (None: no session) and
   * `cart` the current cart (None: no cart). A missing record, or one whose
   * contents differ from the cart, is replaced by a fresh one.
   */
  function TrackCartChanges(session: Option<SessionData>, cart: Option<seq<CartLine>>, now: int): (r: Tracked)
    ensures session.None? || cart.None? || |cart.value| == 0 ==> r == Tracked(session, false)
    ensures r.webhookFired ==> r.session.Some? && r.session.value == session.value[TrackingKey := TrackingValue(Tracking(cart.value, now, false))]
    ensures !r.webhookFired ==> r.session == session
  {
    if session.None? || cart.None? || |cart.value| == 0 then Tracked(session, false)
    else
      var rec := RecordOf(session.value);
      if rec.None? || rec.value.contents != cart.value then
        Tracked(Some(session.value[TrackingKey := TrackingValue(Tracking(cart.value, now, false))]), true)
      else Tracked(session, false)
  }

  /** `clear_abandoned_cart`: drops the record when there is a session. */
  function ClearAbandonedCart(session: Option<SessionData>): (r: Option<SessionData>)
    ensures r.Some? <==> session.Some?
    ensures r.Some? ==> TrackingKey !in r.value
    ensures r.Some? ==> forall k :: k != TrackingKey ==> (k in r.value <==> k in session.value)
    ensures r.Some? ==> forall k :: k in r.value ==> r.value[k] == session.value[k]
  {
    if session.Some? then Some(session.value - {TrackingKey}) else None
  }

  // ---------------------------------------------------------------------
  // The periodic scan.

  /** `$customer_data`: what the abandoned-cart notification carries about the customer. */
  datatype Contact = Contact(email: string, firstName: string, lastName: string, phone: string)

  /** The customer stored in a session; anything other than a customer array reads as empty fields. */
  function CustomerOf(s: SessionData): Customer {
    if CustomerKey in s && s[CustomerKey].CustomerValue? then s[CustomerKey].customer
    else Customer("", "", "", "", "")
  }

  /**
   * The contact data: the email is the customer's own, else that of the
   * registered user with the customer's id (`userEmail`: None for no such
   * user), else "".
   */
  function ContactOf(c: Customer, userEmail: string -> Option<string>): (ct: Contact)
    ensures !Empty(c.email) ==> ct.email == c.email
    ensures Empty(c.email) && Empty(c.id) ==> ct.email == ""
    ensures Empty(c.email) && !Empty(c.id) ==> ct.email == userEmail(c.id).GetOr("")
    ensures ct.phone == (if Empty(c.phone) then "" else c.phone)
  {
    Contact(
      if !Empty(c.email) then c.email else if !Empty(c.id) then userEmail(c.id).GetOr("") else "",
      if !Empty(c.firstName) then c.firstName else "",
      if !Empty(c.lastName) then c.lastName else "",
      if !Empty(c.phone) then c.phone else "")
  }

  /** There is someone to notify: a phone or an email. */
  predicate Reachable(ct: Contact) {
    !Empty(ct.phone) || !Empty(ct.email)
  }

  /** An idle record not yet notified: idle for at least `timeout` seconds. */
  predicate Due(t: Tracking, now: int, timeout: int) {
    now - t.lastActivity >= timeout && !t.notificationSent
  }

  /** The abandoned-cart notification: the contact data and the record as it was. */
  datatype Notice = Notice(contact: Contact, tracking: Tracking)

  /** `update_notification_status`: only the record's `notification_sent` changes. */
  function MarkNotified(s: SessionData): (r: SessionData)
    requires RecordOf(s).Some?
    ensures r.Keys == s.Keys
    ensures RecordOf(r) == Some(RecordOf(s).value.(notificationSent := true))
    ensures forall k :: k in s && k != TrackingKey ==> r[k] == s[k]
  {
    s[TrackingKey := TrackingValue(s[TrackingKey].tracking.(notificationSent := true))]
  }

  /** What processing one stored session does: its stored value afterwards and the notice sent, if any. */
  datatype Processed = Processed(value: Option<SessionData>, notice: Option<Notice>)

  /**
   * `process_single_session` with `handle_abandoned_cart`. A stored value
   * that is not an array (None), has no record, or holds a malformed one is
   * skipped. A due record of a reachable customer is notified. The trigger
   * swallows every exception, so sending counts as success and the record
   * is marked.
   */
  function ProcessSingleSession(stored: Option<SessionData>, now: int, timeout: int, userEmail: string -> Option<string>): (r: Processed)
    ensures r.notice.None? ==> r.value == stored
    ensures r.notice.Some? <==>
      stored.Some? && RecordOf(stored.value).Some? && Due(RecordOf(stored.value).value, now, timeout)
      && Reachable(ContactOf(CustomerOf(stored.value), userEmail))
    ensures r.notice.Some? ==> r.value == Some(MarkNotified(stored.value))
    ensures r.notice.Some? ==> r.notice.value == Notice(ContactOf(CustomerOf(stored.value), userEmail), RecordOf(stored.value).value)
  {
    if stored.None? then Processed(stored, None)
    else
      var rec := RecordOf(stored.value);
      if rec.None? || !Due(rec.value, now, timeout) then Processed(stored, None)
      else
        var contact := ContactOf(CustomerOf(stored.value), userEmail);
        if !Reachable(contact) then Processed(stored, None)
        else Processed(Some(MarkNotified(stored.value)), Some(Notice(contact, rec.value)))
  }

  /** What a scan did: the new `vambe_last_cart_check`, the selected rows afterwards, and the notices by session key. */
  datatype Scanned = Scanned(lastCheck: int, rows: map<string, Option<SessionData>>, notices: map<string, Notice>)

  /**
   * `process_abandoned_carts` over the rows the session query selected
   * (by key). Each row is processed on its own and only its own row is
   * written, so the order of the rows does not matter.
   */
  function ProcessAbandonedCarts(rows: map<string, Option<SessionData>>, now: int, timeout: int, userEmail: string -> Option<string>): (r: Scanned)
    ensures r.lastCheck == now
    ensures r.rows.Keys == rows.Keys
    ensures forall k :: k in r.notices <==> k in rows && ProcessSingleSession(rows[k], now, timeout, userEmail).notice.Some?
    ensures forall k :: k in rows && k !in r.notices ==> r.rows[k] == rows[k]
    ensures forall k :: k in rows ==> r.rows[k] == ProcessSingleSession(rows[k], now, timeout, userEmail).value
    ensures forall k :: k in r.notices ==> r.notices[k] == ProcessSingleSession(rows[k], now, timeout, userEmail).notice.value
  {
    var done := map k | k in rows :: ProcessSingleSession(rows[k], now, timeout, userEmail);
    Scanned(now,
            map k | k in rows :: done[k].value,
            map k | k in rows && done[k].notice.Some? :: done[k].notice.value)
  }

  // ---------------------------------------------------------------------
  // Properties.

  /** Change tracking does nothing without a session, without a cart, or with an empty cart. */
  lemma NoSessionNoCartNoChange(session: Option<SessionData>, cart: Option<seq<CartLine>>, now: int)
    requires session.None? || cart.None? || cart == Some([])
    ensures TrackCartChanges(session, cart, now) == Tracked(session, false)
  {
  }

  /** A cart that differs from the record (or no record) resets it: fresh contents, `now`, not notified, even after a notification. */
  lemma ChangeRearms(s: SessionData, cart: seq<CartLine>, now: int)
    requires |cart| > 0
    requires RecordOf(s).None? || RecordOf(s).value.contents != cart
    ensures TrackCartChanges(Some(s), Some(cart), now).webhookFired
    ensures RecordOf(TrackCartChanges(Some(s), Some(cart), now).session.value) == Some(Tracking(cart, now, false))
  {
  }

  /** Unchanged contents keep the record as it is: `last_activity` and `notification_sent` included. */
  lemma UnchangedKeepsRecord(s: SessionData, cart: seq<CartLine>, now: int)
    requires RecordOf(s).Some? && RecordOf(s).value.contents == cart
    ensures TrackCartChanges(Some(s), Some(cart), now) == Tracked(Some(s), false)
  {
  }

  /** Tracking the same cart twice is tracking it once, whenever the second call happens. */
  lemma TrackIdempotent(session: Option<SessionData>, cart: Option<seq<CartLine>>, now: int, later: int)
    ensures var once := TrackCartChanges(session, cart, now);
      TrackCartChanges(once.session, cart, later) == Tracked(once.session, false)
  {
    var once := TrackCartChanges(session, cart, now);
    if once.webhookFired {
      assert RecordOf(once.session.value) == Some(Tracking(cart.value, now, false));
    }
  }

  /** Clearing keeps every other session value. */
  lemma ClearKeepsOthers(s: SessionData, k: string)
    requires k in s && k != TrackingKey
    ensures k in ClearAbandonedCart(Some(s)).value && ClearAbandonedCart(Some(s)).value[k] == s[k]
  {
  }

  /** After a new order, the next cart change starts a fresh record. */
  lemma ClearThenTrackStartsFresh(s: SessionData, cart: seq<CartLine>, now: int)
    requires |cart| > 0
    ensures var t := TrackCartChanges(ClearAbandonedCart(Some(s)), Some(cart), now);
      t.webhookFired && RecordOf(t.session.value) == Some(Tracking(cart, now, false))
  {
  }

  /** A notified session is never notified again, at any later time, until a cart change re-arms it. */
  lemma NoRenotify(stored: Option<SessionData>, now: int, timeout: int, later: int, userEmail: string -> Option<string>)
    ensures var first := ProcessSingleSession(stored, now, timeout, userEmail);
      first.notice.Some? ==> ProcessSingleSession(first.value, later, timeout, userEmail).notice.None?
  {
  }

  /** A scan notifies a row at most once: a second scan, at any later time, sends nothing for the rows the first one notified. */
  lemma ScanNoRenotify(rows: map<string, Option<SessionData>>, now: int, later: int, timeout: int, userEmail: string -> Option<string>)
    ensures var first := ProcessAbandonedCarts(rows, now, timeout, userEmail);
      var second := ProcessAbandonedCarts(first.rows, later, timeout, userEmail);
      forall k :: k in first.notices ==> k !in second.notices
  {
    var first := ProcessAbandonedCarts(rows, now, timeout, userEmail);
    forall k | k in first.notices
      ensures ProcessSingleSession(first.rows[k], later, timeout, userEmail).notice.None?
    {
      NoRenotify(rows[k], now, timeout, later, userEmail);
    }
  }

  /** A customer with neither phone nor email (own or the registered user's) is never notified, and the row stays as it was. */
  lemma UnreachableNotNotified(stored: SessionData, now: int, timeout: int, userEmail: string -> Option<string>)
    requires Empty(CustomerOf(stored).phone) && Empty(CustomerOf(stored).email)
    requires Empty(CustomerOf(stored).id) || userEmail(CustomerOf(stored).id).None?
    ensures ProcessSingleSession(Some(stored), now, timeout, userEmail) == Processed(Some(stored), None)
  {
  }

  /** A phone number alone is enough for a due record to be notified and marked. */
  lemma PhoneSuffices(stored: SessionData, now: int, timeout: int, userEmail: string -> Option<string>)
    requires RecordOf(stored).Some? && Due(RecordOf(stored).value, now, timeout)
    requires !Empty(CustomerOf(stored).phone)
    ensures ProcessSingleSession(Some(stored), now, timeout, userEmail).notice.Some?
    ensures RecordOf(ProcessSingleSession(Some(stored), now, timeout, userEmail).value.value).value.notificationSent
  {
  }
}
