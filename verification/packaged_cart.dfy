/**
 * `add_to_cart_action` of the packaged plugin (vambe_for_wc): the
 * `add-vambe-cart` parameter lists items as `id[:qty]`, separated by anything
 * that is not a digit (commas in practice). A variation id is added under its
 * parent; `added_to_cart` is keyed by the id as written.
 */
module PackagedCart {
  import opened Optional
  import opened Decimal
  import opened Php
  import opened UrlParams
  import opened Storefront

  /** `PRODUCT_TYPE_WHITELIST`. */
  const Whitelist: seq<string> := [SimpleKind, VariableKind, ExternalKind]

  /** The `vambe_cart` and id cookies live 7 days. */
  const CookieLifetime: int := 86400 * 7

  /** One parsed item: `absint` of the id and of the quantity (1 when absent). */
  datatype Item = Item(id: nat, qty: nat)

  function ItemOf(m: Match): Item
    requires WellFormed(m, PackagedSeps)
  {
    Item(Absint(m.id), if m.groups[0].Some? then Absint(m.groups[0].value) else QtyMinimum)
  }

  function ItemsOf(ms: seq<Match>): (items: seq<Item>)
    requires forall k :: 0 <= k < |ms| ==> WellFormed(ms[k], PackagedSeps)
    ensures |items| == |ms|
  {
    seq(|ms|, k requires 0 <= k < |ms| => ItemOf(ms[k]))
  }

  /** The items the loop visits for a sanitized parameter. */
  function Parse(p: string): seq<Item> {
    ItemsOf(Scan(Trim(p), PackagedSeps))
  }

  /** One pass of the loop: the product must exist, be whitelisted or a variation, and pass validation and the add. */
  function Attempt(h: Host, it: Item): Option<Added> {
    if it.id !in h.catalog then None
    else
      var prod := h.catalog[it.id];
      var line := if prod.kind == VariationKind then CartLine(prod.parent, it.qty, it.id) else CartLine(it.id, it.qty, 0);
      if (prod.kind in Whitelist || prod.kind == VariationKind)
         && h.validation(line.product, line.qty, line.variation)
         && h.addToCart(line.product, line.qty, line.variation)
      then Some(Added(it.id, line))
      else None
  }

  function Attempts(h: Host, items: seq<Item>): (r: seq<Option<Added>>)
    ensures |r| == |items|
  {
    seq(|items|, k requires 0 <= k < |items| => Attempt(h, items[k]))
  }

  /** What follows the loop: the cart cookie always; message, redirect and id cookies only after a successful add. */
  function Finish(h: Host, req: Request, st: AddState): (o: Outcome)
    ensures o.Handled? && o.lines == st.lines && o.added == st.added
  {
    var cart := Cookie(CartCookie, "true", CookieLifetime);
    if !st.something then Handled(st.lines, st.added, false, None, [cart])
    else
      var r := RedirectAfterAdd(h, st.added);
      var ids :=
        if r.Some? then []
        else (CookieFrom(h, CheckoutCookie, req.checkoutId, CookieLifetime)
              + CookieFrom(h, AssistantCookie, req.assistantId, CookieLifetime)
              + CookieFrom(h, ContactCookie, req.contactId, CookieLifetime));
      Handled(st.lines, st.added, h.showMessage(st.added), r, [cart] + ids)
  }

  /** The whole request. */
  function AddToCartAction(h: Host, req: Request): (o: Outcome)
    ensures o.Ignored? <==> !Present(req.cartParam) || IsNumeric(req.cartParam.value)
    ensures o.Rejected? <==> !o.Ignored? && !PackagedCharset(h.sanitize(req.cartParam.value))
    ensures o.Handled? ==> |o.cookies| >= 1 && o.cookies[0] == Cookie(CartCookie, "true", CookieLifetime)
  {
    if !Present(req.cartParam) || IsNumeric(req.cartParam.value) then Ignored
    else
      var p := h.sanitize(req.cartParam.value);
      if !PackagedCharset(p) then Rejected
      else Finish(h, req, Fold(Attempts(h, Parse(p))))
  }

  // ---------------------------------------------------------------------
  // Properties.

  /** A single bare id such as "42" is numeric, so the request is ignored. */
  lemma BareIdIgnored(h: Host, req: Request)
    requires req.cartParam.Some? && Digits(req.cartParam.value)
    ensures AddToCartAction(h, req) == Ignored
  {
    DigitsAreNumeric(req.cartParam.value);
  }

  /** A rejected or ignored request leaves the cart as it was. */
  lemma RejectedKeepsCart(h: Host, req: Request, before: seq<CartLine>)
    requires Present(req.cartParam) && !IsNumeric(req.cartParam.value)
    requires !PackagedCharset(h.sanitize(req.cartParam.value))
    ensures AddToCartAction(h, req) == Rejected
    ensures CartAfter(before, AddToCartAction(h, req)) == before
  {
  }

  /** An item is added only when its product exists and is whitelisted or a variation; a variation goes in under its parent. */
  lemma AttemptShape(h: Host, it: Item)
    requires Attempt(h, it).Some?
    ensures it.id in h.catalog
    ensures h.catalog[it.id].kind in Whitelist || h.catalog[it.id].kind == VariationKind
    ensures Attempt(h, it).value.key == it.id && Attempt(h, it).value.line.qty == it.qty
    ensures h.catalog[it.id].kind == VariationKind ==>
      Attempt(h, it).value.line == CartLine(h.catalog[it.id].parent, it.qty, it.id)
    ensures h.catalog[it.id].kind != VariationKind ==> Attempt(h, it).value.line == CartLine(it.id, it.qty, 0)
  {
  }

  /** A grouped or other non-whitelisted product is never added, whatever the hooks say. */
  lemma OtherKindsSkipped(h: Host, it: Item)
    requires it.id in h.catalog
    requires h.catalog[it.id].kind !in Whitelist && h.catalog[it.id].kind != VariationKind
    ensures Attempt(h, it) == None
  {
  }

  /** The id cookies are set only after a successful add that does not redirect, each iff its parameter is non-empty. */
  lemma IdCookies(h: Host, req: Request, st: AddState)
    ensures var o := Finish(h, req, st);
      o.Handled? && o.cookies[0] == Cookie(CartCookie, "true", CookieLifetime)
      && (|o.cookies| > 1 ==> st.something && o.redirect.None?)
      && (st.something && o.redirect.None? ==>
            |o.cookies| == 1 + (if Present(req.checkoutId) then 1 else 0)
                             + (if Present(req.assistantId) then 1 else 0)
                             + (if Present(req.contactId) then 1 else 0))
  {
  }

  // ---------------------------------------------------------------------
  // An independent writer of the parameter, and reading it back.

  /** An item as a link writes it: an id and an optional quantity. */
  datatype Order = Order(id: nat, qty: Option<nat>)

  function MatchOf(o: Order): (m: Match)
    ensures WellFormed(m, PackagedSeps)
  {
    var q := if o.qty.Some? then Some(ToDecimal(o.qty.value)) else None;
    Match(ToDecimal(o.id), [q])
  }

  function MatchesOf(os: seq<Order>): (ms: seq<Match>)
    ensures |ms| == |os| && forall k :: 0 <= k < |ms| ==> WellFormed(ms[k], PackagedSeps)
  {
    seq(|os|, k requires 0 <= k < |os| => MatchOf(os[k]))
  }

  /** The parameter written for `os`, e.g. `12:2,30,7:1`. */
  function Write(os: seq<Order>): string {
    Encode(MatchesOf(os), PackagedSeps)
  }

  /** The items a link for `os` should add: the quantity defaults to `PRODUCT_QTY_MINIMUM`. */
  function Intended(os: seq<Order>): (items: seq<Item>)
    ensures |items| == |os|
  {
    seq(|os|, k requires 0 <= k < |os| => Item(os[k].id, os[k].qty.GetOr(QtyMinimum)))
  }

  lemma PackagedSepsGood()
    ensures GoodSeps(PackagedSeps)
    ensures forall k :: 0 <= k < |PackagedSeps| ==> !IsTrimChar(PackagedSeps[k])
  {
  }

  /** Parsing a written parameter yields the intended items, in order. */
  lemma ParseWrite(os: seq<Order>)
    ensures Parse(Write(os)) == Intended(os)
  {
    var ms := MatchesOf(os);
    PackagedSepsGood();
    ScanOfTrim(Write(os), PackagedSeps);
    ScanEncode(ms, PackagedSeps);
    forall k | 0 <= k < |os| ensures ItemOf(ms[k]) == Intended(os)[k] {
      AbsintOfDecimal(os[k].id);
      if os[k].qty.Some? {
        AbsintOfDecimal(os[k].qty.value);
      }
    }
  }

  /** A written parameter passes the character check. */
  lemma WriteCharset(os: seq<Order>)
    ensures PackagedCharset(Write(os))
  {
    EncodeChars(MatchesOf(os), PackagedSeps);
  }

  /** A parameter written for two or more items passes all three guards: non-empty, not numeric, allowed characters. */
  lemma WriteAccepted(os: seq<Order>)
    requires |os| >= 2
    ensures !Empty(Write(os)) && !IsNumeric(Write(os)) && PackagedCharset(Write(os))
  {
    var p := Write(os);
    EncodeHasComma(MatchesOf(os), PackagedSeps);
    if IsNumeric(p) {
      NumericHasNoComma(p);
    }
    assert p != "" && p != "0";
    WriteCharset(os);
  }

  /**
   * A link for two or more items, left alone by sanitizing, is handled: the
   * loop runs over exactly the intended items.
   */
  lemma ActionOnWrite(h: Host, req: Request, os: seq<Order>)
    requires |os| >= 2 && req.cartParam == Some(Write(os))
    requires h.sanitize(Write(os)) == Write(os)
    ensures AddToCartAction(h, req) == Finish(h, req, Fold(Attempts(h, Intended(os))))
  {
    WriteAccepted(os);
    ParseWrite(os);
  }
}
