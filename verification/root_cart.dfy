/**
 * `add_to_cart_action` of the root plugin: items are written
 * `id[_variation][:qty]`; only simple and variable products are added, a
 * variable product's variation must exist and be purchasable, and
 * `added_to_cart` is keyed by the (filtered) product id.
 */
module RootCart {
  import opened Optional
  import opened Decimal
  import opened Php
  import opened UrlParams
  import opened Storefront

  /** `PRODUCT_TYPE_WHITELIST`: external products are not in it. */
  const Whitelist: seq<string> := [SimpleKind, VariableKind]

  /** The `vambe_cart` and checkout cookies live 3 days. */
  const CookieLifetime: int := 86400 * 3

  /** One parsed item: the filtered product id, the variation (0 when absent) and the quantity (1 when absent). */
  datatype Item = Item(product: nat, variation: nat, qty: nat)

  function ItemOf(h: Host, m: Match): Item
    requires WellFormed(m, RootSeps)
  {
    Item(h.productIdFilter(Absint(m.id)),
         if m.groups[0].Some? then Absint(m.groups[0].value) else 0,
         if m.groups[1].Some? then Absint(m.groups[1].value) else QtyMinimum)
  }

  function ItemsOf(h: Host, ms: seq<Match>): (items: seq<Item>)
    requires forall k :: 0 <= k < |ms| ==> WellFormed(ms[k], RootSeps)
    ensures |items| == |ms|
  {
    seq(|ms|, k requires 0 <= k < |ms| => ItemOf(h, ms[k]))
  }

  /** The items the loop visits for a sanitized parameter. */
  function Parse(h: Host, p: string): seq<Item> {
    ItemsOf(h, Scan(Trim(p), RootSeps))
  }

  /** The variation a variable product names is usable: it exists and is purchasable. */
  predicate UsableVariation(h: Host, v: nat) {
    v in h.catalog && h.catalog[v].purchasable
  }

  /**
   * One pass of the loop: a whitelisted product whose cart handler is simple
   * or variable, with a usable variation when the handler is variable and a
   * variation is named, that passes validation and the add.
   */
  function Attempt(h: Host, it: Item): Option<Added> {
    if it.product !in h.catalog then None
    else
      var kind := h.catalog[it.product].kind;
      if kind !in Whitelist then None
      else
        var handler := h.cartHandler(kind, it.product);
        if handler != SimpleKind && handler != VariableKind then None
        else if handler == VariableKind && it.variation != 0 && !UsableVariation(h, it.variation) then None
        else if h.validation(it.product, it.qty, it.variation) && h.addToCart(it.product, it.qty, it.variation)
        then Some(Added(it.product, CartLine(it.product, it.qty, it.variation)))
        else None
  }

  function Attempts(h: Host, items: seq<Item>): (r: seq<Option<Added>>)
    ensures |r| == |items|
  {
    seq(|items|, k requires 0 <= k < |items| => Attempt(h, items[k]))
  }

  /** What follows the loop: the cart cookie always; message, redirect and checkout cookie only after a successful add. */
  function Finish(h: Host, req: Request, st: AddState): (o: Outcome)
    ensures o.Handled? && o.lines == st.lines && o.added == st.added
  {
    var cart := Cookie(CartCookie, "true", CookieLifetime);
    if !st.something then Handled(st.lines, st.added, false, None, [cart])
    else
      var r := RedirectAfterAdd(h, st.added);
      var ids := if r.Some? then [] else CookieFrom(h, CheckoutCookie, req.checkoutId, CookieLifetime);
      Handled(st.lines, st.added, h.showMessage(st.added), r, [cart] + ids)
  }

  /** The whole request. */
  function AddToCartAction(h: Host, req: Request): (o: Outcome)
    ensures o.Ignored? <==> !Present(req.cartParam) || IsNumeric(req.cartParam.value)
    ensures o.Rejected? <==> !o.Ignored? && !RootCharset(h.sanitize(req.cartParam.value))
    ensures o.Handled? ==> |o.cookies| >= 1 && o.cookies[0] == Cookie(CartCookie, "true", CookieLifetime)
  {
    if !Present(req.cartParam) || IsNumeric(req.cartParam.value) then Ignored
    else
      var p := h.sanitize(req.cartParam.value);
      if !RootCharset(p) then Rejected
      else Finish(h, req, Fold(Attempts(h, Parse(h, p))))
  }

  // ---------------------------------------------------------------------
  // Properties.

  /** A single bare id such as "42" is numeric, so the request is ignored. */
  lemma BareIdIgnored(h: Host, req: Request)
    requires req.cartParam.Some? && Digits(req.cartParam.value)
    ensures AddToCartAction(h, req) == Ignored
  {
    DigitsAreNumeric(req.cartParam.value);
  }

  /** A rejected request leaves the cart as it was. */
  lemma RejectedKeepsCart(h: Host, req: Request, before: seq<CartLine>)
    requires Present(req.cartParam) && !IsNumeric(req.cartParam.value)
    requires !RootCharset(h.sanitize(req.cartParam.value))
    ensures AddToCartAction(h, req) == Rejected
    ensures CartAfter(before, AddToCartAction(h, req)) == before
  {
  }

  /** External products are never added here, whatever the hooks say. */
  lemma ExternalNeverAdded(h: Host, it: Item)
    requires it.product in h.catalog && h.catalog[it.product].kind == ExternalKind
    ensures Attempt(h, it) == None
  {
  }

  /** A variable product naming a missing or unpurchasable variation is skipped. */
  lemma BadVariationSkipped(h: Host, it: Item)
    requires it.product in h.catalog && h.catalog[it.product].kind in Whitelist
    requires h.cartHandler(h.catalog[it.product].kind, it.product) == VariableKind
    requires it.variation != 0 && !UsableVariation(h, it.variation)
    ensures Attempt(h, it) == None
  {
  }

  /** A successful add is recorded under its product id, with the parsed variation and quantity. */
  lemma AttemptShape(h: Host, it: Item)
    requires Attempt(h, it).Some?
    ensures it.product in h.catalog && h.catalog[it.product].kind in Whitelist
    ensures Attempt(h, it).value == Added(it.product, CartLine(it.product, it.qty, it.variation))
    ensures h.cartHandler(h.catalog[it.product].kind, it.product) == VariableKind && it.variation != 0 ==>
      UsableVariation(h, it.variation)
  {
  }

  /**
   * Two variations of one parent are both added to the cart, but collapse into
   * one `added_to_cart` entry: the parent's quantity is the one of the last
   * variation added.
   */
  lemma VariationsCollapse(h: Host, items: seq<Item>, i: nat, j: nat)
    requires i < j < |items|
    requires Attempt(h, items[i]).Some? && Attempt(h, items[j]).Some?
    requires items[i].product == items[j].product
    requires forall k :: j < k < |items| ==> Attempt(h, items[k]).None? || items[k].product != items[j].product
    ensures items[i].product in Fold(Attempts(h, items)).added
    ensures Fold(Attempts(h, items)).added[items[i].product] == items[j].qty
    ensures CartLine(items[i].product, items[i].qty, items[i].variation) in Fold(Attempts(h, items)).lines
    ensures CartLine(items[j].product, items[j].qty, items[j].variation) in Fold(Attempts(h, items)).lines
  {
    var atts := Attempts(h, items);
    FoldLines(atts);
    AttemptShape(h, items[i]);
    assert atts[i].Some? && atts[i].value.line == CartLine(items[i].product, items[i].qty, items[i].variation);
    assert atts[j].Some?;
    forall k | j < k < |atts| && atts[k].Some? ensures atts[k].value.key != atts[j].value.key {
      AttemptShape(h, items[k]);
    }
    AttemptShape(h, items[j]);
    FoldLastWins(atts, j);
  }

  // ---------------------------------------------------------------------
  // An independent writer of the parameter, and reading it back.

  /** An item as a link writes it: an id, an optional variation and an optional quantity. */
  datatype Order = Order(id: nat, variation: Option<nat>, qty: Option<nat>)

  function DecimalOf(n: Option<nat>): (r: Option<string>)
    ensures r.Some? ==> Digits(r.value)
  {
    if n.Some? then Some(ToDecimal(n.value)) else None
  }

  function MatchOf(o: Order): (m: Match)
    ensures WellFormed(m, RootSeps)
  {
    Match(ToDecimal(o.id), [DecimalOf(o.variation), DecimalOf(o.qty)])
  }

  function MatchesOf(os: seq<Order>): (ms: seq<Match>)
    ensures |ms| == |os| && forall k :: 0 <= k < |ms| ==> WellFormed(ms[k], RootSeps)
  {
    seq(|os|, k requires 0 <= k < |os| => MatchOf(os[k]))
  }

  /** The parameter written for `os`, e.g. `12_40:2,30,7:1`. */
  function Write(os: seq<Order>): string {
    Encode(MatchesOf(os), RootSeps)
  }

  /** The items a link for `os` should visit: variation 0 and quantity 1 by default, the id filtered. */
  function Intended(h: Host, os: seq<Order>): (items: seq<Item>)
    ensures |items| == |os|
  {
    seq(|os|, k requires 0 <= k < |os| =>
      Item(h.productIdFilter(os[k].id), os[k].variation.GetOr(0), os[k].qty.GetOr(QtyMinimum)))
  }

  lemma RootSepsGood()
    ensures GoodSeps(RootSeps)
    ensures forall k :: 0 <= k < |RootSeps| ==> !IsTrimChar(RootSeps[k])
  {
  }

  lemma AbsintOfOptional(n: Option<nat>, default: nat)
    ensures (if DecimalOf(n).Some? then Absint(DecimalOf(n).value) else default) == n.GetOr(default)
  {
    if n.Some? {
      AbsintOfDecimal(n.value);
    }
  }

  /** Parsing a written parameter yields the intended items, in order. */
  lemma ParseWrite(h: Host, os: seq<Order>)
    ensures Parse(h, Write(os)) == Intended(h, os)
  {
    var ms := MatchesOf(os);
    RootSepsGood();
    ScanOfTrim(Write(os), RootSeps);
    ScanEncode(ms, RootSeps);
    forall k | 0 <= k < |os| ensures ItemOf(h, ms[k]) == Intended(h, os)[k] {
      AbsintOfDecimal(os[k].id);
      AbsintOfOptional(os[k].variation, 0);
      AbsintOfOptional(os[k].qty, QtyMinimum);
    }
  }

  /** A parameter written for two or more items passes all three guards. */
  lemma WriteAccepted(os: seq<Order>)
    requires |os| >= 2
    ensures !Empty(Write(os)) && !IsNumeric(Write(os)) && RootCharset(Write(os))
  {
    var p := Write(os);
    EncodeHasComma(MatchesOf(os), RootSeps);
    if IsNumeric(p) {
      NumericHasNoComma(p);
    }
    assert p != "" && p != "0";
    EncodeChars(MatchesOf(os), RootSeps);
  }

  /** A link for two or more items, left alone by sanitizing, runs the loop over exactly the intended items. */
  lemma ActionOnWrite(h: Host, req: Request, os: seq<Order>)
    requires |os| >= 2 && req.cartParam == Some(Write(os))
    requires h.sanitize(Write(os)) == Write(os)
    ensures AddToCartAction(h, req) == Finish(h, req, Fold(Attempts(h, Intended(h, os))))
  {
    WriteAccepted(os);
    ParseWrite(h, os);
  }
}
