/**
 * What the two `add_to_cart_action` variants share: the WooCommerce host they
 * call into (catalog, filters, the cart's own `add_to_cart`), the request they
 * read, the loop that adds one parsed item after another, and what the
 * request leaves behind (cart, `added_to_cart` map, redirect, cookies).
 */
module Storefront {
  import opened Optional
  import opened Php

  /** The part of a `WC_Product` the add-to-cart loop looks at. */
  datatype Product = Product(kind: string, parent: nat, purchasable: bool)

  /** `wc_get_product`: products by id; a missing id is PHP's `false`. */
  type Catalog = map<nat, Product>

  const SimpleKind := "simple"
  const VariableKind := "variable"
  const ExternalKind := "external"
  const VariationKind := "variation"

  /** `PRODUCT_QTY_MINIMUM`: the quantity of an item written without one. */
  const QtyMinimum: nat := 1

  /**
   * The host's filters and actions, as the functions they compute:
   * `woocommerce_add_to_cart_product_id`, `add_multiple_to_cart_cart_handler`,
   * `woocommerce_add_to_cart_validation`, the success of `WC()->cart->add_to_cart`
   * (product, quantity, variation), `add_multiple_to_cart_show_success_message`,
   * `add_multiple_to_cart_after_add_redirect_url` ("" for `null`), the
   * `woocommerce_cart_redirect_after_add` option, `wc_get_cart_url()` and
   * `sanitize_text_field`.
   */
  datatype Host = Host(
    catalog: Catalog,
    productIdFilter: nat -> nat,
    cartHandler: (string, nat) -> string,
    validation: (nat, nat, nat) -> bool,
    addToCart: (nat, nat, nat) -> bool,
    showMessage: map<nat, nat> -> bool,
    redirectUrl: map<nat, nat> -> string,
    cartRedirectOption: string,
    cartUrl: string,
    sanitize: string -> string)

  /** The request parameters the action reads; `None` when absent. */
  datatype Request = Request(
    cartParam: Option<string>,
    checkoutId: Option<string>,
    assistantId: Option<string>,
    contactId: Option<string>)

  /** `! empty($x)` for an optional string. */
  predicate Present(x: Option<string>) {
    x.Some? && !Empty(x.value)
  }

  /** One `add_to_cart(product_id, quantity, variation_id)` call. */
  datatype CartLine = CartLine(product: nat, qty: nat, variation: nat)

  /** A successful add: the key it is recorded under in `added_to_cart`, and the line. */
  datatype Added = Added(key: nat, line: CartLine)

  /**
   * The loop's state: the successful `add_to_cart` calls so far, in order,
   * `$added_to_cart` and `$something_was_added_to_cart`. The calls are kept as
   * made; WooCommerce itself merges a repeated product/variation pair into one
   * cart line, which is not part of this model.
   */
  datatype AddState = AddState(lines: seq<CartLine>, added: map<nat, nat>, something: bool)

  /** The loop over the parsed items, given what each attempt yielded (`None`: skipped or refused). */
  function Fold(attempts: seq<Option<Added>>): (st: AddState)
    ensures |st.lines| <= |attempts|
  {
    if |attempts| == 0 then AddState([], map[], false)
    else
      var st := Fold(attempts[..|attempts| - 1]);
      match attempts[|attempts| - 1]
      case None => st
      case Some(a) => AddState(st.lines + [a.line], st.added[a.key := a.line.qty], true)
  }

  /** How many attempts succeeded. */
  function Count(attempts: seq<Option<Added>>): nat {
    if |attempts| == 0 then 0
    else Count(attempts[..|attempts| - 1]) + (if attempts[|attempts| - 1].Some? then 1 else 0)
  }

  /** The `k`-th attempt succeeded and no later success used the same key. */
  predicate LastForKey(attempts: seq<Option<Added>>, k: int) {
    0 <= k < |attempts| && attempts[k].Some?
    && forall j :: k < j < |attempts| && attempts[j].Some? ==> attempts[j].value.key != attempts[k].value.key
  }

  lemma PrefixIndex(attempts: seq<Option<Added>>, k: nat)
    requires k < |attempts|
    ensures attempts[..|attempts| - 1][..k] == attempts[..k]
  {
  }

  /** Something was added iff some attempt succeeded. */
  lemma {:induction false} FoldSomething(attempts: seq<Option<Added>>)
    ensures Fold(attempts).something <==> exists k :: 0 <= k < |attempts| && attempts[k].Some?
  {
    if |attempts| > 0 {
      var init := attempts[..|attempts| - 1];
      FoldSomething(init);
      if exists k :: 0 <= k < |init| && init[k].Some? {
        var k :| 0 <= k < |init| && init[k].Some?;
        assert attempts[k] == init[k];
      }
    }
  }

  /** One line per successful attempt, in order: the `k`-th success is line number `Count` of the attempts before it. */
  lemma {:induction false} FoldLines(attempts: seq<Option<Added>>)
    ensures |Fold(attempts).lines| == Count(attempts)
    ensures forall k :: 0 <= k < |attempts| && attempts[k].Some? ==>
      Count(attempts[..k]) < |Fold(attempts).lines| && Fold(attempts).lines[Count(attempts[..k])] == attempts[k].value.line
  {
    if |attempts| > 0 {
      var n := |attempts| - 1;
      var init := attempts[..n];
      FoldLines(init);
      assert attempts[..n] == init;
      forall k | 0 <= k < |attempts| && attempts[k].Some?
        ensures Count(attempts[..k]) < |Fold(attempts).lines|
        ensures Fold(attempts).lines[Count(attempts[..k])] == attempts[k].value.line
      {
        if k < n {
          assert init[k] == attempts[k];
          PrefixIndex(attempts, k);
        }
      }
    }
  }

  /** The keys of `added_to_cart` are exactly the keys of the successful attempts. */
  lemma {:induction false} FoldKeys(attempts: seq<Option<Added>>)
    ensures forall key :: key in Fold(attempts).added <==>
      exists k :: 0 <= k < |attempts| && attempts[k].Some? && attempts[k].value.key == key
  {
    if |attempts| > 0 {
      var n := |attempts| - 1;
      var init := attempts[..n];
      FoldKeys(init);
      forall key
        ensures key in Fold(attempts).added <==>
          exists k :: 0 <= k < |attempts| && attempts[k].Some? && attempts[k].value.key == key
      {
        if exists k :: 0 <= k < |init| && init[k].Some? && init[k].value.key == key {
          var k :| 0 <= k < |init| && init[k].Some? && init[k].value.key == key;
          assert attempts[k] == init[k];
        }
        if exists k :: 0 <= k < |attempts| && attempts[k].Some? && attempts[k].value.key == key {
          var k :| 0 <= k < |attempts| && attempts[k].Some? && attempts[k].value.key == key;
          if k < n {
            assert init[k] == attempts[k];
          }
        }
      }
    }
  }

  /** A key's quantity in `added_to_cart` is the one of the last success under that key: later adds overwrite. */
  lemma {:induction false} FoldLastWins(attempts: seq<Option<Added>>, k: nat)
    requires LastForKey(attempts, k)
    ensures attempts[k].value.key in Fold(attempts).added
    ensures Fold(attempts).added[attempts[k].value.key] == attempts[k].value.line.qty
  {
    var n := |attempts| - 1;
    if k < n {
      var init := attempts[..n];
      assert init[k] == attempts[k];
      assert LastForKey(init, k) by {
        forall j | k < j < |init| && init[j].Some? ensures init[j].value.key != init[k].value.key {
          assert init[j] == attempts[j];
        }
      }
      FoldLastWins(init, k);
    }
  }

  /** A cookie set by the response; clearing one sets it to "" with a lifetime in the past. */
  datatype Cookie = Cookie(name: string, value: string, lifetime: int)

  const CartCookie := "vambe_cart"
  const CheckoutCookie := "vambe_checkout_id"
  const AssistantCookie := "vambe_assistant_id"
  const ContactCookie := "vambe_contact_id"

  /** The lifetime of a cleared cookie: `time() - 3600`. */
  const ClearedLifetime: int := -3600

  /** Where the browser is sent after a successful add: the filtered URL when truthy, else the cart page when the option says so. */
  function RedirectAfterAdd(h: Host, added: map<nat, nat>): (r: Option<string>)
    ensures r.Some? <==> !Empty(h.redirectUrl(added)) || h.cartRedirectOption == "yes"
    ensures !Empty(h.redirectUrl(added)) ==> r == Some(h.redirectUrl(added))
    ensures Empty(h.redirectUrl(added)) && h.cartRedirectOption == "yes" ==> r == Some(h.cartUrl)
  {
    if !Empty(h.redirectUrl(added)) then Some(h.redirectUrl(added))
    else if h.cartRedirectOption == "yes" then Some(h.cartUrl)
    else None
  }

  /** The cookie `name` set from request parameter `x` when it is non-empty. */
  function CookieFrom(h: Host, name: string, x: Option<string>, lifetime: int): (r: seq<Cookie>)
    ensures |r| <= 1
    ensures |r| == 1 <==> Present(x)
    ensures |r| == 1 ==> r[0] == Cookie(name, h.sanitize(x.value), lifetime)
  {
    if Present(x) then [Cookie(name, h.sanitize(x.value), lifetime)] else []
  }

  /** What an add-to-cart request did. */
  datatype Outcome =
    | Ignored                 // empty or numeric parameter: returned at once
    | Rejected                // a character outside the allowed set: returned before touching the cart
    | Handled(
        lines: seq<CartLine>,       // the `add_to_cart` calls made after `empty_cart()`, in order
        added: map<nat, nat>,       // `$added_to_cart`
        message: bool,              // `wc_add_to_cart_message` shown
        redirect: Option<string>,   // `wp_safe_redirect` target, after which the script exits
        cookies: seq<Cookie>)       // cookies set, in order

  /** The cart once the request is done: untouched unless the request was handled, then the calls made on an emptied cart. */
  function CartAfter(before: seq<CartLine>, o: Outcome): (after: seq<CartLine>)
    ensures !o.Handled? ==> after == before
  {
    if o.Handled? then o.lines else before
  }
}
