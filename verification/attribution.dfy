/**
 * Order attribution, run when a new order is created: an order is Vambe's
 * when the `vambe_cart` cookie says so or its `_cart_data` mentions the
 * add-to-cart parameter; a Vambe order is tagged with the channel and the ids
 * the cookies carry; the cookies are cleared for every order.
 */
module Attribution {
  import opened Php
  import opened Storefront

  /** The request's cookie jar: `$_COOKIE`. */
  type Jar = map<string, string>

  /** An order's meta data, by key. */
  type Meta = map<string, string>

  const Marker := "add-vambe-cart"
  const UtmSourceKey := "_wc_order_attribution_utm_source"
  const ChannelKey := "channel"
  const ChannelName := "Vambe"

  /** The id cookies each variant copies into a Vambe order, under the same key, and then clears. */
  const RootIdCookies: seq<string> := [CheckoutCookie]
  const PackagedIdCookies: seq<string> := [CheckoutCookie, AssistantCookie, ContactCookie]

  /** `is_vambe_order`: the cart cookie is exactly "true", or the cart data is truthy and contains the marker. */
  predicate IsVambeOrder(jar: Jar, cartData: string) {
    (CartCookie in jar && jar[CartCookie] == "true")
    || (!Empty(cartData) && StrPos(cartData, Marker).Some?)
  }

  /** Copies each id cookie present in the jar into the meta data, sanitized; every other key keeps its value. */
  function CopyIds(meta: Meta, jar: Jar, ids: seq<string>, sanitize: string -> string): (r: Meta)
    ensures forall key :: key in r <==> key in meta || (key in ids && key in jar)
    ensures forall key :: key in ids && key in jar ==> r[key] == sanitize(jar[key])
    ensures forall key :: key in meta && !(key in ids && key in jar) ==> r[key] == meta[key]
  {
    if |ids| == 0 then meta
    else
      var m := CopyIds(meta, jar, ids[..|ids| - 1], sanitize);
      var last := ids[|ids| - 1];
      assert forall key :: key in ids <==> key in ids[..|ids| - 1] || key == last by {
        assert ids == ids[..|ids| - 1] + [last];
      }
      if last in jar then m[last := sanitize(jar[last])] else m
  }

  /** What `add_order_channel_metadata` leaves behind: the order's meta data and the cookies it clears. */
  datatype Attributed = Attributed(meta: Meta, cleared: seq<Cookie>)

  /** A cleared cookie: empty value, expiry an hour in the past. */
  function Clear(name: string): (c: Cookie)
    ensures c.name == name && c.value == "" && c.lifetime < 0
  {
    Cookie(name, "", ClearedLifetime)
  }

  /**
   * `add_order_channel_metadata` for a variant copying `ids`: a Vambe order
   * gets the source and channel tags and the id cookies it carries; every
   * order has the cart cookie and the id cookies cleared.
   */
  function AddChannelMetadata(ids: seq<string>, jar: Jar, cartData: string, meta: Meta, sanitize: string -> string): (r: Attributed)
    ensures |r.cleared| == 1 + |ids|
    ensures r.cleared[0] == Clear(CartCookie)
    ensures forall k :: 0 <= k < |ids| ==> r.cleared[k + 1] == Clear(ids[k])
    ensures !IsVambeOrder(jar, cartData) ==> r.meta == meta
  {
    var cleared := [Clear(CartCookie)] + seq(|ids|, k requires 0 <= k < |ids| => Clear(ids[k]));
    if IsVambeOrder(jar, cartData)
    then Attributed(CopyIds(meta[UtmSourceKey := ChannelName][ChannelKey := ChannelName], jar, ids, sanitize), cleared)
    else Attributed(meta, cleared)
  }

  /** The root variant: only the checkout id is copied. */
  function RootMetadata(jar: Jar, cartData: string, meta: Meta, sanitize: string -> string): (r: Attributed)
    ensures r.cleared == [Clear(CartCookie), Clear(CheckoutCookie)]
  {
    AddChannelMetadata(RootIdCookies, jar, cartData, meta, sanitize)
  }

  /** The packaged variant: checkout, assistant and contact ids are copied. */
  function PackagedMetadata(jar: Jar, cartData: string, meta: Meta, sanitize: string -> string): (r: Attributed)
    ensures r.cleared == [Clear(CartCookie), Clear(CheckoutCookie), Clear(AssistantCookie), Clear(ContactCookie)]
  {
    AddChannelMetadata(PackagedIdCookies, jar, cartData, meta, sanitize)
  }

  // ---------------------------------------------------------------------
  // Properties.

  /** An order is Vambe's iff the cart cookie is "true" or the marker occurs somewhere in the cart data. */
  lemma VambeOrderIff(jar: Jar, cartData: string)
    ensures IsVambeOrder(jar, cartData) <==>
      (CartCookie in jar && jar[CartCookie] == "true") || exists j :: OccursAt(cartData, Marker, j)
  {
    if exists j :: OccursAt(cartData, Marker, j) {
      var j :| OccursAt(cartData, Marker, j);
      assert cartData[j..j + |Marker|] == Marker;
      assert |cartData| >= |Marker|;
      assert !Empty(cartData) by {
        assert cartData != "0";
      }
    }
  }

  /** Cart data that embeds the link's parameter marks the order as Vambe's, whatever the cookies. */
  lemma CartDataMarks(jar: Jar, before: string, after: string)
    ensures IsVambeOrder(jar, before + Marker + after)
  {
    var d := before + Marker + after;
    assert d[|before|..|before| + |Marker|] == Marker;
    assert OccursAt(d, Marker, |before|);
    VambeOrderIff(jar, d);
  }

  /**
   * A Vambe order is tagged with the channel, and every id cookie present
   * in the jar is copied; meta data under any other key is unchanged.
   */
  lemma VambeOrderTagged(ids: seq<string>, jar: Jar, cartData: string, meta: Meta, sanitize: string -> string)
    requires IsVambeOrder(jar, cartData)
    requires UtmSourceKey !in ids && ChannelKey !in ids
    ensures var r := AddChannelMetadata(ids, jar, cartData, meta, sanitize);
      (forall key :: key in r.meta <==> key in meta || key == UtmSourceKey || key == ChannelKey || (key in ids && key in jar))
      && r.meta[UtmSourceKey] == ChannelName && r.meta[ChannelKey] == ChannelName
      && (forall key :: key in ids && key in jar ==> r.meta[key] == sanitize(jar[key]))
      && (forall key :: key in meta && key != UtmSourceKey && key != ChannelKey && !(key in ids && key in jar) ==>
            r.meta[key] == meta[key])
  {
  }

  /** An id cookie missing from the jar leaves that meta key as it was (absent or unchanged). */
  lemma MissingCookieNotCopied(ids: seq<string>, jar: Jar, cartData: string, meta: Meta, sanitize: string -> string, key: string)
    requires key !in jar && key != UtmSourceKey && key != ChannelKey
    ensures var r := AddChannelMetadata(ids, jar, cartData, meta, sanitize);
      (key in r.meta <==> key in meta) && (key in meta ==> r.meta[key] == meta[key])
  {
  }

  /** The packaged variant records everything the root variant does, and possibly the assistant and contact ids besides. */
  lemma PackagedExtendsRoot(jar: Jar, cartData: string, meta: Meta, sanitize: string -> string)
    ensures var root := RootMetadata(jar, cartData, meta, sanitize).meta;
      var packaged := PackagedMetadata(jar, cartData, meta, sanitize).meta;
      forall key :: key in root && key != AssistantCookie && key != ContactCookie ==>
        key in packaged && packaged[key] == root[key]
  {
    if IsVambeOrder(jar, cartData) {
      var root := RootMetadata(jar, cartData, meta, sanitize).meta;
      var packaged := PackagedMetadata(jar, cartData, meta, sanitize).meta;
      VambeOrderTagged(RootIdCookies, jar, cartData, meta, sanitize);
      VambeOrderTagged(PackagedIdCookies, jar, cartData, meta, sanitize);
      forall key | key in root && key != AssistantCookie && key != ContactCookie
        ensures key in packaged && packaged[key] == root[key]
      {
        assert key in PackagedIdCookies <==> key in RootIdCookies;
      }
    }
  }
}
