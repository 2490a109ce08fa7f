/**
 * The `vambe-stock` REST endpoint of the packaged plugin: reads the `ids`
 * parameter (a comma-separated string or a list), and answers with one stock
 * entry per requested id.
 */
module Stock {
  import opened Optional
  import opened Decimal
  import opened Php

  /** The stock fields a product or variation reports. */
  datatype StockInfo = StockInfo(manageStock: bool, quantity: Option<int>, status: string, inStock: bool)

  /** A product as the endpoint sees it: its type, its stock, and its available variations. */
  datatype StockProduct = StockProduct(kind: string, info: StockInfo, variations: seq<nat>)

  /** The shop: products by id, and the stock of a variation by id (`new WC_Product_Variation`). */
  datatype Shop = Shop(products: map<nat, StockProduct>, variationInfo: nat -> StockInfo)

  /** The `ids` request parameter: absent, a string, or a list of ids. */
  datatype IdsParam = Absent | Text(text: string) | List(ids: seq<nat>)

  /** One entry of the answer. */
  datatype Entry =
    | NotFound
    | VariableStock(variations: map<nat, StockInfo>)
    | ProductStock(kind: string, info: StockInfo)

  datatype Response = MissingIds | Stock(data: map<nat, Entry>)

  /** `empty($product_ids)`: absent, "", "0" or an empty list. */
  predicate IdsEmpty(p: IdsParam) {
    match p
    case Absent => true
    case Text(s) => Empty(s)
    case List(ids) => |ids| == 0
  }

  /** The ids the loop visits: a string is split on ',' and each part goes through `absint`; a list is used as it is. */
  function RequestedIds(p: IdsParam): (ids: seq<nat>)
    ensures p.Text? ==> |ids| == |Explode(p.text, ',')|
    ensures p.Text? ==> forall k :: 0 <= k < |ids| ==> ids[k] == Absint(Explode(p.text, ',')[k])
    ensures p.List? ==> ids == p.ids
  {
    match p
    case Absent => []
    case Text(s) =>
      var parts := Explode(s, ',');
      seq(|parts|, k requires 0 <= k < |parts| => Absint(parts[k]))
    case List(ids) => ids
  }

  /** The stock of each available variation, by variation id. */
  function VariationStock(shop: Shop, vs: seq<nat>): (m: map<nat, StockInfo>)
    ensures forall v :: v in m <==> v in vs
    ensures forall v :: v in m ==> m[v] == shop.variationInfo(v)
  {
    if |vs| == 0 then map[]
    else
      var init := vs[..|vs| - 1];
      assert vs == init + [vs[|vs| - 1]];
      VariationStock(shop, init)[vs[|vs| - 1] := shop.variationInfo(vs[|vs| - 1])]
  }

  /** The entry for one id. */
  function EntryFor(shop: Shop, id: nat): (e: Entry)
    ensures e.NotFound? <==> id !in shop.products
    ensures e.VariableStock? <==> id in shop.products && shop.products[id].kind == "variable"
    ensures e.VariableStock? ==> forall v :: v in e.variations <==> v in shop.products[id].variations
    ensures e.ProductStock? ==> e == ProductStock(shop.products[id].kind, shop.products[id].info)
  {
    if id !in shop.products then NotFound
    else
      var prod := shop.products[id];
      if prod.kind == "variable" then VariableStock(VariationStock(shop, prod.variations))
      else ProductStock(prod.kind, prod.info)
  }

  /** The loop: every visited id gets its entry. */
  function StockData(shop: Shop, ids: seq<nat>): (data: map<nat, Entry>)
    ensures forall id :: id in data <==> id in ids
    ensures forall id :: id in data ==> data[id] == EntryFor(shop, id)
  {
    if |ids| == 0 then map[]
    else
      var init := ids[..|ids| - 1];
      assert ids == init + [ids[|ids| - 1]];
      StockData(shop, init)[ids[|ids| - 1] := EntryFor(shop, ids[|ids| - 1])]
  }

  /** `get_products_stock`. */
  function GetProductsStock(shop: Shop, p: IdsParam): (r: Response)
    ensures r.MissingIds? <==> IdsEmpty(p)
    ensures r.Stock? ==> forall id :: id in r.data <==> id in RequestedIds(p)
    ensures r.Stock? ==> forall id :: id in r.data && id !in shop.products ==> r.data[id] == NotFound
  {
    if IdsEmpty(p) then MissingIds
    else Stock(StockData(shop, RequestedIds(p)))
  }

  // ---------------------------------------------------------------------
  // Properties.

  /** The ids written as a comma-separated list of decimals. */
  function IdsText(ids: seq<nat>): string
    requires |ids| >= 1
  {
    Implode(seq(|ids|, k requires 0 <= k < |ids| => ToDecimal(ids[k])), ',')
  }

  /** Reading back a comma-separated list of decimal ids gives those ids, in order. */
  lemma RequestedIdsOfText(ids: seq<nat>)
    requires |ids| >= 1
    ensures RequestedIds(Text(IdsText(ids))) == ids
  {
    var parts := seq(|ids|, k requires 0 <= k < |ids| => ToDecimal(ids[k]));
    ExplodeImplode(parts, ',');
    forall k | 0 <= k < |ids| ensures RequestedIds(Text(IdsText(ids)))[k] == ids[k] {
      AbsintOfDecimal(ids[k]);
    }
  }

  /** A lone "0" is empty to PHP: asking for product 0 alone is answered as if no ids were given. */
  lemma ZeroAloneIsMissing(shop: Shop)
    ensures IdsText([0]) == "0"
    ensures GetProductsStock(shop, Text(IdsText([0]))) == MissingIds
  {
  }

  /** Any other written id list is answered with an entry for exactly those ids. */
  lemma StockOfText(shop: Shop, ids: seq<nat>)
    requires |ids| >= 1 && ids != [0]
    ensures GetProductsStock(shop, Text(IdsText(ids))).Stock?
    ensures forall id :: id in GetProductsStock(shop, Text(IdsText(ids))).data <==> id in ids
  {
    RequestedIdsOfText(ids);
    var s := IdsText(ids);
    if Empty(s) {
      assert ',' !in s;
      assert Explode(s, ',') == [s];
      assert Absint(s) == 0 by {
        AbsintOfDigits(s);
      }
      assert false;
    }
  }

  /**
   * A part that starts with neither a digit, a sign, white space nor a decimal
   * point followed by a digit goes through `absint` to 0: "7,abc" also asks for product 0.
   */
  lemma NonNumericPartIsZero(part: string)
    requires |part| > 0 && !IsDigit(part[0]) && !IsSign(part[0]) && !IsSpace(part[0])
    requires !(part[0] == '.' && |part| > 1 && IsDigit(part[1]))
    ensures Absint(part) == 0
  {
    assert SpanSpaces(part, 0) == 0;
    assert SpanDigits(part, 0) == 0;
    if part[0] == '.' {
      assert SpanDigits(part, 1) == 1;
    }
  }

  /** A part in exponent notation is scaled: "1e3" asks for product 1000, not 1. */
  lemma ExponentIdIsScaled()
    ensures RequestedIds(Text("1e3")) == [1000]
  {
    assert ',' !in "1e3";
    assert Explode("1e3", ',') == ["1e3"];
    ExponentExample();
  }
}
