/** Which product each scan selects, defined directly (the last match for the
    Lambda selectors, the first General Purpose product for S3), and the
    lemmas that the loops of `fetch_live_prices` compute exactly that. */
module Selection {
  import opened Wrappers
  import opened Json
  import opened Catalog
  import Search
  import Text

  /** `product` has a usage type and `sel` matches it. */
  predicate Selected(product: Json, sel: Selector)
  {
    UsageType(product).Some? && Selects(sel, UsageType(product).value)
  }

  /** A Lambda product the loop gets past: its usage type can be read, and if
      either selector matches, its sku has a price. */
  predicate LambdaProductOk(doc: Json, product: Json, parse: PriceParser)
  {
    && UsageType(product).Some?
    && (Selected(product, Requests) || Selected(product, Duration) ==> SkuPrice(doc, product, parse).Some?)
  }

  /** The Lambda loop gets past every product. */
  predicate LambdaProductsOk(doc: Json, products: seq<Json>, parse: PriceParser)
  {
    forall i :: 0 <= i < |products| ==> LambdaProductOk(doc, products[i], parse)
  }

  /** The test that `sel` applies to each product. */
  function SelectedBy(sel: Selector): Json -> bool
  {
    product => Selected(product, sel)
  }

  /** The position of the last product that `sel` selects. */
  function LastSelected(products: seq<Json>, sel: Selector): Option<nat>
  {
    Search.LastWhere(products, SelectedBy(sel))
  }

  /** The price each product is read at. */
  function PriceOf(doc: Json, parse: PriceParser): Json -> Option<real>
  {
    product => SkuPrice(doc, product, parse)
  }

  /** Every product `sel` selects among well-formed products has a price. */
  lemma SelectedPriced(doc: Json, products: seq<Json>, parse: PriceParser, sel: Selector)
    requires LambdaProductsOk(doc, products, parse)
    ensures Search.DefinedWhere(products, SelectedBy(sel), PriceOf(doc, parse))
  {
  }

  /** The price the Lambda loop should leave in the field of `sel`: that of
      the last selected product, or `default` when none is selected. */
  function LastPrice(doc: Json, products: seq<Json>, parse: PriceParser, sel: Selector, default: real): real
    requires LambdaProductsOk(doc, products, parse)
  {
    SelectedPriced(doc, products, parse, sel);
    Search.LastValue(products, SelectedBy(sel), PriceOf(doc, parse), default)
  }

  /** Every product of a suffix of well-formed products is well formed. */
  lemma LambdaProductsOkTail(doc: Json, products: seq<Json>, parse: PriceParser)
    requires products != []
    requires LambdaProductsOk(doc, products, parse)
    ensures LambdaProductsOk(doc, products[1..], parse)
  {
  }

  lemma LastPriceCons(doc: Json, products: seq<Json>, parse: PriceParser, sel: Selector, default: real)
    requires products != []
    requires LambdaProductsOk(doc, products, parse)
    ensures LambdaProductsOk(doc, products[1..], parse)
    ensures LastPrice(doc, products, parse, sel, default)
         == LastPrice(doc, products[1..], parse, sel,
              if Selected(products[0], sel) then SkuPrice(doc, products[0], parse).value else default)
  {
    LambdaProductsOkTail(doc, products, parse);
    SelectedPriced(doc, products, parse, sel);
    Search.LastValueCons(products, SelectedBy(sel), PriceOf(doc, parse), default);
  }

  /** One Lambda step succeeds exactly on a product the loop gets past, and
      sets each field whose selector matches to the product's price. */
  lemma LambdaStepEffect(doc: Json, product: Json, parse: PriceParser, p: Prices)
    ensures LambdaStep(doc, product, parse, p).Some? <==> LambdaProductOk(doc, product, parse)
    ensures LambdaProductOk(doc, product, parse) ==>
      LambdaStep(doc, product, parse, p) == Some(p.(
        lambdaRequest := if Selected(product, Requests) then SkuPrice(doc, product, parse).value else p.lambdaRequest,
        lambdaGbS := if Selected(product, Duration) then SkuPrice(doc, product, parse).value else p.lambdaGbS))
  {
  }

  /** The Lambda loop fails exactly when some product, anywhere in the
      sequence, cannot be got past: every product is inspected. */
  lemma {:induction false} ScanLambdaSucceeds(doc: Json, products: seq<Json>, parse: PriceParser, p: Prices)
    ensures ScanLambda(doc, products, parse, p).Some? <==> LambdaProductsOk(doc, products, parse)
  {
    if products != [] {
      LambdaStepEffect(doc, products[0], parse, p);
      var tail := products[1..];
      assert forall i :: 0 <= i < |tail| ==> tail[i] == products[i + 1];
      match LambdaStep(doc, products[0], parse, p)
      case None =>
      case Some(next) =>
        ScanLambdaSucceeds(doc, tail, parse, next);
        assert (forall i :: 0 <= i < |products| ==> LambdaProductOk(doc, products[i], parse))
           <==> (forall i :: 0 <= i < |tail| ==> LambdaProductOk(doc, tail[i], parse)) by {
          if forall i :: 0 <= i < |tail| ==> LambdaProductOk(doc, tail[i], parse) {
            forall i | 0 <= i < |products| ensures LambdaProductOk(doc, products[i], parse) {
              if i > 0 { assert products[i] == tail[i - 1]; }
            }
          }
        }
    }
  }

  /** Last match wins: when the loop succeeds, `lambdaRequest` is the price of
      the last product whose usage type ends in "Requests" and `lambdaGbS`
      that of the last one containing "Duration"; a selector that matches
      nothing leaves its field as it was, and no other field changes. */
  lemma {:induction false} ScanLambdaLastMatchWins(doc: Json, products: seq<Json>, parse: PriceParser, p: Prices)
    requires LambdaProductsOk(doc, products, parse)
    ensures ScanLambda(doc, products, parse, p) == Some(p.(
      lambdaRequest := LastPrice(doc, products, parse, Requests, p.lambdaRequest),
      lambdaGbS := LastPrice(doc, products, parse, Duration, p.lambdaGbS)))
  {
    if products != [] {
      LambdaStepEffect(doc, products[0], parse, p);
      var next := LambdaStep(doc, products[0], parse, p).value;
      LastPriceCons(doc, products, parse, Requests, p.lambdaRequest);
      LastPriceCons(doc, products, parse, Duration, p.lambdaGbS);
      ScanLambdaLastMatchWins(doc, products[1..], parse, next);
    }
  }

  /** A malformed Lambda product causes failure wherever it stands, even after
      every selector has already matched. */
  lemma ScanLambdaInspectsAll(doc: Json, before: seq<Json>, product: Json, after: seq<Json>, parse: PriceParser, p: Prices)
    requires !LambdaProductOk(doc, product, parse)
    ensures ScanLambda(doc, before + [product] + after, parse, p) == None
  {
    var products := before + [product] + after;
    assert products[|before|] == product;
    ScanLambdaSucceeds(doc, products, parse, p);
  }

  /** A product whose attributes have no usage type reads as usage type "",
      which neither selector matches: the step changes nothing and does not
      fail, whatever the product's sku and the document's terms. */
  lemma MissingUsageTypeIsNoMatch(doc: Json, product: Json, attributes: Json, parse: PriceParser, p: Prices)
    requires Member(product, "attributes") == Some(attributes) && attributes.Obj?
    requires forall i :: 0 <= i < |attributes.fields| ==> attributes.fields[i].0 != "usagetype"
    ensures UsageType(product) == Some("")
    ensures LambdaProductOk(doc, product, parse)
    ensures LambdaStep(doc, product, parse, p) == Some(p)
  {
    FindSpec(attributes.fields, "usagetype");
    assert !Text.Contains("", "Duration");
  }

  /** A product without attributes, or a selected product without a sku,
      is one the Lambda loop cannot get past. */
  lemma MissingAttributesOrSkuFails(doc: Json, product: Json, parse: PriceParser, sel: Selector)
    requires Member(product, "attributes").None? || (Selected(product, sel) && Member(product, "sku").None?)
    ensures !LambdaProductOk(doc, product, parse)
  {
  }

  /** The two tests are independent: a product both of whose selectors match
      sets both fields to its price. */
  lemma OneProductSetsBoth(doc: Json, product: Json, parse: PriceParser, p: Prices, price: real)
    requires Selected(product, Requests) && Selected(product, Duration)
    requires SkuPrice(doc, product, parse) == Some(price)
    ensures LambdaStep(doc, product, parse, p) == Some(p.(lambdaRequest := price, lambdaGbS := price))
  {
  }

  /** The storage class test holds. */
  predicate GeneralPurpose(product: Json)
  {
    IsGeneralPurpose(product) == Some(true)
  }

  /** The position of the first General Purpose product. */
  function FirstGeneralPurpose(products: seq<Json>): Option<nat>
  {
    Search.FirstWhere(products, GeneralPurpose)
  }

  /** How many products the S3 loop looks at: up to and including the first
      General Purpose one, or all of them. */
  function S3Inspected(products: seq<Json>): (n: nat)
    ensures n <= |products|
  {
    Search.FirstWhereSpec(products, GeneralPurpose);
    match FirstGeneralPurpose(products)
    case None => |products|
    case Some(k) => k + 1
  }

  /** The S3 loop gets through: every product it looks at has readable
      attributes, and the first General Purpose one, if any, has a price. */
  predicate S3ProductsOk(doc: Json, products: seq<Json>, parse: PriceParser)
  {
    && (forall i :: 0 <= i < S3Inspected(products) ==> IsGeneralPurpose(products[i]).Some?)
    && match FirstGeneralPurpose(products)
       case None => true
       case Some(k) => k < |products| && SkuPrice(doc, products[k], parse).Some?
  }

  /** The price the S3 loop should leave in `s3GbMonth`. */
  function FirstPrice(doc: Json, products: seq<Json>, parse: PriceParser, default: real): real
    requires S3ProductsOk(doc, products, parse)
  {
    match FirstGeneralPurpose(products)
    case None => default
    case Some(k) => SkuPrice(doc, products[k], parse).value
  }

  /** First match wins: the S3 loop succeeds exactly when the products it
      looks at are well formed, and then sets `s3GbMonth` to the price of the
      first General Purpose product (keeping it when there is none) and
      changes nothing else. */
  lemma {:induction false} ScanS3FirstMatchWins(doc: Json, products: seq<Json>, parse: PriceParser, p: Prices)
    ensures ScanS3(doc, products, parse, p).Some? <==> S3ProductsOk(doc, products, parse)
    ensures S3ProductsOk(doc, products, parse) ==>
      ScanS3(doc, products, parse, p) == Some(p.(s3GbMonth := FirstPrice(doc, products, parse, p.s3GbMonth)))
  {
    if products != [] {
      var tail := products[1..];
      assert forall j :: 1 <= j < |products| ==> products[j] == tail[j - 1];
      if IsGeneralPurpose(products[0]) == Some(false) {
        ScanS3FirstMatchWins(doc, tail, parse, p);
        var first := FirstGeneralPurpose(products);
        assert first.Some? ==> first.value == FirstGeneralPurpose(tail).value + 1;
        assert S3Inspected(products) == S3Inspected(tail) + 1;
        assert S3ProductsOk(doc, products, parse) <==> S3ProductsOk(doc, tail, parse) by {
          if S3ProductsOk(doc, tail, parse) {
            forall i | 0 <= i < S3Inspected(products) ensures IsGeneralPurpose(products[i]).Some? {
              if i > 0 { assert products[i] == tail[i - 1]; }
            }
          }
        }
      }
    }
  }

  /** Early exit: nothing after the first General Purpose product is looked
      at, so a malformed later product cannot make the scan fail. */
  lemma {:induction false} ScanS3StopsAtMatch(doc: Json, before: seq<Json>, product: Json, after: seq<Json>, parse: PriceParser, p: Prices)
    requires GeneralPurpose(product)
    ensures ScanS3(doc, before + [product] + after, parse, p) == ScanS3(doc, before + [product], parse, p)
  {
    if before == [] {
      assert ([product] + after)[0] == product && [product][0] == product;
    } else {
      assert (before + [product] + after)[0] == before[0] && (before + [product])[0] == before[0];
      assert (before + [product] + after)[1..] == before[1..] + [product] + after;
      assert (before + [product])[1..] == before[1..] + [product];
      ScanS3StopsAtMatch(doc, before[1..], product, after, parse, p);
    }
  }
}
