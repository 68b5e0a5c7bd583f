/** `fetch_live_prices` as the source runs it: one pass over the Lambda
    products that overwrites entries of the price record, one pass over the
    S3 products that stops at the first match, and any failure turning into
    the fallback record. Each method is proved to compute the functions of
    module Catalog. */
module Fetcher {
  import opened Wrappers
  import opened Json
  import opened Catalog
  import Text

  /** The `try` block. Each `:-` leaves with None where the source raises. */
  method LiveFetch(net: Network, regionCode: string, parse: PriceParser) returns (r: Option<Prices>)
    ensures r == LivePrices(net, regionCode, parse)
  {
    var offersIndex :- Fetch(net, OffersIndexUrl);
    var prices := InitialPrices;

    var lambdaDoc :- GetOfferData(net, offersIndex, LambdaOffer, regionCode);
    var lambdaProductMap :- Member(lambdaDoc, "products");
    var lambdaProducts :- Values(lambdaProductMap);
    var i := 0;
    while i < |lambdaProducts|
      invariant 0 <= i <= |lambdaProducts|
      invariant ScanLambda(lambdaDoc, lambdaProducts, parse, InitialPrices)
             == ScanLambda(lambdaDoc, lambdaProducts[i..], parse, prices)
    {
      var product := lambdaProducts[i];
      ghost var before := prices;
      assert lambdaProducts[i..][0] == product && lambdaProducts[i..][1..] == lambdaProducts[i + 1..];
      var attributes :- Member(product, "attributes");
      var usageValue :- Get(attributes, "usagetype", Str(""));
      var usage :- AsString(usageValue);
      if Text.EndsWith(usage, "Requests") {
        var price :- SkuPrice(lambdaDoc, product, parse);
        prices := prices.(lambdaRequest := price);
      }
      if Text.Contains(usage, "Duration") {
        var price :- SkuPrice(lambdaDoc, product, parse);
        prices := prices.(lambdaGbS := price);
      }
      assert LambdaStep(lambdaDoc, product, parse, before) == Some(prices);
      i := i + 1;
    }
    ghost var afterLambda := prices;

    var s3Doc :- GetOfferData(net, offersIndex, S3Offer, regionCode);
    var s3ProductMap :- Member(s3Doc, "products");
    var s3Products :- Values(s3ProductMap);
    var j := 0;
    while j < |s3Products|
      invariant 0 <= j <= |s3Products|
      invariant ScanS3(s3Doc, s3Products, parse, afterLambda)
             == ScanS3(s3Doc, s3Products[j..], parse, prices)
    {
      var product := s3Products[j];
      assert s3Products[j..][0] == product && s3Products[j..][1..] == s3Products[j + 1..];
      var attributes :- Member(product, "attributes");
      var storageClass :- Get(attributes, "storageClass", Null);
      if storageClass == Str("General Purpose") {
        var price :- SkuPrice(s3Doc, product, parse);
        prices := prices.(s3GbMonth := price);
        break;
      }
      j := j + 1;
    }
    return Some(prices);
  }

  /** The whole function: the live record, or the fallback record on any
      failure, with nothing of a partly computed live record kept. */
  method FetchLivePrices(net: Network, regionCode: string, parse: PriceParser) returns (prices: Prices)
    ensures prices == Resolve(net, regionCode, parse)
  {
    var live := LiveFetch(net, regionCode, parse);
    if live.Some? {
      prices := live.value;
    } else {
      prices := FallbackPrices;
    }
  }
}
