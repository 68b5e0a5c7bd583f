/** The AWS Price List lookup of `fetch_live_prices`, as functions of the
    network: a chain of index documents leads to each offer's price document,
    whose products are scanned for the unit prices. `None` stands for any
    exception raised along the way. */
module Catalog {
  import opened Wrappers
  import opened Json
  import Text

  /** The five unit prices, in USD. */
  datatype Prices = Prices(
    lambdaRequest: real,
    lambdaGbS: real,
    s3GbMonth: real,
    efsGbMonth: real,
    ebsGbMonth: real)

  /** The record the live path starts from and keeps where nothing matches. */
  const InitialPrices := Prices(0.0000002, 0.00001667, 0.023, 0.30, 0.10)

  /** The record returned when anything fails (the snapshot of January 2026). */
  const FallbackPrices := Prices(0.0000002, 0.00001667, 0.023, 0.30, 0.10)

  const BaseUrl := "https://pricing.us-east-1.amazonaws.com"
  const OffersIndexUrl := BaseUrl + "/offers/v1.0/aws/index.json"

  const LambdaOffer := "AWSLambda"
  const S3Offer := "AmazonS3"

  /** What each URL serves once decoded; a URL that times out, fails or does
      not decode is absent. */
  type Network = map<string, Json>

  /** Converts a price text to a number (`float(...)`), or fails. */
  type PriceParser = Json -> Option<real>

  function Fetch(net: Network, url: string): Option<Json>
  {
    if url in net then Some(net[url]) else None
  }

  /** Two URLs on `BaseUrl` are equal only when their paths are. */
  lemma BaseUrlCancels(path: string)
    ensures forall other :: BaseUrl + other == BaseUrl + path ==> other == path
  {
    forall other | BaseUrl + other == BaseUrl + path
      ensures other == path
    {
      assert other == (BaseUrl + other)[|BaseUrl|..];
      assert path == (BaseUrl + path)[|BaseUrl|..];
    }
  }

  /** `base_url + offers_index['offers'][offer_name]['currentRegionIndexUrl']`. */
  function RegionIndexUrl(offersIndex: Json, offerName: string): (r: Option<string>)
    ensures r.Some? ==> Text.StartsWith(r.value, BaseUrl)
  {
    var offers :- Member(offersIndex, "offers");
    var offer :- Member(offers, offerName);
    var path :- Member(offer, "currentRegionIndexUrl");
    var pathText :- AsString(path);
    Some(BaseUrl + pathText)
  }

  /** `base_url + region_index['regions'][region_code]['currentVersionUrl']`. */
  function VersionUrl(regionIndex: Json, regionCode: string): (r: Option<string>)
    ensures r.Some? ==> Text.StartsWith(r.value, BaseUrl)
    ensures (forall regions :: Member(regionIndex, "regions") == Some(regions) ==> Member(regions, regionCode).None?) ==> r.None?
  {
    var regions :- Member(regionIndex, "regions");
    var region :- Member(regions, regionCode);
    var path :- Member(region, "currentVersionUrl");
    var pathText :- AsString(path);
    Some(BaseUrl + pathText)
  }

  /** `get_offer_data(offer_name)`: the offer's region index, then the price
      document of `regionCode`, both fetched from `BaseUrl` plus a path. */
  function GetOfferData(net: Network, offersIndex: Json, offerName: string, regionCode: string): (r: Option<Json>)
    ensures r.Some? ==> exists path :: BaseUrl + path in net && net[BaseUrl + path] == r.value
  {
    var indexUrl :- RegionIndexUrl(offersIndex, offerName);
    var regionIndex :- Fetch(net, indexUrl);
    var versionUrl :- VersionUrl(regionIndex, regionCode);
    Fetch(net, versionUrl)
  }

  /** The region-index URL is `BaseUrl` followed by exactly the string at
      `offers[offerName].currentRegionIndexUrl`. */
  lemma RegionIndexUrlSpec(offersIndex: Json, offerName: string, path: string)
    ensures RegionIndexUrl(offersIndex, offerName) == Some(BaseUrl + path)
        <==> At(offersIndex, ["offers", offerName, "currentRegionIndexUrl"]) == Some(Str(path))
  {
    AtShortPaths(offersIndex, "offers", offerName, "currentRegionIndexUrl");
    BaseUrlCancels(path);
  }

  /** The version URL is `BaseUrl` followed by exactly the string at
      `regions[regionCode].currentVersionUrl`; a listed region with a string
      path therefore has one. */
  lemma VersionUrlSpec(regionIndex: Json, regionCode: string, path: string)
    ensures VersionUrl(regionIndex, regionCode) == Some(BaseUrl + path)
        <==> At(regionIndex, ["regions", regionCode, "currentVersionUrl"]) == Some(Str(path))
  {
    AtShortPaths(regionIndex, "regions", regionCode, "currentVersionUrl");
    BaseUrlCancels(path);
  }

  /** The offer document is the one served at `BaseUrl + versionPath`, where
      `versionPath` is what the region index names for `regionCode`, and the
      region index is the one served at `BaseUrl + indexPath`, where
      `indexPath` is what the offers index names for the offer. */
  ghost predicate ServedVia(net: Network, offersIndex: Json, offerName: string, regionCode: string,
                            indexPath: string, versionPath: string, doc: Json)
  {
    && At(offersIndex, ["offers", offerName, "currentRegionIndexUrl"]) == Some(Str(indexPath))
    && BaseUrl + indexPath in net
    && At(net[BaseUrl + indexPath], ["regions", regionCode, "currentVersionUrl"]) == Some(Str(versionPath))
    && BaseUrl + versionPath in net
    && net[BaseUrl + versionPath] == doc
  }

  /** `get_offer_data` returns a document exactly when it is reached through
      the two index documents, and any failure along the way is None. */
  lemma GetOfferDataSpec(net: Network, offersIndex: Json, offerName: string, regionCode: string, doc: Json)
    ensures GetOfferData(net, offersIndex, offerName, regionCode) == Some(doc)
        <==> exists indexPath, versionPath :: ServedVia(net, offersIndex, offerName, regionCode, indexPath, versionPath, doc)
  {
    var indexUrl := RegionIndexUrl(offersIndex, offerName);
    if GetOfferData(net, offersIndex, offerName, regionCode) == Some(doc) {
      var indexPath := indexUrl.value[|BaseUrl|..];
      assert indexUrl.value == BaseUrl + indexPath;
      RegionIndexUrlSpec(offersIndex, offerName, indexPath);
      var regionIndex := net[indexUrl.value];
      var versionUrl := VersionUrl(regionIndex, regionCode);
      var versionPath := versionUrl.value[|BaseUrl|..];
      assert versionUrl.value == BaseUrl + versionPath;
      VersionUrlSpec(regionIndex, regionCode, versionPath);
      assert ServedVia(net, offersIndex, offerName, regionCode, indexPath, versionPath, doc);
    }
    forall indexPath, versionPath | ServedVia(net, offersIndex, offerName, regionCode, indexPath, versionPath, doc)
      ensures GetOfferData(net, offersIndex, offerName, regionCode) == Some(doc)
    {
      RegionIndexUrlSpec(offersIndex, offerName, indexPath);
      VersionUrlSpec(net[BaseUrl + indexPath], regionCode, versionPath);
    }
  }

  /** The products of an offer document, in document order. */
  function Products(doc: Json): Option<seq<Json>>
  {
    var products :- Member(doc, "products");
    Values(products)
  }

  /** The USD price of the first dimension of the first on-demand term of
      `product`'s sku in `doc`. A sku that is not a string is modelled as a
      failure. */
  function SkuPrice(doc: Json, product: Json, parse: PriceParser): (r: Option<real>)
    ensures r.Some? ==> exists usd :: parse(usd) == r
  {
    var sku :- Member(product, "sku");
    var skuText :- AsString(sku);
    var terms :- Member(doc, "terms");
    var onDemand :- Member(terms, "OnDemand");
    var skuTerms :- Member(onDemand, skuText);
    var term :- FirstValue(skuTerms);
    var dimensions :- Member(term, "priceDimensions");
    var dimension :- FirstValue(dimensions);
    var pricePerUnit :- Member(dimension, "pricePerUnit");
    var usd :- Member(pricePerUnit, "USD");
    parse(usd)
  }

  /** `usd` is the `pricePerUnit.USD` of the first price dimension of the
      first on-demand term listed for the product's sku `sku` in `doc`. */
  ghost predicate PricedAt(doc: Json, product: Json, sku: string, usd: Json)
  {
    && At(product, ["sku"]) == Some(Str(sku))
    && var skuTerms := At(doc, ["terms", "OnDemand", sku]);
    && skuTerms.Some? && skuTerms.value.Obj? && |skuTerms.value.fields| > 0
    && var dimensions := At(skuTerms.value.fields[0].1, ["priceDimensions"]);
    && dimensions.Some? && dimensions.value.Obj? && |dimensions.value.fields| > 0
    && At(dimensions.value.fields[0].1, ["pricePerUnit", "USD"]) == Some(usd)
  }

  /** A product's price is `parse(usd)` exactly for the `usd` at that
      position; a missing step, or a failed parse, is a failure. */
  lemma SkuPriceSpec(doc: Json, product: Json, parse: PriceParser, price: real)
    ensures SkuPrice(doc, product, parse) == Some(price)
        <==> exists sku, usd :: PricedAt(doc, product, sku, usd) && parse(usd) == Some(price)
  {
    AtShortPaths(product, "sku", "", "");
    if SkuPrice(doc, product, parse) == Some(price) {
      var sku := Member(product, "sku").value.s;
      AtShortPaths(doc, "terms", "OnDemand", sku);
      var skuTerms := Member(Member(Member(doc, "terms").value, "OnDemand").value, sku).value;
      AtShortPaths(skuTerms.fields[0].1, "priceDimensions", "", "");
      var dimensions := Member(skuTerms.fields[0].1, "priceDimensions").value;
      AtShortPaths(dimensions.fields[0].1, "pricePerUnit", "USD", "");
      var usd := Member(Member(dimensions.fields[0].1, "pricePerUnit").value, "USD").value;
      assert PricedAt(doc, product, sku, usd);
    }
    forall sku, usd | PricedAt(doc, product, sku, usd) && parse(usd) == Some(price)
      ensures SkuPrice(doc, product, parse) == Some(price)
    {
      AtShortPaths(doc, "terms", "OnDemand", sku);
      var skuTerms := At(doc, ["terms", "OnDemand", sku]).value;
      AtShortPaths(skuTerms.fields[0].1, "priceDimensions", "", "");
      var dimensions := At(skuTerms.fields[0].1, ["priceDimensions"]).value;
      AtShortPaths(dimensions.fields[0].1, "pricePerUnit", "USD", "");
    }
  }

  /** `product['attributes'].get('usagetype', '')`, which must be a string
      because both tests call string operations on it. */
  function UsageType(product: Json): Option<string>
  {
    var attributes :- Member(product, "attributes");
    var usage :- Get(attributes, "usagetype", Str(""));
    AsString(usage)
  }

  /** The two Lambda selectors: per-request and per-GB-second pricing. */
  datatype Selector = Requests | Duration

  predicate Selects(sel: Selector, usage: string)
  {
    match sel
    case Requests => Text.EndsWith(usage, "Requests")
    case Duration => Text.Contains(usage, "Duration")
  }

  /** One iteration of the Lambda loop: each selector that matches sets its
      field independently, so one product may set both. */
  function LambdaStep(doc: Json, product: Json, parse: PriceParser, p: Prices): Option<Prices>
  {
    var usage :- UsageType(product);
    var request :- if Selects(Requests, usage) then SkuPrice(doc, product, parse) else Some(p.lambdaRequest);
    var gbS :- if Selects(Duration, usage) then SkuPrice(doc, product, parse) else Some(p.lambdaGbS);
    Some(p.(lambdaRequest := request, lambdaGbS := gbS))
  }

  /** The Lambda loop over every product, in order, starting from `p`. */
  function ScanLambda(doc: Json, products: seq<Json>, parse: PriceParser, p: Prices): Option<Prices>
  {
    if products == [] then Some(p)
    else
      var next :- LambdaStep(doc, products[0], parse, p);
      ScanLambda(doc, products[1..], parse, next)
  }

  /** `product['attributes'].get('storageClass') == 'General Purpose'`; a
      missing or non-string storage class is simply not a match. */
  function IsGeneralPurpose(product: Json): Option<bool>
  {
    var attributes :- Member(product, "attributes");
    var storageClass :- Get(attributes, "storageClass", Null);
    Some(storageClass == Str("General Purpose"))
  }

  /** The S3 loop: stops at the first General Purpose product. */
  function ScanS3(doc: Json, products: seq<Json>, parse: PriceParser, p: Prices): Option<Prices>
  {
    if products == [] then Some(p)
    else
      var isMatch :- IsGeneralPurpose(products[0]);
      if isMatch then
        var price :- SkuPrice(doc, products[0], parse);
        Some(p.(s3GbMonth := price))
      else
        ScanS3(doc, products[1..], parse, p)
  }

  /** The body of the `try` block: the live record, or None when it raises. */
  function LivePrices(net: Network, regionCode: string, parse: PriceParser): Option<Prices>
  {
    var offersIndex :- Fetch(net, OffersIndexUrl);
    var lambdaDoc :- GetOfferData(net, offersIndex, LambdaOffer, regionCode);
    var lambdaProducts :- Products(lambdaDoc);
    var afterLambda :- ScanLambda(lambdaDoc, lambdaProducts, parse, InitialPrices);
    var s3Doc :- GetOfferData(net, offersIndex, S3Offer, regionCode);
    var s3Products :- Products(s3Doc);
    ScanS3(s3Doc, s3Products, parse, afterLambda)
  }

  /** `fetch_live_prices(region_code)`: the live record, or the fallback
      record whenever the live path fails. */
  function Resolve(net: Network, regionCode: string, parse: PriceParser): Prices
  {
    LivePrices(net, regionCode, parse).GetOr(FallbackPrices)
  }
}
