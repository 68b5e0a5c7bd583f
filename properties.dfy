/** What `fetch_live_prices` promises its caller, stated about `Resolve`: the
    live record is assembled from the selected products, and any failure
    gives the complete fallback record instead. */
module Properties {
  import opened Wrappers
  import opened Json
  import opened Catalog
  import opened Selection
  import Search

  /** The outcome once every document has been fetched: the live record,
      built from the last matching Lambda products and the first General
      Purpose S3 product over the defaults, when both scans get through;
      otherwise the fallback record, with none of the Lambda prices already
      found kept. */
  lemma {:induction false} ResolveFromDocuments(
    net: Network, regionCode: string, parse: PriceParser, offersIndex: Json,
    lambdaDoc: Json, lambdaProducts: seq<Json>, s3Doc: Json, s3Products: seq<Json>)
    requires Fetch(net, OffersIndexUrl) == Some(offersIndex)
    requires GetOfferData(net, offersIndex, LambdaOffer, regionCode) == Some(lambdaDoc)
    requires Products(lambdaDoc) == Some(lambdaProducts)
    requires GetOfferData(net, offersIndex, S3Offer, regionCode) == Some(s3Doc)
    requires Products(s3Doc) == Some(s3Products)
    ensures LambdaProductsOk(lambdaDoc, lambdaProducts, parse) && S3ProductsOk(s3Doc, s3Products, parse) ==>
      Resolve(net, regionCode, parse) == Prices(
        LastPrice(lambdaDoc, lambdaProducts, parse, Requests, InitialPrices.lambdaRequest),
        LastPrice(lambdaDoc, lambdaProducts, parse, Duration, InitialPrices.lambdaGbS),
        FirstPrice(s3Doc, s3Products, parse, InitialPrices.s3GbMonth),
        InitialPrices.efsGbMonth,
        InitialPrices.ebsGbMonth)
    ensures !LambdaProductsOk(lambdaDoc, lambdaProducts, parse) || !S3ProductsOk(s3Doc, s3Products, parse) ==>
      Resolve(net, regionCode, parse) == FallbackPrices
  {
    ScanLambdaSucceeds(lambdaDoc, lambdaProducts, parse, InitialPrices);
    if LambdaProductsOk(lambdaDoc, lambdaProducts, parse) {
      ScanLambdaLastMatchWins(lambdaDoc, lambdaProducts, parse, InitialPrices);
      var afterLambda := ScanLambda(lambdaDoc, lambdaProducts, parse, InitialPrices).value;
      ScanS3FirstMatchWins(s3Doc, s3Products, parse, afterLambda);
    }
  }

  /** Whatever the network serves, a returned record, live or fallback,
      carries 0.30 for EFS and 0.10 for EBS: the live path never sets them. */
  lemma {:induction false} EfsEbsAlwaysConstant(net: Network, regionCode: string, parse: PriceParser)
    ensures Resolve(net, regionCode, parse).efsGbMonth == 0.30
    ensures Resolve(net, regionCode, parse).ebsGbMonth == 0.10
  {
    match Fetch(net, OffersIndexUrl)
    case None =>
    case Some(offersIndex) =>
      match GetOfferData(net, offersIndex, LambdaOffer, regionCode)
      case None =>
      case Some(lambdaDoc) =>
        match Products(lambdaDoc)
        case None =>
        case Some(lambdaProducts) =>
          ScanLambdaSucceeds(lambdaDoc, lambdaProducts, parse, InitialPrices);
          if LambdaProductsOk(lambdaDoc, lambdaProducts, parse) {
            ScanLambdaLastMatchWins(lambdaDoc, lambdaProducts, parse, InitialPrices);
            var afterLambda := ScanLambda(lambdaDoc, lambdaProducts, parse, InitialPrices).value;
            match GetOfferData(net, offersIndex, S3Offer, regionCode)
            case None =>
            case Some(s3Doc) =>
              match Products(s3Doc)
              case None =>
              case Some(s3Products) =>
                ScanS3FirstMatchWins(s3Doc, s3Products, parse, afterLambda);
          }
  }

  /** When the price texts only parse to non-negative numbers, every field of
      the returned record is non-negative. */
  lemma {:induction false} PricesNonNegative(net: Network, regionCode: string, parse: PriceParser)
    requires forall j :: parse(j).Some? ==> parse(j).value >= 0.0
    ensures var r := Resolve(net, regionCode, parse);
      r.lambdaRequest >= 0.0 && r.lambdaGbS >= 0.0 && r.s3GbMonth >= 0.0
      && r.efsGbMonth >= 0.0 && r.ebsGbMonth >= 0.0
  {
    match Fetch(net, OffersIndexUrl)
    case None =>
    case Some(offersIndex) =>
      match GetOfferData(net, offersIndex, LambdaOffer, regionCode)
      case None =>
      case Some(lambdaDoc) =>
        match Products(lambdaDoc)
        case None =>
        case Some(lambdaProducts) =>
          match GetOfferData(net, offersIndex, S3Offer, regionCode)
          case None =>
          case Some(s3Doc) =>
            match Products(s3Doc)
            case None =>
            case Some(s3Products) =>
              DocumentsNonNegative(net, regionCode, parse, offersIndex, lambdaDoc, lambdaProducts, s3Doc, s3Products);
  }

  lemma DocumentsNonNegative(
    net: Network, regionCode: string, parse: PriceParser, offersIndex: Json,
    lambdaDoc: Json, lambdaProducts: seq<Json>, s3Doc: Json, s3Products: seq<Json>)
    requires forall j :: parse(j).Some? ==> parse(j).value >= 0.0
    requires Fetch(net, OffersIndexUrl) == Some(offersIndex)
    requires GetOfferData(net, offersIndex, LambdaOffer, regionCode) == Some(lambdaDoc)
    requires Products(lambdaDoc) == Some(lambdaProducts)
    requires GetOfferData(net, offersIndex, S3Offer, regionCode) == Some(s3Doc)
    requires Products(s3Doc) == Some(s3Products)
    ensures var r := Resolve(net, regionCode, parse);
      r.lambdaRequest >= 0.0 && r.lambdaGbS >= 0.0 && r.s3GbMonth >= 0.0
      && r.efsGbMonth >= 0.0 && r.ebsGbMonth >= 0.0
  {
    ResolveFromDocuments(net, regionCode, parse, offersIndex, lambdaDoc, lambdaProducts, s3Doc, s3Products);
    if LambdaProductsOk(lambdaDoc, lambdaProducts, parse) && S3ProductsOk(s3Doc, s3Products, parse) {
      LastPriceNonNegative(lambdaDoc, lambdaProducts, parse, Requests, InitialPrices.lambdaRequest);
      LastPriceNonNegative(lambdaDoc, lambdaProducts, parse, Duration, InitialPrices.lambdaGbS);
      if FirstGeneralPurpose(s3Products).Some? {
        var k := FirstGeneralPurpose(s3Products).value;
        assert SkuPrice(s3Doc, s3Products[k], parse).Some?;
      }
    }
  }

  lemma LastPriceNonNegative(doc: Json, products: seq<Json>, parse: PriceParser, sel: Selector, default: real)
    requires forall j :: parse(j).Some? ==> parse(j).value >= 0.0
    requires LambdaProductsOk(doc, products, parse) && default >= 0.0
    ensures LastPrice(doc, products, parse, sel, default) >= 0.0
  {
    if LastSelected(products, sel).Some? {
      var k := LastSelected(products, sel).value;
      Search.LastWhereSpec(products, SelectedBy(sel));
      assert SkuPrice(doc, products[k], parse).Some?;
    }
  }

  /** An unreachable offers index (a timeout, a network error, a body that is
      not JSON) gives exactly the fallback record. */
  lemma FallbackWhenIndexUnreachable(net: Network, regionCode: string, parse: PriceParser)
    requires OffersIndexUrl !in net
    ensures Resolve(net, regionCode, parse) == Prices(0.0000002, 0.00001667, 0.023, 0.30, 0.10)
  {
  }

  /** A region code that the region index of either offer does not list
      gives exactly the fallback record; for S3 this holds even though the
      Lambda prices were already found. */
  lemma FallbackWhenRegionUnlisted(
    net: Network, regionCode: string, parse: PriceParser, offersIndex: Json, offerName: string, regionIndexUrl: string)
    requires offerName == LambdaOffer || offerName == S3Offer
    requires Fetch(net, OffersIndexUrl) == Some(offersIndex)
    requires RegionIndexUrl(offersIndex, offerName) == Some(regionIndexUrl) && regionIndexUrl in net
    requires forall regions :: Member(net[regionIndexUrl], "regions") == Some(regions) ==> Member(regions, regionCode).None?
    ensures Resolve(net, regionCode, parse) == FallbackPrices
  {
  }

  /** All or nothing: when the S3 stage fails after the Lambda scan has found
      its prices, those prices are dropped along with everything else. The
      second clause only spells out what the first means for a request price
      that differs from the fallback. */
  lemma S3FailureDiscardsLambdaPrices(
    net: Network, regionCode: string, parse: PriceParser, offersIndex: Json,
    lambdaDoc: Json, lambdaProducts: seq<Json>, afterLambda: Prices)
    requires Fetch(net, OffersIndexUrl) == Some(offersIndex)
    requires GetOfferData(net, offersIndex, LambdaOffer, regionCode) == Some(lambdaDoc)
    requires Products(lambdaDoc) == Some(lambdaProducts)
    requires ScanLambda(lambdaDoc, lambdaProducts, parse, InitialPrices) == Some(afterLambda)
    requires GetOfferData(net, offersIndex, S3Offer, regionCode).None?
          || Products(GetOfferData(net, offersIndex, S3Offer, regionCode).value).None?
          || ScanS3(GetOfferData(net, offersIndex, S3Offer, regionCode).value,
                    Products(GetOfferData(net, offersIndex, S3Offer, regionCode).value).value,
                    parse, afterLambda).None?
    ensures Resolve(net, regionCode, parse) == FallbackPrices
    ensures afterLambda.lambdaRequest != FallbackPrices.lambdaRequest ==>
      Resolve(net, regionCode, parse).lambdaRequest != afterLambda.lambdaRequest
  {
  }

  /** Each selector that matches no product leaves its field at its initial
      value, and the initial values are the fallback values field for field. */
  lemma UnmatchedFieldsKeepFallback(
    net: Network, regionCode: string, parse: PriceParser, offersIndex: Json,
    lambdaDoc: Json, lambdaProducts: seq<Json>, s3Doc: Json, s3Products: seq<Json>)
    requires Fetch(net, OffersIndexUrl) == Some(offersIndex)
    requires GetOfferData(net, offersIndex, LambdaOffer, regionCode) == Some(lambdaDoc)
    requires Products(lambdaDoc) == Some(lambdaProducts)
    requires GetOfferData(net, offersIndex, S3Offer, regionCode) == Some(s3Doc)
    requires Products(s3Doc) == Some(s3Products)
    ensures InitialPrices == FallbackPrices
    ensures LastSelected(lambdaProducts, Requests).None? ==>
      Resolve(net, regionCode, parse).lambdaRequest == FallbackPrices.lambdaRequest
    ensures LastSelected(lambdaProducts, Duration).None? ==>
      Resolve(net, regionCode, parse).lambdaGbS == FallbackPrices.lambdaGbS
    ensures FirstGeneralPurpose(s3Products).None? ==>
      Resolve(net, regionCode, parse).s3GbMonth == FallbackPrices.s3GbMonth
  {
    ResolveFromDocuments(net, regionCode, parse, offersIndex, lambdaDoc, lambdaProducts, s3Doc, s3Products);
  }

  /** When no product matches any selector, the live path and the fallback
      give the same record, whether or not some product is malformed. */
  lemma NothingMatchedIsFallback(
    net: Network, regionCode: string, parse: PriceParser, offersIndex: Json,
    lambdaDoc: Json, lambdaProducts: seq<Json>, s3Doc: Json, s3Products: seq<Json>)
    requires Fetch(net, OffersIndexUrl) == Some(offersIndex)
    requires GetOfferData(net, offersIndex, LambdaOffer, regionCode) == Some(lambdaDoc)
    requires Products(lambdaDoc) == Some(lambdaProducts)
    requires GetOfferData(net, offersIndex, S3Offer, regionCode) == Some(s3Doc)
    requires Products(s3Doc) == Some(s3Products)
    requires LastSelected(lambdaProducts, Requests).None? && LastSelected(lambdaProducts, Duration).None?
    requires FirstGeneralPurpose(s3Products).None?
    ensures Resolve(net, regionCode, parse) == FallbackPrices
  {
    ResolveFromDocuments(net, regionCode, parse, offersIndex, lambdaDoc, lambdaProducts, s3Doc, s3Products);
  }
}
