# The Referee: live AWS price lookup, modelled in Dafny

The Referee is a Streamlit dashboard that compares serverless compute and
storage costs. It does one thing that has real behaviour: `fetch_live_prices`
(app.py:22-77). Given an AWS region code, this function walks the public AWS
Price List bulk documents and returns a record of five unit prices:

* Lambda per-request
* Lambda per-GB-second
* S3 per-GB-month
* EFS per-GB-month
* EBS per-GB-month

It resolves three documents in turn:

1. the offers index at `https://pricing.us-east-1.amazonaws.com/offers/v1.0/aws/index.json`;
2. each offer's region index, at the base URL plus `offers[name].currentRegionIndexUrl`;
3. the region's price document, at the base URL plus `regions[code].currentVersionUrl`.

The Lambda loop visits every product. The last product whose `usagetype`
ends in `Requests` sets the request price, and the last whose `usagetype`
contains `Duration` sets the GB-second price. The S3 loop stops at the first
product whose `storageClass` is `General Purpose`. Any exception anywhere
makes the function return a fixed fallback record. The sidebar turns the
chosen region label into a region code by position in two parallel lists
(app.py:15-18).

The Dafny files:

* `wrappers.dfy`: an `Option` type that works with `:-`. A `None` abandons the rest of the chain, as a raised exception does.
* `json.dfy`: parsed JSON documents. An object is its key/value pairs in document order, which is the order `dict.values()` iterates in. It also holds Python's `d[k]`, `d.get(k, default)`, `d.values()` and `next(iter(d.values()))`, each failing where Python raises.
* `text.dfy`: `str.endswith` and `sub in s`.
* `regions.dfy`: the region label to code lookup.
* `catalog.dfy`: the specification functions.
  * The network is a map from URL to decoded document.
  * `get_offer_data`, the per-product steps and the two scans are functions.
  * `LivePrices` is the `try` block; `None` means it raised.
  * `Resolve` is the whole function, with the fallback.
* `fetch.dfy`: the function as the source runs it. `LiveFetch` overwrites fields of a price record inside two `while` loops, the second left with `break`. `FetchLivePrices` adds the `except` branch. Both are proved equal to the functions of `catalog.dfy`.
* `search.dfy`: reference definitions of "position of the first match" and "position of the last match".
* `selection.dfy`: proofs that the Lambda loop computes the last match of each selector, and the S3 loop the first General Purpose product. It also says exactly when each loop fails.
* `properties.dfy`: what the caller gets.
  * The fallback is all-or-nothing.
  * EFS and EBS are always 0.30 and 0.10.
  * An unmatched field keeps a default equal to the fallback value.
  * Prices are non-negative when the parsed texts are.

Three points about the code:

* The S3 price document is fetched only after the Lambda scan has finished (app.py:58). A failure to fetch it therefore comes after the Lambda products have all been read.
* A live record is non-negative only if the price texts are. `float` accepts a negative text and nothing checks the sign, so `PricesNonNegative` assumes the parser yields non-negative numbers.
* The `terms` section of a price document is read only when some product matches. A document with no `terms` whose products match nothing is therefore a success, not a failure.

## Model

| member | source | states |
|---|---|---|
| `Text.EndsWith` | app.py:46 | `s.endswith(suffix)`: the last `len(suffix)` characters of `s` are `suffix`. See `ScanLambdaLastMatchWins` for its use. |
| `Text.Contains` | app.py:51 | `sub in s`, searched position by position. See `Text.ContainsSpec`. |
| `Text.ContainsSpec` | app.py:51 | Python's `sub in s`, as searched by `Contains`, holds exactly when `sub` occurs at some position of `s` |
| `Json.FindSpec` | app.py:37-39 | A dict lookup finds nothing exactly when no pair has the key. Otherwise it finds the value of the first pair that has it. |
| `Json.GetSpec` | app.py:46 | On an object, `attrs.get(key, default)` gives `default` when no pair has the key, and otherwise the value of the first pair that has it |
| `Json.Member` | app.py:37-64 | `d[k]`: only an object can be indexed by a key, and a missing key is a failure. The value is the one `Json.FindSpec` describes. |
| `Json.Get` | app.py:46-60 | `d.get(k, default)`: a failure exactly when `d` is not an object. See `Json.GetSpec` for the value. |
| `Json.Values` | app.py:44-59 | `list(d.values())`: the values of an object in document order, and a failure on anything else. See `ScanLambdaLastMatchWins` and `ScanS3FirstMatchWins` for the order that matters. |
| `Json.FirstValue` | app.py:48-64 | `next(iter(d.values()))`: the first value of a non-empty object. An empty object (StopIteration) or a non-object is a failure. See `Catalog.SkuPriceSpec`. |
| `Json.AsString` | app.py:37-40 | The string operand of `base_url + x`. A non-string is a failure (TypeError). See `Catalog.RegionIndexUrlSpec` and `Catalog.VersionUrlSpec`. |
| `Regions.IndexOf` | app.py:18 | `list.index`: None exactly when the label is absent; otherwise the first position holding it |
| `Regions.RegionCode` | app.py:15-18 | A label has a code exactly when it is one of the options, and that code is one of the listed region codes |
| `Regions.RegionLookupAligned` | app.py:15-18 | The label at position i maps to the code at position i (the labels are distinct) |
| `Regions.RegionCodesListed` | app.py:15-16 | US East maps to us-east-1, Asia Pacific (Mumbai) to ap-south-1, EU (Ireland) to eu-west-1 |
| `Catalog.Fetch` | app.py:25-40 | `requests.get(url).json()`: the document the network serves at `url`, or a failure when none is served. See `Catalog.GetOfferDataSpec`. |
| `Catalog.RegionIndexUrl` | app.py:37 | The region-index URL starts with the base URL |
| `Catalog.RegionIndexUrlSpec` | app.py:37 | The region-index URL is the base URL followed by exactly the string at `offers[name].currentRegionIndexUrl`. There is none when that string is missing or is not a string. |
| `Catalog.VersionUrl` | app.py:39-40 | The version URL starts with the base URL. A region code the index does not list yields none. |
| `Catalog.VersionUrlSpec` | app.py:39-40 | The version URL is the base URL followed by exactly the string at `regions[code].currentVersionUrl`, so a listed region with a string path yields that URL |
| `Catalog.GetOfferData` | app.py:36-40 | An offer document, when found, is what the network serves at the base URL plus some path |
| `Catalog.GetOfferDataSpec` | app.py:36-40 | The offer document is `doc` exactly when the chain reaches it. The offers index names the region-index path, the network serves the region index there, that index names the version path for the region code, and the network serves `doc` at that path. Any broken step is a failure. |
| `Catalog.SkuPrice` | app.py:47-50 | A sku's price, when found, is a value `parse` returns |
| `Catalog.SkuPriceSpec` | app.py:47-64 | A product's price is `price` exactly when two things hold. The product's `sku` is a string. `parse` gives `price` for the `pricePerUnit.USD` of the first price dimension of the first on-demand term listed under that sku in `terms.OnDemand`. |
| `Catalog.Products` | app.py:44-59 | `doc['products'].values()`: the products of an offer document in order, or a failure. See `Properties.ResolveFromDocuments`. |
| `Catalog.UsageType` | app.py:45-51 | `product['attributes'].get('usagetype', '')`, which must be a string. See `Selection.MissingUsageTypeIsNoMatch` and `Selection.MissingAttributesOrSkuFails`. |
| `Catalog.LambdaStep` | app.py:45-55 | One Lambda iteration: each selector that matches sets its field to the product's price. See `Selection.LambdaStepEffect`. |
| `Catalog.ScanLambda` | app.py:44-55 | The Lambda loop over every product in order. See `Selection.ScanLambdaSucceeds` and `Selection.ScanLambdaLastMatchWins`. |
| `Catalog.IsGeneralPurpose` | app.py:60 | `product['attributes'].get('storageClass') == 'General Purpose'`, a failure without `attributes`. See `Selection.ScanS3FirstMatchWins`. |
| `Catalog.ScanS3` | app.py:59-65 | The S3 loop, stopping at the first General Purpose product. See `Selection.ScanS3FirstMatchWins` and `Selection.ScanS3StopsAtMatch`. |
| `Catalog.LivePrices` | app.py:24-67 | The body of the `try` block: the live record, or a failure wherever Python would raise. See `Fetcher.LiveFetch` and `Properties.ResolveFromDocuments`. |
| `Catalog.Resolve` | app.py:22-77 | `fetch_live_prices`: the live record, or the fallback record when the `try` block raises. See `Properties.ResolveFromDocuments` and `Fetcher.FetchLivePrices`. |
| `Fetcher.LiveFetch` | app.py:24-67 | The loops compute exactly the live record of `LivePrices`, or fail exactly when it does. This covers the break after the first S3 match and every early exit. |
| `Fetcher.FetchLivePrices` | app.py:22-77 | The function returns the live record when the live path succeeds and the fallback record otherwise |
| `Search.LastWhereSpec` | app.py:44-55 | The position of the last element a test accepts: it is accepted, none after it is, and None means none is |
| `Search.FirstWhereSpec` | app.py:59-65 | The position of the first element a test accepts: it is accepted, none before it is, and None means none is |
| `Search.LastWhereCons` | app.py:44-55 | The last match of a sequence is the last match of its tail, else its head if that matches. This is why overwriting on every match leaves the last match. |
| `Search.LastValueCons` | app.py:44-55 | The value of the last match of a sequence is that of its tail's last match, with the default replaced by the head's value when the head matches. This is the loop step that overwrites a field on each match. |
| `Selection.LastPriceCons` | app.py:44-55 | The price of the last match of a sequence equals that of its tail, with the default replaced by the head's price when the head matches |
| `Selection.LambdaStepEffect` | app.py:45-55 | One Lambda iteration succeeds exactly on a product it can get past. It sets each matching selector's field to the product's price and keeps the other fields. |
| `Selection.ScanLambdaSucceeds` | app.py:44-55 | The Lambda loop succeeds exactly when every product can be got past |
| `Selection.ScanLambdaLastMatchWins` | app.py:44-55 | A successful Lambda loop leaves the price of the last "Requests" product and of the last "Duration" product in their fields. A selector with no match keeps the starting value. No other field changes. |
| `Selection.ScanLambdaInspectsAll` | app.py:44-47 | A malformed Lambda product fails the loop wherever it stands |
| `Selection.MissingUsageTypeIsNoMatch` | app.py:45-51 | A missing `usagetype` reads as "", matches neither selector, and neither fails nor changes anything |
| `Selection.MissingAttributesOrSkuFails` | app.py:45-52 | A product without `attributes`, or a matching product without `sku`, cannot be got past |
| `Selection.OneProductSetsBoth` | app.py:46-55 | A product matching both selectors sets both Lambda fields to its price |
| `Selection.ScanS3FirstMatchWins` | app.py:59-65 | The S3 loop succeeds exactly when the products up to the first General Purpose one are well formed and that one has a price. It then sets only `s3GbMonth`, to that price, or keeps it when there is no match. |
| `Selection.ScanS3StopsAtMatch` | app.py:59-65 | Products after the first General Purpose one are never looked at, so they cannot change or fail the result |
| `Properties.ResolveFromDocuments` | app.py:22-77 | With every document fetched, the result is the live record when both scans get through, and exactly the fallback record otherwise |
| `Properties.EfsEbsAlwaysConstant` | app.py:27-77 | Every returned record, live or fallback, has EFS 0.30 and EBS 0.10 |
| `Properties.PricesNonNegative` | app.py:27-77 | When price texts parse only to non-negative numbers, all five fields are non-negative |
| `Properties.FallbackWhenIndexUnreachable` | app.py:24-77 | An unreachable offers index yields exactly {0.0000002, 0.00001667, 0.023, 0.30, 0.10} |
| `Properties.FallbackWhenRegionUnlisted` | app.py:36-40 | A region code missing from the Lambda or the S3 region index yields exactly the fallback record |
| `Properties.S3FailureDiscardsLambdaPrices` | app.py:43-77 | An S3-stage failure after a successful Lambda scan yields the fallback record, discarding the Lambda prices found |
| `Properties.UnmatchedFieldsKeepFallback` | app.py:27-77 | The initial record equals the fallback record. A selector that matches nothing leaves its field at the fallback value. |
| `Properties.NothingMatchedIsFallback` | app.py:27-77 | When no product matches any selector, the result is the fallback record, whether the scans fail or not |

## Left out

- HTTP (`requests.get(..., timeout=10)`) and `.json()`: the network is a map from URL to decoded document. A timeout, a network error or an undecodable body is an absent URL. The number and order of requests are not modelled.
- `float(...)`: parsing a price text is a parameter `parse` that may fail. Prices are exact `real`s. This model does not cover IEEE rounding, or the NaN and infinite values that `float` returns for texts such as "nan", "inf" or "1e999": `parse` can return only finite values. The fallback constants are the decimal literals of the source.
- The 24-hour cache (`@st.cache_data(ttl=86400)`): its behaviour lives in the library, and every call is modelled as a cache miss.
- The warning shown on the fallback path (app.py:70), all Streamlit UI, the cost formulas and their formatting, and the static pros/cons text.
- JSON objects with a repeated key: the decoder keeps one value per key, and the model's lookup takes the first pair with the key. The model does not reproduce how the decoder merges repeated keys.
- A sku that is not a string is a failure. In Python, an integer sku could index an `OnDemand` section that is a JSON array rather than an object. The price documents never have that shape.
- `Regions.RegionCode`: a label outside the options has no code, where the source raises ValueError. The select box never offers such a label.
