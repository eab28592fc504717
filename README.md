# Melon subgraph dashboard: view-model derivations

The dashboard renders fund and engine pages from rows that an indexing service returns over
GraphQL. Before those rows reach the tables and charts, the pages derive a few lists and
records from them. This project models those derivations in Dafny and proves what they promise.

- **Engine page** (`engine.dfy`, module `Engine`). The cumulative amgu series is an exclusive
  prefix sum over the `amguPayments` rows. It is built by a loop that pushes each row with the
  running carry, then adds the row's `parseInt(amount, 10)` to the carry. The events table
  labels a `Thaw` event ETH and every other event MLN.
- **Fund page** (`fund.dfy`, module `Fund`). This holds the current-holdings filter and the policy
  categories. It also holds the table of component-contract addresses, the one-day expiry of
  investment requests (the clock reading is a parameter), and the policy-parameter cell with its
  sorted, comma-joined asset whitelist. Finally it holds the URL builders, the Active/Inactive
  label and the authorised-exchange list.
- **Support modules**. `decimal.dfy` (`Decimal`) models `parseInt` on digit strings, with its inverse `Show`.
  `text.dfy` (`Text`) models `join`, the default string order and result of `Array.prototype.sort`,
  and prefix stripping for reading URLs back. `optional.dfy` (`Optional`) gives `Option`, which
  stands for JavaScript's `undefined`.

`fund && …` guards become an `Option<FundRecord>` argument. A missing component sub-record is
`None`. A property read that would throw a `TypeError` (`fund.trading.exchanges` without a trading
component) is modelled as the outcome `Rendered.TypeError`.

## Model

| member | source | states |
|---|---|---|
| Engine.AmguPayments | pages/engine.tsx:28 | the payment list is the query's `amguPayments`, and empty when there is no data or no `amguPayments` |
| Engine.Accumulate | pages/engine.tsx:31-34 | the reduce as a fold from a carry; the series has one entry per payment |
| Engine.AccumulateAt | pages/engine.tsx:31-33 | entry k of the fold is payment k, unchanged, with the carry plus the parsed amounts of payments 0..k-1 |
| Engine.AccumulatePrefixSums | pages/engine.tsx:31-34 | from carry 0, every entry k holds payment k and the sum of the amounts strictly before it |
| Engine.AmguCumulative | pages/engine.tsx:30-34 | the push loop yields the fold from 0: same length and order, every payment kept, entry i = sum of amounts 0..i-1, first entry 0 |
| Engine.AccumulateStep | pages/engine.tsx:32-33 | consecutive entries differ by exactly the earlier payment's parsed amount |
| Engine.AccumulateMonotone | pages/engine.tsx:31-34 | the running totals never decrease |
| Engine.FinalTotalDiscarded | pages/engine.tsx:31-34 | the last entry plus the last amount is the full total; if that amount is non-zero, every entry is below the full total, which never appears |
| Engine.NoPaymentsNoSeries | pages/engine.tsx:28-34 | no data or no `amguPayments` gives an empty payment list and an empty series |
| Engine.EventAsset | pages/engine.tsx:146 | the asset is 'ETH' exactly when the event is 'Thaw', and 'MLN' exactly otherwise |
| Decimal.ParseShow | pages/engine.tsx:33 | parseInt is the inverse of the decimal rendering of a natural number |
| Decimal.ParseLeadingZero | pages/fund.tsx:171 | a leading zero does not change the parsed value |
| Decimal.ParseIntZero | pages/fund.tsx:136 | an integer amount is zero exactly when every digit is '0' |
| Text.JoinLength | pages/fund.tsx:240-244 | the joined string is as long as the parts plus one separator between each pair |
| Text.JoinPart | pages/fund.tsx:273-276 | each part stands at its offset in the joined string, with exactly the separator between it and the next part |
| Text.LessEqTotal | pages/fund.tsx:275 | any two strings are ordered one way or the other |
| Text.LessEqAntisymmetric | pages/fund.tsx:275 | strings ordered both ways are equal |
| Text.LessEqTransitive | pages/fund.tsx:275 | the string order is transitive |
| Text.Insert | pages/fund.tsx:275 | inserting into a sorted list keeps it sorted and adds exactly that element |
| Text.Sort | pages/fund.tsx:275 | the sorted list is in ascending order and is a permutation of the input |
| Text.SortedUnique | pages/fund.tsx:275 | two ascending permutations of the same strings are equal, so the sort result is determined |
| Fund.KeepCurrent | pages/fund.tsx:135-137 | the kept holdings are an order-preserving subsequence; every kept one passes the test; every one that passes is kept as often as it occurs |
| Fund.CurrentHoldings | pages/fund.tsx:133-137 | nothing without a fund; otherwise a subsequence of the holdings, each with the first holding's timestamp and a non-zero amount |
| Fund.CurrentHoldingsComplete | pages/fund.tsx:135-137 | a holding with the first holding's timestamp and a non-zero amount is kept, with all its occurrences |
| Fund.ZeroFirstHoldingDropped | pages/fund.tsx:136 | a zero-amount first holding is dropped, yet the rest is filtered against its timestamp |
| Fund.Category | pages/fund.tsx:147-150 | 'Compliance' exactly for 'UserWhitelist' or 'UserBlackList', 'Risk Management' exactly otherwise |
| Fund.Categorise | pages/fund.tsx:146-152 | one row per policy, in order, each policy unchanged with its category |
| Fund.Policies | pages/fund.tsx:143-152 | present exactly with a fund and a policy manager; then every policy kept in order, 'Compliance' iff a user white/blacklist |
| Fund.AddressesOf | pages/fund.tsx:164-168 | one row per contract name, in order, carrying the id of the field it names |
| Fund.ContractAddresses | pages/fund.tsx:154-168 | nothing without a fund; otherwise exactly 7 rows with the fixed names and fields in order |
| Fund.ContractAddressesByName | pages/fund.tsx:154-168 | Accounting … Vault each carry the id of their own sub-record, or nothing when it is missing |
| Fund.Symbols | pages/fund.tsx:273-274 | the whitelist's symbols, one per asset, in order |
| Fund.WhitelistIsSortedJoin | pages/fund.tsx:273-276 | the whitelist cell is any ascending permutation of the symbols, joined with ', ' |
| Fund.Parameters | pages/fund.tsx:264-278 | the parameter cell for the four known identifiers, and blank exactly for every other identifier |
| Fund.TimeValue | pages/fund.tsx:173 | a Date keeps an integer time value within ±8.64e15 ms, and is NaN beyond it |
| Fund.ExpireRequest | pages/fund.tsx:171-181 | past one day after the request: 'EXPIRED' and no expiry; otherwise the status is unchanged and the expiry is timestamp + 86400 |
| Fund.ExpiryIsStrict | pages/fund.tsx:171-176 | for representable dates, expired exactly when now > (timestamp + 86400) * 1000; at that instant still pending |
| Fund.ExpiryIsPermanent | pages/fund.tsx:173-176 | an expired request stays expired at any later time |
| Fund.FarFutureNeverExpires | pages/fund.tsx:173-176 | an expiry beyond the Date range compares against NaN and never expires |
| Fund.ExpireAll | pages/fund.tsx:170-182 | one row per request, in order, each with the expiry rule applied |
| Fund.InvestmentRequests | pages/fund.tsx:170-182 | empty without request data; otherwise every request kept in order, expiry absent exactly when expired, then 'EXPIRED', else the original status |
| Fund.DebugLink | pages/fund.tsx:56 | the link is '/fund?address=' then the address ('undefined' when missing) then '&debug=1' |
| Fund.AssetUrl | pages/fund.tsx:325 | stripping '/asset?address=' from the URL gives back the asset id |
| Fund.InvestorUrl | pages/fund.tsx:470 | stripping '/investor?address=' from the URL gives back the owner id |
| Fund.RowUrlsDistinct | pages/fund.tsx:325 | asset and investor URLs are equal exactly when the ids are, and never coincide with each other |
| Fund.FundStatus | pages/fund.tsx:201 | 'Inactive' exactly for a fund that is shut down, 'Active' otherwise, including when there is no fund |
| Fund.ExchangeNames | pages/fund.tsx:240-243 | the exchange names, one per exchange, in order |
| Fund.AuthorizedExchanges | pages/fund.tsx:239-244 | nothing exactly without a fund; a TypeError exactly without a trading component; otherwise the names joined with ', ' |
| Fund.ExchangeNameAt | pages/fund.tsx:240-244 | each exchange name stands at its offset in the entry, followed by ', ' unless it is the last |

## Left out

- Floating-point finance: daily and log returns, the clamp on daily returns, last share-price change, return since inception, annualized return, volatility and the chart bounds (pages/fund.tsx:73-129). The days shown for the thawing delay and the fee period are divisions on doubles too (pages/engine.tsx:56, pages/fund.tsx:225). Dafny's integers and reals do not model IEEE doubles.
- Engine.AmguCumulative: the carry and `parseInt` are doubles in JavaScript; the model adds exact integers, which agree only while sums stay below 2^53.
- Fund.ExpireRequest: `parseInt` of a timestamp above 2^53 rounds in JavaScript; the model parses exactly.
- `parseInt` and `BigNumber` on strings that are not non-empty decimal digit strings (signs, fractions, hex, NaN) are outside the model; amounts and timestamps are required to be digit strings.
- Text.LessEq: JavaScript compares UTF-16 code units, the model compares characters; the two differ only for characters outside the Basic Multilingual Plane.
- Fund.Parameters: `formatBigNumber` is not part of this model, so the percentage cells keep the string handed to it (the raw value with '00' appended) instead of the formatted text.
- The `pathOr` lookups of the engine state and current engine (pages/engine.tsx:36-37), `feesPaidOut` (pages/fund.tsx:141), `investments` and `investmentHistory` (pages/fund.tsx:131, 139) pass query fields through unchanged to the widgets; they carry no logic to state.
- `formatBigNumber`, `formatDate`, `formatThousands`, `hexToString`, `sortBigNumber`, `standardDeviation` and the paginated query hook `useScrapingQuery` are not part of this model; their sources are not available.
- Data fetching (`useQuery`), routing (`useRouter`; the router is taken to be present, and a missing `address` query parameter reads as `undefined`), `window.open`, and the wall clock (`new Date()` is the `nowMs` parameter).
- All React and Material-UI rendering, table column configuration, charts, the line-item component, and the fixed GraphQL documents of queries/.
