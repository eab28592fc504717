/**
 * The fund page's view model: the rows it derives from the fund query before handing them to
 * tables and panels. `fund && ...` in the page becomes an `Option<FundRecord>` here.
 */
module Fund {
  import opened Optional
  import opened Decimal
  import opened Text

  datatype Asset = Asset(id: string, symbol: string, decimals: int)

  /** One row of `fund.currentHoldings`; `amount` is an integer as a decimal string. */
  datatype Holding = Holding(asset: Asset, amount: string, assetGav: string, timestamp: string)

  datatype Policy = Policy(
    identifier: string,
    maxConcentration: string,
    priceTolerance: string,
    maxPositions: string,
    assetWhiteList: seq<Asset>)

  datatype Component = Component(id: string)
  datatype PolicyManager = PolicyManager(id: string, policies: seq<Policy>)
  datatype Exchange = Exchange(name: string)
  datatype Trading = Trading(id: string, exchanges: seq<Exchange>)

  /** The fields of the fund record that the derivations read; a missing component is None. */
  datatype FundRecord = FundRecord(
    id: string,
    name: string,
    isShutdown: bool,
    currentHoldings: seq<Holding>,
    accounting: Option<Component>,
    feeManager: Option<Component>,
    participation: Option<Component>,
    policyManager: Option<PolicyManager>,
    share: Option<Component>,
    trading: Option<Trading>,
    vault: Option<Component>)

  // ---------------------------------------------------------------- current holdings

  /** `new BigNumber(amount).isZero()` on an integer amount. */
  predicate IsZeroAmount(amount: string)
    requires IsDecimal(amount)
  {
    ParseInt(amount) == 0
  }

  predicate AmountsDecimal(holdings: seq<Holding>) {
    forall h :: h in holdings ==> IsDecimal(h.amount)
  }

  /** The filter's test: the holding is from the snapshot at `firstTimestamp` and is not empty. */
  predicate IsCurrent(h: Holding, firstTimestamp: string)
    requires IsDecimal(h.amount)
  {
    h.timestamp == firstTimestamp && !IsZeroAmount(h.amount)
  }

  /** `sub` is `s` with some elements left out and the rest in their order. */
  predicate IsSubsequence<T(==)>(sub: seq<T>, s: seq<T>)
    decreases |s|
  {
    if sub == [] then true
    else if s == [] then false
    else (sub[0] == s[0] && IsSubsequence(sub[1..], s[1..])) || IsSubsequence(sub, s[1..])
  }

  /** `holdings.filter(h => IsCurrent(h, firstTimestamp))`. */
  function KeepCurrent(holdings: seq<Holding>, firstTimestamp: string): (kept: seq<Holding>)
    requires AmountsDecimal(holdings)
    ensures IsSubsequence(kept, holdings)
    ensures forall h :: h in kept ==> h in holdings && IsCurrent(h, firstTimestamp)
    ensures forall h :: h in holdings && IsCurrent(h, firstTimestamp) ==>
      multiset(kept)[h] == multiset(holdings)[h]
    decreases |holdings|
  {
    if holdings == [] then []
    else
      var rest := KeepCurrent(holdings[1..], firstTimestamp);
      assert holdings == [holdings[0]] + holdings[1..];
      if IsCurrent(holdings[0], firstTimestamp) then [holdings[0]] + rest else rest
  }

  /**
   * Lines 133-137 of the fund page: with no fund there is nothing; otherwise the holdings that
   * share the timestamp of the first holding of the unfiltered list and have a non-zero amount.
   */
  function CurrentHoldings(fund: Option<FundRecord>): (r: Option<seq<Holding>>)
    requires fund.Some? ==> AmountsDecimal(fund.value.currentHoldings)
    ensures r.None? <==> fund.None?
    ensures r.Some? ==> IsSubsequence(r.value, fund.value.currentHoldings)
    ensures r.Some? ==> forall h :: h in r.value ==>
      h in fund.value.currentHoldings &&
      h.timestamp == fund.value.currentHoldings[0].timestamp && !IsZeroAmount(h.amount)
  {
    match fund
    case None => None
    case Some(f) =>
      var hs := f.currentHoldings;
      if hs == [] then Some([]) else Some(KeepCurrent(hs, hs[0].timestamp))
  }

  /** The filter drops nothing else: every holding of the first snapshot with a non-zero amount stays, as often as it occurs. */
  lemma CurrentHoldingsComplete(f: FundRecord, h: Holding)
    requires AmountsDecimal(f.currentHoldings)
    requires h in f.currentHoldings && h.timestamp == f.currentHoldings[0].timestamp
    requires !IsZeroAmount(h.amount)
    ensures multiset(CurrentHoldings(Some(f)).value)[h] == multiset(f.currentHoldings)[h] > 0
  {
  }

  /**
   * An empty first holding is dropped itself, yet its timestamp still selects the others:
   * the result is the rest of the list filtered against that timestamp.
   */
  lemma ZeroFirstHoldingDropped(f: FundRecord)
    requires AmountsDecimal(f.currentHoldings) && f.currentHoldings != []
    requires IsZeroAmount(f.currentHoldings[0].amount)
    ensures f.currentHoldings[0] !in CurrentHoldings(Some(f)).value
    ensures CurrentHoldings(Some(f)).value
      == KeepCurrent(f.currentHoldings[1..], f.currentHoldings[0].timestamp)
  {
  }

  // ---------------------------------------------------------------- policies

  datatype CategorisedPolicy = CategorisedPolicy(policy: Policy, category: string)

  predicate IsComplianceIdentifier(identifier: string) {
    identifier == "UserWhitelist" || identifier == "UserBlackList"
  }

  /** The ruleset table's category column: user white- and blacklists are compliance rules. */
  function Category(identifier: string): (category: string)
    ensures category == "Compliance" <==> IsComplianceIdentifier(identifier)
    ensures category == "Risk Management" <==> !IsComplianceIdentifier(identifier)
  {
    if IsComplianceIdentifier(identifier) then "Compliance" else "Risk Management"
  }

  function Categorise(policies: seq<Policy>): (r: seq<CategorisedPolicy>)
    ensures |r| == |policies|
    ensures forall i :: 0 <= i < |r| ==>
      r[i].policy == policies[i] && r[i].category == Category(policies[i].identifier)
    decreases |policies|
  {
    if policies == [] then []
    else [CategorisedPolicy(policies[0], Category(policies[0].identifier))] + Categorise(policies[1..])
  }

  /** Lines 143-152: each policy of the policy manager with its category; nothing without one. */
  function Policies(fund: Option<FundRecord>): (r: Option<seq<CategorisedPolicy>>)
    ensures r.Some? <==> fund.Some? && fund.value.policyManager.Some?
    ensures r.Some? ==>
      var policies := fund.value.policyManager.value.policies;
      |r.value| == |policies| &&
      forall i :: 0 <= i < |r.value| ==>
        r.value[i].policy == policies[i] &&
        (r.value[i].category == "Compliance" <==> IsComplianceIdentifier(policies[i].identifier)) &&
        (r.value[i].category == "Risk Management" <==> !IsComplianceIdentifier(policies[i].identifier))
  {
    match fund
    case None => None
    case Some(f) =>
      match f.policyManager
      case None => None
      case Some(pm) => Some(Categorise(pm.policies))
  }

  // ---------------------------------------------------------------- component contracts

  datatype ContractName = ContractName(name: string, field: string)
  datatype ContractAddress = ContractAddress(name: string, field: string, address: Option<string>)

  /** The component contracts listed on the fund page, in display order, with the fund field each is read from. */
  const ContractNames: seq<ContractName> := [
    ContractName("Accounting", "accounting"),
    ContractName("FeeManager", "feeManager"),
    ContractName("Participation", "participation"),
    ContractName("PolicyManager", "policyManager"),
    ContractName("Shares", "share"),
    ContractName("Trading", "trading"),
    ContractName("Vault", "vault")
  ]

  function IdOf(c: Option<Component>): Option<string> {
    if c.Some? then Some(c.value.id) else None
  }

  /** `fund[field] && fund[field].id`: the id of the named component, None when it is missing. */
  function ComponentId(f: FundRecord, field: string): Option<string> {
    match field
    case "accounting" => IdOf(f.accounting)
    case "feeManager" => IdOf(f.feeManager)
    case "participation" => IdOf(f.participation)
    case "policyManager" => if f.policyManager.Some? then Some(f.policyManager.value.id) else None
    case "share" => IdOf(f.share)
    case "trading" => if f.trading.Some? then Some(f.trading.value.id) else None
    case "vault" => IdOf(f.vault)
    case _ => None
  }

  function AddressesOf(f: FundRecord, names: seq<ContractName>): (r: seq<ContractAddress>)
    ensures |r| == |names|
    ensures forall i :: 0 <= i < |r| ==>
      r[i] == ContractAddress(names[i].name, names[i].field, ComponentId(f, names[i].field))
    decreases |names|
  {
    if names == [] then []
    else
      [ContractAddress(names[0].name, names[0].field, ComponentId(f, names[0].field))]
        + AddressesOf(f, names[1..])
  }

  /** Lines 154-168: one row per component contract, nothing without a fund. */
  function ContractAddresses(fund: Option<FundRecord>): (r: Option<seq<ContractAddress>>)
    ensures r.None? <==> fund.None?
    ensures r.Some? ==> (
      |r.value| == 7 &&
      forall i :: 0 <= i < 7 ==> r.value[i].name == ContractNames[i].name && r.value[i].field == ContractNames[i].field)
  {
    if fund.None? then None else Some(AddressesOf(fund.value, ContractNames))
  }

  /** Each row carries the id of the very sub-record it is named after, in the fixed order. */
  lemma ContractAddressesByName(f: FundRecord)
    ensures var r := ContractAddresses(Some(f)).value;
      && r[0] == ContractAddress("Accounting", "accounting", IdOf(f.accounting))
      && r[1] == ContractAddress("FeeManager", "feeManager", IdOf(f.feeManager))
      && r[2] == ContractAddress("Participation", "participation", IdOf(f.participation))
      && r[3] == ContractAddress("PolicyManager", "policyManager",
                                 if f.policyManager.Some? then Some(f.policyManager.value.id) else None)
      && r[4] == ContractAddress("Shares", "share", IdOf(f.share))
      && r[5] == ContractAddress("Trading", "trading",
                                 if f.trading.Some? then Some(f.trading.value.id) else None)
      && r[6] == ContractAddress("Vault", "vault", IdOf(f.vault))
  {
    var r := ContractAddresses(Some(f)).value;
    assert r[0].field == "accounting" && r[1].field == "feeManager" && r[2].field == "participation";
    assert r[3].field == "policyManager" && r[4].field == "share" && r[5].field == "trading";
    assert r[6].field == "vault";
  }

  // ---------------------------------------------------------------- policy parameters

  function Symbols(assets: seq<Asset>): (symbols: seq<string>)
    ensures |symbols| == |assets|
    ensures forall i :: 0 <= i < |assets| ==> symbols[i] == assets[i].symbol
    decreases |assets|
  {
    if assets == [] then [] else [assets[0].symbol] + Symbols(assets[1..])
  }

  /** Lines 273-276: `assetWhiteList.map(a => a.symbol).sort().join(', ')`. */
  function WhitelistParameter(assets: seq<Asset>): (text: string)
  {
    Join(Sort(Symbols(assets)), ", ")
  }

  /**
   * The whitelist cell is the symbols in ascending order joined with ", ": for ANY ascending
   * arrangement of exactly the whitelist's symbols, the cell is that arrangement joined.
   */
  lemma WhitelistIsSortedJoin(assets: seq<Asset>, ordered: seq<string>)
    requires Sorted(ordered) && multiset(ordered) == multiset(Symbols(assets))
    ensures WhitelistParameter(assets) == Join(ordered, ", ")
  {
    SortedUnique(Sort(Symbols(assets)), ordered);
  }

  /**
   * The parameters column. The percentages go through `formatBigNumber`, which is not part of
   * this model: the cell keeps the string handed to it (the raw value with "00" appended).
   */
  datatype ParameterCell = Percent(scaled: string) | Shown(text: string) | Blank

  /** Lines 264-278: the cell by policy identifier; any other identifier renders nothing. */
  function Parameters(p: Policy): (cell: ParameterCell)
    ensures p.identifier == "Max concentration" ==> cell == Percent(p.maxConcentration + "00")
    ensures p.identifier == "Price tolerance" ==> cell == Percent(p.priceTolerance + "00")
    ensures p.identifier == "Max positions" ==> cell == Shown(p.maxPositions)
    ensures p.identifier == "Asset whitelist" ==> cell == Shown(WhitelistParameter(p.assetWhiteList))
    ensures cell.Blank? <==>
      p.identifier !in {"Max concentration", "Price tolerance", "Max positions", "Asset whitelist"}
  {
    match p.identifier
    case "Max concentration" => Percent(p.maxConcentration + "00")
    case "Price tolerance" => Percent(p.priceTolerance + "00")
    case "Max positions" => Shown(p.maxPositions)
    case "Asset whitelist" => Shown(WhitelistParameter(p.assetWhiteList))
    case _ => Blank
  }

  // ---------------------------------------------------------------- investment requests

  datatype InvestmentRequest = InvestmentRequest(
    id: string,
    ownerId: string,
    requestTimestamp: string,
    status: string,
    shares: string,
    amount: string)

  /** `{ ...item, status, expires }`: the request row with its displayed status and expiry. */
  datatype PendingInvestment = PendingInvestment(request: InvestmentRequest, status: string, expires: Option<int>)

  /** A request can be executed for one day, in seconds. */
  const RequestLifetime: nat := 24 * 60 * 60

  /** The largest time value, in milliseconds, that an ECMAScript `Date` can hold. */
  const MaxTimeValue: int := 8_640_000_000_000_000

  /** `new Date(ms).getTime()` on an integer: the value itself in range, NaN (None) beyond it. */
  function TimeValue(ms: int): (t: Option<int>)
    ensures t.Some? <==> -MaxTimeValue <= ms <= MaxTimeValue
    ensures t.Some? ==> t.value == ms
  {
    if -MaxTimeValue <= ms <= MaxTimeValue then Some(ms) else None
  }

  /** `nowMs > new Date(expires * 1000).getTime()`; a comparison with NaN is false. */
  predicate IsExpired(nowMs: int, expires: int) {
    var t := TimeValue(expires * 1000);
    t.Some? && nowMs > t.value
  }

  /** Lines 170-181 for one request, with the clock reading `nowMs` passed in. */
  function ExpireRequest(item: InvestmentRequest, nowMs: int): (r: PendingInvestment)
    requires IsDecimal(item.requestTimestamp)
    ensures r.request == item
    ensures var expires := ParseInt(item.requestTimestamp) + RequestLifetime;
      if IsExpired(nowMs, expires) then r.status == "EXPIRED" && r.expires.None?
      else r.status == item.status && r.expires == Some(expires)
  {
    var expires := ParseInt(item.requestTimestamp) + RequestLifetime;
    if IsExpired(nowMs, expires) then PendingInvestment(item, "EXPIRED", None)
    else PendingInvestment(item, item.status, Some(expires))
  }

  /**
   * For any request timestamp a `Date` can represent, the request has expired exactly when the
   * clock is strictly past one day after it: at that very millisecond it is still pending.
   */
  lemma ExpiryIsStrict(item: InvestmentRequest, nowMs: int)
    requires IsDecimal(item.requestTimestamp)
    requires (ParseInt(item.requestTimestamp) + RequestLifetime) * 1000 <= MaxTimeValue
    ensures ExpireRequest(item, nowMs).expires.None?
      <==> nowMs > (ParseInt(item.requestTimestamp) + RequestLifetime) * 1000
    ensures nowMs == (ParseInt(item.requestTimestamp) + RequestLifetime) * 1000 ==>
      ExpireRequest(item, nowMs) == PendingInvestment(item, item.status, Some(nowMs / 1000))
  {
  }

  /** Once expired, a request stays expired as the clock moves on. */
  lemma ExpiryIsPermanent(item: InvestmentRequest, nowMs: int, laterMs: int)
    requires IsDecimal(item.requestTimestamp) && nowMs <= laterMs
    requires ExpireRequest(item, nowMs).status == "EXPIRED" && ExpireRequest(item, nowMs).expires.None?
    ensures ExpireRequest(item, laterMs) == PendingInvestment(item, "EXPIRED", None)
  {
  }

  /** A timestamp too large for a `Date` compares against NaN, so that request never expires. */
  lemma FarFutureNeverExpires(item: InvestmentRequest, nowMs: int)
    requires IsDecimal(item.requestTimestamp)
    requires (ParseInt(item.requestTimestamp) + RequestLifetime) * 1000 > MaxTimeValue
    ensures ExpireRequest(item, nowMs).status == item.status
    ensures ExpireRequest(item, nowMs).expires.Some?
  {
  }

  predicate TimestampsDecimal(requests: seq<InvestmentRequest>) {
    forall r :: r in requests ==> IsDecimal(r.requestTimestamp)
  }

  function ExpireAll(requests: seq<InvestmentRequest>, nowMs: int): (r: seq<PendingInvestment>)
    requires TimestampsDecimal(requests)
    ensures |r| == |requests|
    ensures forall i :: 0 <= i < |r| ==> r[i] == ExpireRequest(requests[i], nowMs)
    decreases |requests|
  {
    if requests == [] then []
    else [ExpireRequest(requests[0], nowMs)] + ExpireAll(requests[1..], nowMs)
  }

  /** Lines 170-182: `pathOr([], ['data', 'investmentRequests'])` mapped through the expiry rule. */
  function InvestmentRequests(requests: Option<seq<InvestmentRequest>>, nowMs: int): (r: seq<PendingInvestment>)
    requires requests.Some? ==> TimestampsDecimal(requests.value)
    ensures requests.None? ==> r == []
    ensures requests.Some? ==> (
      |r| == |requests.value| &&
      forall i :: 0 <= i < |r| ==>
        r[i].request == requests.value[i] &&
        (r[i].expires.None? <==> IsExpired(nowMs, ParseInt(requests.value[i].requestTimestamp) + RequestLifetime)) &&
        (r[i].expires.None? ==> r[i].status == "EXPIRED") &&
        (r[i].expires.Some? ==> r[i].status == requests.value[i].status))
  {
    if requests.None? then [] else ExpireAll(requests.value, nowMs)
  }

  // ---------------------------------------------------------------- links and labels

  const FundPrefix := "/fund?address="
  const DebugSuffix := "&debug=1"
  const AssetPrefix := "/asset?address="
  const InvestorPrefix := "/investor?address="

  /** JavaScript's `'' + x` for a query parameter that may be missing. */
  function ParamText(param: Option<string>): string {
    if param.Some? then param.value else "undefined"
  }

  /** Line 56: the link to the same fund page with the debug event list switched on. */
  function DebugLink(address: Option<string>): (link: string)
    ensures |link| == |FundPrefix| + |ParamText(address)| + |DebugSuffix|
    ensures StripPrefix(link, FundPrefix) == Some(ParamText(address) + DebugSuffix)
  {
    var link := FundPrefix + ParamText(address) + DebugSuffix;
    assert link == FundPrefix + (ParamText(address) + DebugSuffix);
    StripPrefixOfConcat(FundPrefix, ParamText(address) + DebugSuffix);
    link
  }

  /** Line 325: a holdings row opens the page of its asset. */
  function AssetUrl(assetId: string): (url: string)
    ensures StripPrefix(url, AssetPrefix) == Some(assetId)
  {
    StripPrefixOfConcat(AssetPrefix, assetId);
    AssetPrefix + assetId
  }

  /** Lines 470, 532 and 603: an investor row opens the page of its owner. */
  function InvestorUrl(ownerId: string): (url: string)
    ensures StripPrefix(url, InvestorPrefix) == Some(ownerId)
  {
    StripPrefixOfConcat(InvestorPrefix, ownerId);
    InvestorPrefix + ownerId
  }

  /** Distinct rows open distinct pages, and an asset page is never an investor page. */
  lemma RowUrlsDistinct(a: string, b: string)
    ensures AssetUrl(a) == AssetUrl(b) <==> a == b
    ensures InvestorUrl(a) == InvestorUrl(b) <==> a == b
    ensures AssetUrl(a) != InvestorUrl(b)
  {
    assert AssetUrl(a)[1] == 'a' && InvestorUrl(b)[1] == 'i';
  }

  /** Line 201: `fund && fund.isShutdown ? 'Inactive' : 'Active'`, so no fund reads as Active. */
  function FundStatus(fund: Option<FundRecord>): (status: string)
    ensures status == "Inactive" <==> fund.Some? && fund.value.isShutdown
    ensures status == "Active" <==> !(fund.Some? && fund.value.isShutdown)
  {
    if fund.Some? && fund.value.isShutdown then "Inactive" else "Active"
  }

  /** What a panel entry renders: nothing, a text, or a TypeError thrown while rendering. */
  datatype Rendered = Nothing | Text(text: string) | TypeError

  function ExchangeNames(exchanges: seq<Exchange>): (names: seq<string>)
    ensures |names| == |exchanges|
    ensures forall i :: 0 <= i < |exchanges| ==> names[i] == exchanges[i].name
    decreases |exchanges|
  {
    if exchanges == [] then [] else [exchanges[0].name] + ExchangeNames(exchanges[1..])
  }

  /**
   * Lines 239-244: the names of the authorised exchanges joined with ", ". Without a fund the
   * entry is empty; a fund without a trading component makes `fund.trading.exchanges` throw.
   */
  function AuthorizedExchanges(fund: Option<FundRecord>): (r: Rendered)
    ensures fund.None? <==> r.Nothing?
    ensures r.TypeError? <==> fund.Some? && fund.value.trading.None?
    ensures r.Text? ==> r.text == Join(ExchangeNames(fund.value.trading.value.exchanges), ", ")
  {
    match fund
    case None => Nothing
    case Some(f) =>
      match f.trading
      case None => TypeError
      case Some(t) => Text(Join(ExchangeNames(t.exchanges), ", "))
  }

  /** In the exchanges entry, exchange `i`'s name stands at its offset, with ", " after all but the last. */
  lemma ExchangeNameAt(f: FundRecord, i: nat)
    requires f.trading.Some? && i < |f.trading.value.exchanges|
    ensures var names := ExchangeNames(f.trading.value.exchanges);
      var text := AuthorizedExchanges(Some(f)).text;
      var o := Offset(names, ", ", i);
      o + |names[i]| <= |text| && text[o..o + |names[i]|] == f.trading.value.exchanges[i].name &&
      (i + 1 < |names| ==> o + |names[i]| + 2 <= |text| && text[o + |names[i]|..o + |names[i]| + 2] == ", ")
  {
    var names := ExchangeNames(f.trading.value.exchanges);
    JoinPart(names, ", ", i);
  }
}
