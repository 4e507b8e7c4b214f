/**
 The quote store as values (mock_qms/store.py): its state, and every command as a function from
 the state, the answers of the other services and the clock to a new state or an error.
 */
module QuoteModel {
  import opened Base
  import opened Calculator
  import opened Decimals
  import opened Moneys

  datatype Status = Draft | Priced | ApprovalRequired | Approved | Rejected | Revise

  predicate IsDecided(s: Status) {
    s == Approved || s == Rejected || s == Revise
  }

  type Decision = s: Status | IsDecided(s) witness Approved

  /** What agents compose into a draft. */
  datatype Inputs = Inputs(recommendationId: Option<string>, selectedRouteId: Option<string>, rateRefs: seq<string>,
                           fxRateRef: Option<string>, pricingTermsRef: Option<string>, marginFloorRef: Option<string>)

  const NO_INPUTS := Inputs(None, None, [], None, None, None)

  /** What pricing computes. */
  datatype Outputs = Outputs(totalCost: Option<int>, sellPrice: Option<int>, policyRef: Option<string>,
                             margin: Option<int>, fxRateSnapshot: Option<real>, rules: seq<RuleResult>)

  const NO_OUTPUTS := Outputs(None, None, None, None, None, [])

  const POLICY_REF: string := "demo-cost-plus-margin-v1"

  datatype Version = Version(quoteId: string, number: int, prior: Option<int>, status: Status, currency: string,
                             createdAt: string, createdBy: Option<string>, triggerEventRef: Option<string>,
                             inputs: Inputs, outputs: Outputs)

  datatype Quote = Quote(quoteId: string, rfqId: string, customerId: string, currency: string,
                         latestVersion: int, latestStatus: Status, createdAt: string)

  datatype DecisionRecord = DecisionRecord(decision: Status, approver: string, reason: Option<string>,
                                           decidedAt: string)

  datatype Store = Store(quotes: map<string, Quote>, versions: map<string, seq<Version>>,
                         decisions: map<string, seq<DecisionRecord>>, nextId: nat)

  const EMPTY := Store(map[], map[], map[], 1001)

  datatype StoreError =
    | UnknownCustomer
    | UnknownCurrency
    | UnknownQuote
    | VersionConflict
    | InvalidState
    | ComposeIncomplete
    | RouteUnavailable
    | ServiceFailure
    | EmptyHistory // an IndexError
    | MoneyProblem(error: MoneyError)

  // ---------------------------------------------------------------- the other services

  datatype Answer<+T> = Found(value: T) | NoRecord | Unreachable

  datatype Rate = Rate(currency: string, baseCost: int, surcharges: int)

  datatype Conversion = Conversion(convertedAmount: real, minorUnit: nat, rate: real)

  /** What the services would answer during one call. */
  datatype Facts = Facts(configured: bool, party: string -> Answer<bool>, eurMinorUnit: Answer<nat>,
                         routeState: string -> Answer<string>, rate: string -> Answer<Rate>,
                         convert: (int, string) -> Answer<Conversion>)

  function ValidateCustomer(facts: Facts, customerId: string): Result<bool, StoreError> {
    match facts.party(customerId)
    case Found(_) => Ok(true)
    case NoRecord => Err(UnknownCustomer)
    case Unreachable => Err(ServiceFailure)
  }

  function RouteIsPricable(facts: Facts, routeId: string): Result<bool, StoreError> {
    match facts.routeState(routeId)
    case Found(state) => if state == "unavailable" then Err(RouteUnavailable) else Ok(true)
    case NoRecord => Err(RouteUnavailable)
    case Unreachable => Err(ServiceFailure)
  }

  function AsMoney(m: Result<Money, MoneyError>): Result<Money, StoreError> {
    match m
    case Ok(money) => Ok(money)
    case Err(error) => Err(MoneyProblem(error))
  }

  /** One rate reference as a cost in EUR. */
  function ResolveRate(facts: Facts, routeId: string): Result<RateResolution, StoreError> {
    match facts.rate(routeId)
    case NoRecord => Err(ComposeIncomplete)
    case Unreachable => Err(ServiceFailure)
    case Found(rate) =>
      var amount := rate.baseCost + rate.surcharges;
      if rate.currency == "EUR" then
        match facts.eurMinorUnit
        case NoRecord => Err(UnknownCurrency)
        case Unreachable => Err(ServiceFailure)
        case Found(unit) =>
          var cost :- AsMoney(FromMajor(amount as real, "EUR", unit));
          Ok(RateResolution(routeId, cost, None))
      else
        match facts.convert(amount, rate.currency)
        case NoRecord => Err(ServiceFailure)
        case Unreachable => Err(ServiceFailure)
        case Found(conv) =>
          var cost :- AsMoney(FromMajor(conv.convertedAmount, "EUR", conv.minorUnit));
          Ok(RateResolution(routeId, cost, Some(conv.rate)))
  }

  /** The first `n` rate references, in order; the first problem ends the call. */
  function ResolveRates(facts: Facts, refs: seq<string>, n: nat): (r: Result<seq<RateResolution>, StoreError>)
    requires n <= |refs|
    ensures r.Ok? ==> |r.value| == n && forall k :: 0 <= k < n ==> r.value[k].cost.amountMinor >= 0
  {
    if n == 0 then Ok([])
    else
      var before :- ResolveRates(facts, refs, n - 1);
      var next :- ResolveRate(facts, refs[n - 1]);
      Ok(before + [next])
  }

  // ---------------------------------------------------------------- reading

  predicate NoEmptyHistory(s: Store) {
    forall q :: q in s.versions ==> s.versions[q] != []
  }

  /** The two dictionaries describe the same quotes, and no history is empty. */
  predicate WellKeyed(s: Store) {
    s.quotes.Keys == s.versions.Keys && NoEmptyHistory(s)
  }

  /** The first version carrying that number. */
  function IndexOf(vs: seq<Version>, number: int): (r: Option<nat>)
    ensures r.Some? ==> r.value < |vs| && vs[r.value].number == number
    ensures r.Some? ==> forall k :: 0 <= k < r.value ==> vs[k].number != number
    ensures r.None? ==> forall k :: 0 <= k < |vs| ==> vs[k].number != number
  {
    if vs == [] then None
    else if vs[0].number == number then Some(0)
    else
      match IndexOf(vs[1..], number)
      case None => None
      case Some(k) => Some(k + 1)
  }

  function ListVersions(s: Store, quoteId: string): seq<Version> {
    if quoteId in s.versions then s.versions[quoteId] else []
  }

  function GetVersion(s: Store, quoteId: string, number: int): Option<Version> {
    var vs := ListVersions(s, quoteId);
    match IndexOf(vs, number)
    case None => None
    case Some(k) => Some(vs[k])
  }

  /** What was found, provided it is in the status an operation asks for. */
  function InStatus(found: Option<Version>, status: Status): (r: Result<Version, StoreError>)
    ensures r.Ok? <==> found.Some? && found.value.status == status
    ensures r.Ok? ==> found == Some(r.value)
  {
    match found
    case None => Err(UnknownQuote)
    case Some(v) => if v.status != status then Err(InvalidState) else Ok(v)
  }

  function VersionIn(s: Store, quoteId: string, number: int, status: Status): (r: Result<Version, StoreError>)
    ensures r.Ok? ==>
              GetVersion(s, quoteId, number) == Some(r.value) && r.value.status == status && r.value.number == number
  {
    InStatus(GetVersion(s, quoteId, number), status)
  }

  /** The status of a version, as a reader finds it. */
  function StatusOf(s: Store, quoteId: string, number: int): Option<Status> {
    match GetVersion(s, quoteId, number)
    case None => None
    case Some(v) => Some(v.status)
  }

  predicate IsDecidedIn(s: Store, quoteId: string, number: int) {
    StatusOf(s, quoteId, number).Some? && IsDecided(StatusOf(s, quoteId, number).value)
  }

  // ---------------------------------------------------------------- writing

  /** Write `updated` over the version of that number, and mirror its status if it is the latest. */
  function ReplaceVersion(s: Store, quoteId: string, number: int, updated: Version): Store
    requires WellKeyed(s) && GetVersion(s, quoteId, number).Some?
  {
    var vs := s.versions[quoteId];
    var replaced := vs[IndexOf(vs, number).value := updated];
    s.(versions := s.versions[quoteId := replaced],
    quotes := if number == Last(replaced).number
    then s.quotes[quoteId := s.quotes[quoteId].(latestStatus := updated.status)]
    else s.quotes)
  }

  function FirstVersions(quoteId: string, currency: string, now: string, n: nat): (vs: seq<Version>)
    ensures |vs| == n
    ensures forall k :: 0 <= k < n ==>
              vs[k] == Version(quoteId, k + 1, if k == 0 then None else Some(k), Draft, currency, now, None, None,
                               NO_INPUTS, NO_OUTPUTS)
  {
    seq(n, k requires k >= 0 =>
          Version(quoteId, k + 1, if k == 0 then None else Some(k), Draft, currency, now, None, None,
                  NO_INPUTS, NO_OUTPUTS))
  }

  /** A quote and `n` draft versions, replacing whatever had that id; none at all unless `n` is positive. */
  function PutQuote(s: Store, quoteId: string, rfqId: string, customerId: string, currency: string, now: string, n: int)
    : Store
  {
    s.(quotes := s.quotes[quoteId := Quote(quoteId, rfqId, customerId, currency, n, Draft, now)],
    versions := s.versions[quoteId := FirstVersions(quoteId, currency, now, MaxInt(n, 0))])
  }

  // ---------------------------------------------------------------- commands

  datatype Command =
    | CreateQuote(rfqId: string, customerId: string, currency: string, createdBy: Option<string>)
    | CreateNextVersion(quoteId: string, priorVersion: int, expectedLatest: int, copyFromPrior: bool,
                        triggerEventRef: Option<string>)
    | ComposeRecommendation(quoteId: string, version: int, recommendationId: string, selectedRouteId: string)
    | ComposePricingInputs(quoteId: string, version: int, fxRateRef: string, rateRefs: seq<string>,
                           pricingTermsRef: string, marginFloorRef: string)
    | Price(quoteId: string, version: int)
    | Submit(quoteId: string, version: int)
    | Decide(quoteId: string, version: int, decision: Decision, approver: string, reason: Option<string>)

  /** The status that a command on a version asks for. */
  function Asked(c: Command): Status
    requires !c.CreateQuote? && !c.CreateNextVersion?
  {
    if c.Submit? then Priced else if c.Decide? then ApprovalRequired else Draft
  }

  /** The next draft: inputs are carried over on request, computed outputs never. */
  function NextDraft(latest: Version, c: Command, now: string): Version
    requires c.CreateNextVersion?
  {
    Version(latest.quoteId, latest.number + 1, Some(latest.number), Draft, latest.currency, now,
            if c.copyFromPrior then latest.createdBy else None, c.triggerEventRef,
            if c.copyFromPrior then latest.inputs else NO_INPUTS, NO_OUTPUTS)
  }

  predicate IsTruthy(text: Option<string>) {
    text.Some? && text.value != ""
  }

  predicate IsComposed(i: Inputs) {
    IsTruthy(i.recommendationId) && IsTruthy(i.selectedRouteId) && i.rateRefs != [] && IsTruthy(i.fxRateRef)
  }

  /** The rate the previous version was priced at, as stored now. */
  function PriorOf(s: Store, quoteId: string, v: Version): Option<PriorSnapshot> {
    if v.prior.None? || v.prior.value == 0 then None
    else
      match GetVersion(s, quoteId, v.prior.value)
      case None => None
      case Some(w) => Some(PriorSnapshot(w.outputs.fxRateSnapshot))
  }

  function OutputsOf(priced: Calculation): Outputs {
    Outputs(Some(priced.totalCost.amountMinor), Some(priced.sellPrice.amountMinor), Some(POLICY_REF),
            Some(priced.margin), priced.fxRateUsed, priced.rules)
  }

  /** Everything pricing does with the draft `v` and the rate of the version before. */
  function PriceFrom(v: Version, prior: Option<PriorSnapshot>, facts: Facts): Result<Version, StoreError> {
    if !IsComposed(v.inputs) || !facts.configured then Err(ComposeIncomplete)
    else
      var _ :- RouteIsPricable(facts, v.inputs.selectedRouteId.value);
      var rates :- ResolveRates(facts, v.inputs.rateRefs, |v.inputs.rateRefs|);
      match Calculate(rates, prior, v.inputs.marginFloorRef)
      case Err(error) => Err(MoneyProblem(error))
      case Ok(priced) => Ok(v.(status := Priced, outputs := OutputsOf(priced)))
  }

  /**
   Pricing up to its write.  The version is read first, in `seen`; the previous version's rate is
   read in `later`, after the other services have answered.
   */
  function PriceRead(seen: Store, later: Store, quoteId: string, number: int,
                     facts: Facts): Result<Version, StoreError> {
    var v :- VersionIn(seen, quoteId, number, Draft);
    PriceFrom(v, PriorOf(later, quoteId, v), facts)
  }

  // ---------------------------------------------------------------- read, then write

  /** What a call is about to write, once it has read, checked and computed everything. */
  datatype Write =
    | Rewrite(quoteId: string, base: Version, updated: Version, record: Option<DecisionRecord>)
    | Append(quoteId: string, draft: Version)
    | Insert(quote: Quote, first: Version)

  /** A draft's inputs with the part that a command composes replaced. */
  function Composed(i: Inputs, c: Command): Inputs
    requires c.ComposeRecommendation? || c.ComposePricingInputs?
  {
    if c.ComposeRecommendation? then
      i.(recommendationId := Some(c.recommendationId), selectedRouteId := Some(c.selectedRouteId))
    else
      i.(fxRateRef := Some(c.fxRateRef), rateRefs := c.rateRefs, pricingTermsRef := Some(c.pricingTermsRef),
      marginFloorRef := Some(c.marginFloorRef))
  }

  /** What a call looks up first: the version it is about, or the quote's last one. */
  function Lookup(s: Store, c: Command): Option<Version>
    requires NoEmptyHistory(s) && !c.CreateQuote?
  {
    if !c.CreateNextVersion? then GetVersion(s, c.quoteId, c.version)
    else if c.quoteId in s.versions then Some(Last(s.versions[c.quoteId]))
    else None
  }

  /** What pricing, and only pricing, reads besides. */
  function PriorFor(s: Store, c: Command, found: Option<Version>): Option<PriorSnapshot> {
    if c.Price? && found.Some? then PriorOf(s, c.quoteId, found.value) else None
  }

  /** What a call makes of what it has read; a refused call ends here. */
  function Plan(c: Command, found: Option<Version>, prior: Option<PriorSnapshot>, facts: Facts, now: string)
    : Result<Write, StoreError>
    requires !c.CreateQuote?
  {
    match c
    case CreateNextVersion(q, priorVersion, expectedLatest, _, _) =>
      if found.None? then Err(UnknownQuote)
      else
        var latest := found.value;
        if expectedLatest != latest.number || priorVersion != latest.number then Err(VersionConflict)
        else Ok(Append(q, NextDraft(latest, c, now)))
    case ComposeRecommendation(q, _, _, _) =>
      var v :- InStatus(found, Draft);
      Ok(Rewrite(q, v, v.(inputs := Composed(v.inputs, c)), None))
    case ComposePricingInputs(q, _, _, _, _, _) =>
      var v :- InStatus(found, Draft);
      Ok(Rewrite(q, v, v.(inputs := Composed(v.inputs, c)), None))
    case Price(q, _) =>
      var v :- InStatus(found, Draft);
      var updated :- PriceFrom(v, prior, facts);
      Ok(Rewrite(q, v, updated, None))
    case Submit(q, _) =>
      var v :- InStatus(found, Priced);
      Ok(Rewrite(q, v, v.(status := ApprovalRequired), None))
    case Decide(q, _, decision, approver, reason) =>
      var v :- InStatus(found, ApprovalRequired);
      Ok(Rewrite(q, v, v.(status := decision), Some(DecisionRecord(decision, approver, reason, now))))
  }

  /** What a create stores under the id with the number it has taken. */
  function Creation(c: Command, number: nat, now: string): (w: Write)
    requires c.CreateQuote?
    ensures w.Insert? && w.quote.quoteId == QuoteId(number)
  {
    var id := QuoteId(number);
    Insert(Quote(id, c.rfqId, c.customerId, c.currency, 1, Draft, now),
           FirstVersions(id, c.currency, now, 1)[0].(createdBy := c.createdBy))
  }

  /** The reading half of a call. */
  function Prepare(seen: Store, later: Store, c: Command, facts: Facts, now: string): Result<Write, StoreError>
    requires WellKeyed(seen)
  {
    if c.CreateQuote? then
      var _ :- ValidateCustomer(facts, c.customerId);
      Ok(Creation(c, seen.nextId, now))
    else
      Plan(c, Lookup(seen, c), PriorFor(later, c, Lookup(seen, c)), facts, now)
  }

  /** A decision's evidence goes to the end of the list under its key. */
  function Logged(decisions: map<string, seq<DecisionRecord>>, key: string, record: DecisionRecord)
    : map<string, seq<DecisionRecord>>
  {
    decisions[key := (if key in decisions then decisions[key] else []) + [record]]
  }

  /** The writing half, into whatever the store is by then; nothing is looked at again. */
  function Commit(s: Store, w: Write): Store
    requires WellKeyed(s)
  {
    match w
    case Rewrite(q, base, updated, record) =>
      if GetVersion(s, q, base.number).None? then s
      else
        var t := ReplaceVersion(s, q, base.number, updated);
        if record.None? then t
        else t.(decisions := Logged(t.decisions, DecisionKey(q, base.number), record.value))
    case Append(q, draft) =>
      if q !in s.versions then s
      else
        s.(versions := s.versions[q := s.versions[q] + [draft]],
        quotes := s.quotes[q := s.quotes[q].(latestVersion := draft.number, latestStatus := Draft)])
    case Insert(quote, first) =>
      s.(quotes := s.quotes[quote.quoteId := quote], versions := s.versions[quote.quoteId := [first]],
      nextId := s.nextId + 1)
  }

  /** The version that is reported back. */
  function Written(w: Write): Version {
    match w
    case Rewrite(_, _, updated, _) => updated
    case Append(_, draft) => draft
    case Insert(_, first) => first
  }

  /** A call that nothing comes in between of: what it reports. */
  function Reported(s: Store, c: Command, facts: Facts, now: string): Result<Version, StoreError>
    requires WellKeyed(s)
  {
    var w :- Prepare(s, s, c, facts, now);
    Ok(Written(w))
  }

  /** And what it leaves: a refused command changes nothing. */
  function After(s: Store, c: Command, facts: Facts, now: string): Store
    requires WellKeyed(s)
  {
    match Prepare(s, s, c, facts, now)
    case Err(_) => s
    case Ok(w) => Commit(s, w)
  }

  lemma CommitKeepsKeys(s: Store, w: Write)
    requires WellKeyed(s)
    ensures WellKeyed(Commit(s, w))
  {
    hide IndexOf;
  }

  // ---------------------------------------------------------------- reloading and searching

  datatype Fixture = Fixture(quoteId: string, rfqId: string, customerId: string, currency: string, versions: int)

  /** One fixture quote; an id of the form `Q-<digits>` pushes the next id past it. */
  function Seed(s: Store, e: Fixture, now: string): Store {
    var put := PutQuote(s, e.quoteId, e.rfqId, e.customerId, e.currency, now, e.versions);
    var number := IdNumber(e.quoteId);
    if number.Some? then put.(nextId := MaxInt(s.nextId, number.value + 1)) else put
  }

  /**
   The store a reload leaves, and the error that stopped it, if one did.  An entry that asks for no
   version is stored before its missing first version raises.
   */
  function Reloaded(entries: seq<Fixture>, facts: Facts, now: string): (Store, Option<StoreError>) {
    if entries == [] then (EMPTY, None)
    else
      var (s, error) := Reloaded(entries[..|entries| - 1], facts, now);
      if error.Some? then (s, error)
      else
        var e := Last(entries);
        match ValidateCustomer(facts, e.customerId)
        case Err(problem) => (s, Some(problem))
        case Ok(_) =>
          if e.versions <= 0
          then (PutQuote(s, e.quoteId, e.rfqId, e.customerId, e.currency, now, e.versions), Some(EmptyHistory))
          else (Seed(s, e, now), None)
  }

  predicate Matches(q: Quote, customerId: Option<string>, rfqId: Option<string>, status: Option<Status>) {
    && (customerId.Some? ==> q.customerId == customerId.value)
    && (rfqId.Some? ==> q.rfqId == rfqId.value)
    && (status.Some? ==> q.latestStatus == status.value)
  }

  /** The ids of the quotes passing every filter given. */
  function Search(s: Store, customerId: Option<string>, rfqId: Option<string>, status: Option<Status>): set<string> {
    set q | q in s.quotes && Matches(s.quotes[q], customerId, rfqId, status)
  }
}
