/** The investment request lifecycle of `Participation` as its unit test pins it
    down: an investor requests shares for an amount of a permitted asset, anyone
    executes the request once the price is valid and the amount high enough,
    and the investor can cancel it after it has expired. The pricing behind
    "price valid" and "amount too low" is outside this model and enters as two
    booleans; the clock enters as the block timestamp. */
module Participation {
  import opened Wrappers
  import opened Ethereum

  /** One week in seconds, the time the tests wait before cancelling. */
  const Week: nat := 60 * 60 * 24 * 7

  datatype Request = Request(investmentAsset: Address, investmentAmount: nat, requestedShares: nat, timestamp: nat)

  /** The state the tests observe: the hub's shutdown flag, the permitted assets,
      the open requests, the share balances and supply, and the vault's asset
      balances. */
  datatype State = State(
    hubShutDown: bool,
    permittedAssets: set<Address>,
    requests: map<Address, Request>,
    shares: map<Address, nat>,
    totalSupply: nat,
    vault: map<Address, nat>)

  datatype ParticipationError =
    | HubShutDown
    | AssetNotPermitted
    | NoValidRequest
    | PriceNotValid
    | AmountTooLow
    | NoCancelableRequest

  function ErrorMessage(e: ParticipationError): string {
    match e
    case HubShutDown => "Hub is shut down"
    case AssetNotPermitted => "Investment not allowed in this asset"
    case NoValidRequest => "No valid request for this address"
    case PriceNotValid => "Price not valid"
    case AmountTooLow => "Invested amount too low"
    // No test reads the reason of a refused cancel.
    case NoCancelableRequest => ""
  }

  function Balance(m: map<Address, nat>, who: Address): nat {
    if who in m then m[who] else 0
  }

  /** `hasRequest(who)`: a request is on record. */
  predicate HasRequest(s: State, who: Address) {
    who in s.requests
  }

  /** `investAllowed(asset)`. */
  predicate InvestAllowed(s: State, asset: Address) {
    asset in s.permittedAssets
  }

  /** The hub's `setShutDownState`. */
  function SetShutDownState(s: State, shutDown: bool): (s': State)
    ensures s'.hubShutDown == shutDown && s' == s.(hubShutDown := shutDown)
  {
    s.(hubShutDown := shutDown)
  }

  /** `requestInvestment(requestedShares, investmentAmount, investmentAsset)`:
      the shutdown check, then the asset check, then the request is recorded
      with the current time, replacing any earlier one. */
  function RequestInvestment(s: State, who: Address, requestedShares: nat, investmentAmount: nat, investmentAsset: Address, now: nat): (r: Result<State, ParticipationError>)
    ensures s.hubShutDown ==> r == Failure(HubShutDown)
    ensures !s.hubShutDown && !InvestAllowed(s, investmentAsset) ==> r == Failure(AssetNotPermitted)
    ensures r.Success? <==> !s.hubShutDown && InvestAllowed(s, investmentAsset)
    ensures r.Success? ==>
      && r.value.requests == s.requests[who := Request(investmentAsset, investmentAmount, requestedShares, now)]
      && r.value == s.(requests := r.value.requests)
  {
    if s.hubShutDown then Failure(HubShutDown)
    else if investmentAsset !in s.permittedAssets then Failure(AssetNotPermitted)
    else Success(s.(requests := s.requests[who := Request(investmentAsset, investmentAmount, requestedShares, now)]))
  }

  /** A request that can be executed asks for at least one share. */
  predicate HasValidRequest(s: State, who: Address) {
    who in s.requests && s.requests[who].requestedShares > 0
  }

  /** The effect of executing `who`'s request: the shares are issued to `who`,
      the asset amount goes to the vault, and the request is closed. */
  function Issue(s: State, who: Address): State
    requires who in s.requests
  {
    var req := s.requests[who];
    s.(requests := s.requests - {who},
       shares := s.shares[who := Balance(s.shares, who) + req.requestedShares],
       totalSupply := s.totalSupply + req.requestedShares,
       vault := s.vault[req.investmentAsset := Balance(s.vault, req.investmentAsset) + req.investmentAmount])
  }

  /** `executeRequestFor(requestOwner)`: shutdown, then the request, then the
      price, then the amount. */
  function ExecuteRequestFor(s: State, requestOwner: Address, priceValid: bool, amountHighEnough: bool): (r: Result<State, ParticipationError>)
    ensures s.hubShutDown ==> r == Failure(HubShutDown)
    ensures !s.hubShutDown && !HasValidRequest(s, requestOwner) ==> r == Failure(NoValidRequest)
    ensures !s.hubShutDown && HasValidRequest(s, requestOwner) && !priceValid ==> r == Failure(PriceNotValid)
    ensures !s.hubShutDown && HasValidRequest(s, requestOwner) && priceValid && !amountHighEnough ==> r == Failure(AmountTooLow)
    ensures r.Success? <==> !s.hubShutDown && HasValidRequest(s, requestOwner) && priceValid && amountHighEnough
    ensures r.Success? ==>
      var req := s.requests[requestOwner];
      && !HasRequest(r.value, requestOwner)
      && Balance(r.value.shares, requestOwner) == Balance(s.shares, requestOwner) + req.requestedShares
      && r.value.totalSupply == s.totalSupply + req.requestedShares
      && Balance(r.value.vault, req.investmentAsset) == Balance(s.vault, req.investmentAsset) + req.investmentAmount
  {
    if s.hubShutDown then Failure(HubShutDown)
    else if !HasValidRequest(s, requestOwner) then Failure(NoValidRequest)
    else if !priceValid then Failure(PriceNotValid)
    else if !amountHighEnough then Failure(AmountTooLow)
    else Success(Issue(s, requestOwner))
  }

  /** A request is cancellable once `requestLifespan` seconds have passed since it
      was made. The refund of the investment amount to the investor is returned
      beside the new state. */
  function CancelRequest(s: State, who: Address, now: nat, requestLifespan: nat): (r: Result<(State, nat), ParticipationError>)
    ensures r.Success? <==> who in s.requests && s.requests[who].timestamp + requestLifespan <= now
    ensures r.Success? ==>
      && r.value.0 == s.(requests := s.requests - {who})
      && r.value.1 == s.requests[who].investmentAmount
    ensures r.Failure? ==> r.error == NoCancelableRequest
  {
    if who !in s.requests || now < s.requests[who].timestamp + requestLifespan then Failure(NoCancelableRequest)
    else Success((s.(requests := s.requests - {who}), s.requests[who].investmentAmount))
  }

  // ---------------------------------------------------------------------------
  // Invariants

  /** No holder has more shares than there are. */
  predicate SharesWithinSupply(s: State) {
    forall a :: a in s.shares ==> s.shares[a] <= s.totalSupply
  }

  /** Every step keeps the holdings within the supply. */
  lemma StepsKeepSharesWithinSupply(s: State, who: Address, requestedShares: nat, amount: nat, asset: Address,
                                    now: nat, lifespan: nat, priceValid: bool, amountHighEnough: bool, shutDown: bool)
    requires SharesWithinSupply(s)
    ensures SharesWithinSupply(SetShutDownState(s, shutDown))
    ensures var r := RequestInvestment(s, who, requestedShares, amount, asset, now); r.Success? ==> SharesWithinSupply(r.value)
    ensures var r := ExecuteRequestFor(s, who, priceValid, amountHighEnough); r.Success? ==> SharesWithinSupply(r.value)
    ensures var r := CancelRequest(s, who, now, lifespan); r.Success? ==> SharesWithinSupply(r.value.0)
  {
    var r := ExecuteRequestFor(s, who, priceValid, amountHighEnough);
    if r.Success? {
      var s' := r.value;
      forall a | a in s'.shares ensures s'.shares[a] <= s'.totalSupply {
        if a != who {
          assert s'.shares[a] == s.shares[a];
        }
      }
    }
  }

  /** Executing touches nobody else: other investors' shares and requests, and
      the vault's other assets, stay as they were. */
  lemma ExecuteTouchesOnlyOwner(s: State, requestOwner: Address, priceValid: bool, amountHighEnough: bool, other: Address, asset: Address)
    requires ExecuteRequestFor(s, requestOwner, priceValid, amountHighEnough).Success?
    requires other != requestOwner
    ensures var s' := ExecuteRequestFor(s, requestOwner, priceValid, amountHighEnough).value;
      && Balance(s'.shares, other) == Balance(s.shares, other)
      && (other in s'.requests <==> other in s.requests)
      && (other in s.requests ==> s'.requests[other] == s.requests[other])
      && (asset != s.requests[requestOwner].investmentAsset ==> Balance(s'.vault, asset) == Balance(s.vault, asset))
      && s'.hubShutDown == s.hubShutDown && s'.permittedAssets == s.permittedAssets
  {
  }

  /** A request once made stays executable only once: after executing, the same
      request owner has nothing left to execute. */
  lemma ExecuteOnce(s: State, requestOwner: Address, priceValid: bool, amountHighEnough: bool)
    requires ExecuteRequestFor(s, requestOwner, priceValid, amountHighEnough).Success?
    ensures var s' := ExecuteRequestFor(s, requestOwner, priceValid, amountHighEnough).value;
      ExecuteRequestFor(s', requestOwner, priceValid, amountHighEnough) == Failure(NoValidRequest)
  {
  }

  /** Requesting and then executing issues exactly the requested shares and moves
      exactly the invested amount to the vault. */
  lemma RequestThenExecute(s: State, who: Address, requestedShares: nat, amount: nat, asset: Address, now: nat)
    requires !s.hubShutDown && InvestAllowed(s, asset) && requestedShares > 0
    ensures var r := RequestInvestment(s, who, requestedShares, amount, asset, now);
      && r.Success?
      && var e := ExecuteRequestFor(r.value, who, true, true);
      && e.Success?
      && Balance(e.value.shares, who) == Balance(s.shares, who) + requestedShares
      && e.value.totalSupply == s.totalSupply + requestedShares
      && Balance(e.value.vault, asset) == Balance(s.vault, asset) + amount
      && e.value.requests == s.requests - {who}
  {
  }

  /** Requesting and then cancelling after the lifespan leaves the state as it
      was, except that any earlier request of the investor is gone, and refunds
      the amount. */
  lemma RequestThenCancel(s: State, who: Address, requestedShares: nat, amount: nat, asset: Address, now: nat, later: nat, lifespan: nat)
    requires !s.hubShutDown && InvestAllowed(s, asset) && now + lifespan <= later
    ensures var r := RequestInvestment(s, who, requestedShares, amount, asset, now);
      && r.Success?
      && CancelRequest(r.value, who, later, lifespan) == Success((s.(requests := s.requests - {who}), amount))
  {
    var s1 := RequestInvestment(s, who, requestedShares, amount, asset, now).value;
    assert s1.requests - {who} == s.requests - {who};
  }

  // ---------------------------------------------------------------------------
  // The test scenarios

  /** An investor's view of a state with a single permitted asset and nothing on
      record. */
  function Fresh(asset: Address): State {
    State(false, {asset}, map[], map[], 0, map[])
  }

  /** A shut-down hub refuses the request, and after reopening the same request
      is recorded; shut down again, executing it is refused with the shutdown
      message; open again and a week later it can be cancelled. */
  lemma ShutDownScenario(weth: Address, user: Address, t0: nat, lifespan: nat)
    requires lifespan <= Week
    ensures var closed := SetShutDownState(Fresh(weth), true);
      && ErrorMessage(RequestInvestment(closed, user, Ether, Ether, weth, t0).error) == "Hub is shut down"
      && var r := RequestInvestment(SetShutDownState(closed, false), user, Ether, Ether, weth, t0);
      && r.Success?
      && ErrorMessage(ExecuteRequestFor(SetShutDownState(r.value, true), user, true, true).error) == "Hub is shut down"
      && CancelRequest(SetShutDownState(r.value, false), user, t0 + Week, lifespan).Success?
  {
  }

  /** Without a request nothing can be executed, and a request for zero shares
      is no better; it can still be cancelled a week later. */
  lemma NoRequestScenario(weth: Address, user: Address, t0: nat, lifespan: nat)
    requires lifespan <= Week
    ensures !HasRequest(Fresh(weth), user)
    ensures ErrorMessage(ExecuteRequestFor(Fresh(weth), user, true, true).error) == "No valid request for this address"
    ensures var r := RequestInvestment(Fresh(weth), user, 0, 0, weth, t0);
      && r.Success?
      && ErrorMessage(ExecuteRequestFor(r.value, user, true, true).error) == "No valid request for this address"
      && CancelRequest(r.value, user, t0 + Week, lifespan).Success?
  {
  }

  /** With the price never valid the request is on record but cannot execute. */
  lemma StalePriceScenario(weth: Address, user: Address, t0: nat)
    ensures var r := RequestInvestment(Fresh(weth), user, Ether, Ether, weth, t0);
      && r.Success? && HasRequest(r.value, user)
      && ErrorMessage(ExecuteRequestFor(r.value, user, false, true).error) == "Price not valid"
  {
  }

  /** An asset outside the permitted set is refused. */
  lemma UnpermittedAssetScenario(weth: Address, asset: Address, user: Address, t0: nat)
    requires asset != weth
    ensures !InvestAllowed(Fresh(weth), asset)
    ensures ErrorMessage(RequestInvestment(Fresh(weth), user, 100, 100, asset, t0).error) == "Investment not allowed in this asset"
  {
  }

  /** 1000 shares for 1 unit is below the price minimum. */
  lemma AmountTooLowScenario(weth: Address, user: Address, t0: nat)
    ensures var r := RequestInvestment(Fresh(weth), user, 1000, 1, weth, t0);
      && r.Success?
      && ErrorMessage(ExecuteRequestFor(r.value, user, true, false).error) == "Invested amount too low"
  {
  }

  /** From zero supply, 1000 shares for 1000 units: the investor holds 1000
      shares, the supply is 1000, and the vault holds 1000 more. */
  lemma BasicInvestmentScenario(weth: Address, user: Address, t0: nat, vaultWeth: nat)
    ensures var s := Fresh(weth).(vault := map[weth := vaultWeth]);
      var r := RequestInvestment(s, user, 1000, 1000, weth, t0);
      && r.Success?
      && var e := ExecuteRequestFor(r.value, user, true, true);
      && e.Success?
      && Balance(e.value.shares, user) == 1000
      && e.value.totalSupply == 1000
      && Balance(e.value.vault, weth) == vaultWeth + 1000
  {
  }
}
