/** The MinMaxInvestment policy as its tests pin it down: per-fund bounds on the
    amount a buyer may invest, settable only by the PolicyManager, checked on the
    PreBuyShares hook. A bound of 0 means "no bound" on its side; both 0 closes
    the fund to every positive investment. */
module MinMaxInvestment {
  import opened Wrappers
  import opened Ethereum

  /** The hooks a policy can implement; only the one this policy uses is named. */
  datatype PolicyHook = PreBuyShares | OtherHook(name: string)

  datatype FundSettings = FundSettings(minInvestmentAmount: nat, maxInvestmentAmount: nat)

  /** The policy's storage: its PolicyManager and the settings per comptroller proxy. */
  datatype State = State(policyManager: Address, fundSettings: map<Address, FundSettings>)

  datatype Event = FundSettingsSet(comptrollerProxy: Address, minInvestmentAmount: nat, maxInvestmentAmount: nat)

  datatype PolicyError = NotPolicyManager | MinNotBelowMax

  function ErrorMessage(e: PolicyError): string {
    match e
    case NotPolicyManager => "Only the PolicyManager can make this call"
    case MinNotBelowMax => "minInvestmentAmount must be less than maxInvestmentAmount"
  }

  /** The arguments of a PreBuyShares rule check. */
  datatype PreBuySharesArgs = PreBuySharesArgs(buyer: Address, fundGav: nat, investmentAmount: nat, minSharesQuantity: nat)

  /** A freshly deployed policy: no fund has settings yet. */
  function Deploy(policyManager: Address): (s: State)
    ensures s.policyManager == policyManager && s.fundSettings == map[]
  {
    State(policyManager, map[])
  }

  /** Settings are accepted when the minimum is below the maximum, or when there
      is no maximum. */
  predicate AcceptableSettings(settings: FundSettings) {
    settings.maxInvestmentAmount == 0 || settings.minInvestmentAmount < settings.maxInvestmentAmount
  }

  /** `addFundSettings(comptrollerProxy, settingsData)`: the caller guard first,
      then the settings check, then the store and the event. */
  function AddFundSettings(s: State, caller: Address, comptrollerProxy: Address, settings: FundSettings): (r: Result<(State, Event), PolicyError>)
    ensures caller != s.policyManager ==> r == Failure(NotPolicyManager)
    ensures caller == s.policyManager && !AcceptableSettings(settings) ==> r == Failure(MinNotBelowMax)
    ensures r.Success? <==> caller == s.policyManager && AcceptableSettings(settings)
    ensures r.Success? ==>
      && r.value.0.policyManager == s.policyManager
      && r.value.0.fundSettings == s.fundSettings[comptrollerProxy := settings]
      && r.value.1 == FundSettingsSet(comptrollerProxy, settings.minInvestmentAmount, settings.maxInvestmentAmount)
  {
    if caller != s.policyManager then Failure(NotPolicyManager)
    else if !AcceptableSettings(settings) then Failure(MinNotBelowMax)
    else Success((s.(fundSettings := s.fundSettings[comptrollerProxy := settings]),
                  FundSettingsSet(comptrollerProxy, settings.minInvestmentAmount, settings.maxInvestmentAmount)))
  }

  /** `updateFundSettings(comptrollerProxy, account, settingsData)`: the same guard,
      check, store and event as adding; the account is not used. */
  function UpdateFundSettings(s: State, caller: Address, comptrollerProxy: Address, account: Address, settings: FundSettings): (r: Result<(State, Event), PolicyError>)
    ensures r == AddFundSettings(s, caller, comptrollerProxy, settings)
  {
    if caller != s.policyManager then Failure(NotPolicyManager)
    else if !AcceptableSettings(settings) then Failure(MinNotBelowMax)
    else Success((s.(fundSettings := s.fundSettings[comptrollerProxy := settings]),
                  FundSettingsSet(comptrollerProxy, settings.minInvestmentAmount, settings.maxInvestmentAmount)))
  }

  /** `getFundSettings`: a fund never configured reads as (0, 0). */
  function GetFundSettings(s: State, comptrollerProxy: Address): (f: FundSettings)
    ensures comptrollerProxy !in s.fundSettings ==> f == FundSettings(0, 0)
  {
    if comptrollerProxy in s.fundSettings then s.fundSettings[comptrollerProxy] else FundSettings(0, 0)
  }

  /** The bound check. An investment exactly at the maximum passes; no test
      covers that case. */
  predicate PassesRule(settings: FundSettings, investmentAmount: nat) {
    var lo := settings.minInvestmentAmount;
    var hi := settings.maxInvestmentAmount;
    if lo == 0 then investmentAmount <= hi
    else if hi == 0 then investmentAmount >= lo
    else lo <= investmentAmount <= hi
  }

  /** `validateRule(comptrollerProxy, vaultProxy, hook, encodedArgs)` on the
      PreBuyShares arguments. */
  function ValidateRule(s: State, comptrollerProxy: Address, vaultProxy: Address, hook: PolicyHook, args: PreBuySharesArgs): (ok: bool)
    ensures ok == PassesRule(GetFundSettings(s, comptrollerProxy), args.investmentAmount)
  {
    PassesRule(GetFundSettings(s, comptrollerProxy), args.investmentAmount)
  }

  function ImplementedHooks(): (hooks: seq<PolicyHook>)
    ensures hooks == [PreBuyShares]
  {
    [PreBuyShares]
  }

  // ---------------------------------------------------------------------------
  // The rule, bound by bound

  /** A zero minimum means no lower bound, a zero maximum no upper bound (unless
      both are zero, which closes the fund). */
  lemma PassesRuleBounds(settings: FundSettings, amount: nat)
    ensures var lo := settings.minInvestmentAmount;
      var hi := settings.maxInvestmentAmount;
      PassesRule(settings, amount) <==>
        && (lo == 0 || lo <= amount)
        && ((hi == 0 && lo != 0) || amount <= hi)
  {
  }

  /** With both bounds zero, nothing but a zero investment passes. */
  lemma ClosedFund(settings: FundSettings, amount: nat)
    requires settings == FundSettings(0, 0)
    ensures PassesRule(settings, amount) <==> amount == 0
  {
  }

  /** A fund with no settings is closed. */
  lemma UnconfiguredFundIsClosed(s: State, comptrollerProxy: Address, vaultProxy: Address, args: PreBuySharesArgs)
    requires comptrollerProxy !in s.fundSettings
    ensures ValidateRule(s, comptrollerProxy, vaultProxy, PreBuyShares, args) <==> args.investmentAmount == 0
  {
  }

  /** Accepted settings with a maximum admit an amount exactly when it lies between
      the bounds. */
  lemma AcceptedSettingsInterval(settings: FundSettings, amount: nat)
    requires AcceptableSettings(settings) && settings.maxInvestmentAmount > 0
    ensures PassesRule(settings, amount) <==> settings.minInvestmentAmount <= amount <= settings.maxInvestmentAmount
  {
  }

  /** Only the investment amount matters: buyer, GAV, minimum shares, the vault and
      the hook named do not change the answer. */
  lemma OnlyInvestmentAmountMatters(s: State, comptrollerProxy: Address, v1: Address, v2: Address,
                                    h1: PolicyHook, h2: PolicyHook, a1: PreBuySharesArgs, a2: PreBuySharesArgs)
    requires a1.investmentAmount == a2.investmentAmount
    ensures ValidateRule(s, comptrollerProxy, v1, h1, a1) == ValidateRule(s, comptrollerProxy, v2, h2, a2)
  {
  }

  // ---------------------------------------------------------------------------
  // Settings

  /** After a successful add or update, reading the settings back gives exactly
      the pair stored; other funds keep theirs. */
  lemma SettingsReadBack(s: State, caller: Address, comptrollerProxy: Address, settings: FundSettings, other: Address)
    requires AddFundSettings(s, caller, comptrollerProxy, settings).Success?
    ensures var s' := AddFundSettings(s, caller, comptrollerProxy, settings).value.0;
      && GetFundSettings(s', comptrollerProxy) == settings
      && (other != comptrollerProxy ==> GetFundSettings(s', other) == GetFundSettings(s, other))
  {
  }

  /** A rejected call leaves nothing to read: the settings before stay in force. */
  lemma RejectedCallMessages(s: State, caller: Address, comptrollerProxy: Address, settings: FundSettings)
    ensures var r := AddFundSettings(s, caller, comptrollerProxy, settings);
      r.Failure? ==>
        ErrorMessage(r.error) == (if caller != s.policyManager then "Only the PolicyManager can make this call"
                                  else "minInvestmentAmount must be less than maxInvestmentAmount")
  {
  }

  /** A zero maximum is accepted with any minimum, and so is (0, 0); a minimum
      equal to or above a nonzero maximum is refused. */
  lemma AcceptableSettingsCases(lo: nat, hi: nat)
    ensures AcceptableSettings(FundSettings(lo, 0))
    ensures hi != 0 && lo >= hi ==> !AcceptableSettings(FundSettings(lo, hi))
  {
  }

  // ---------------------------------------------------------------------------
  // The test scenarios

  lemma BoundedScenario()
    ensures PassesRule(FundSettings(1 * Ether, 2 * Ether), 1 * Ether)
    ensures !PassesRule(FundSettings(1 * Ether, 2 * Ether), 3 * Ether)
  {
  }

  lemma NoMinimumScenario()
    ensures !PassesRule(FundSettings(0, 1 * Ether), 15 * Ether / 10)
    ensures PassesRule(FundSettings(0, 1 * Ether), 5 * Ether / 10)
  {
  }

  lemma NoMaximumScenario()
    ensures !PassesRule(FundSettings(1 * Ether, 0), 5 * Ether / 10)
    ensures PassesRule(FundSettings(1 * Ether, 0), 15 * Ether / 10)
  {
  }

  lemma ClosedScenario()
    ensures !PassesRule(FundSettings(0, 0), 1 * Ether)
  {
  }

  /** Deploying, then adding (1, 2) ether as the PolicyManager, stores the pair and
      emits the event; the same call from anyone else is refused. */
  lemma AddThenReadScenario(pm: Address, stranger: Address, fund: Address)
    requires stranger != pm
    ensures var r := AddFundSettings(Deploy(pm), pm, fund, FundSettings(1 * Ether, 2 * Ether));
      && r.Success?
      && GetFundSettings(r.value.0, fund) == FundSettings(1 * Ether, 2 * Ether)
      && r.value.1 == FundSettingsSet(fund, 1 * Ether, 2 * Ether)
    ensures AddFundSettings(Deploy(pm), stranger, fund, FundSettings(1 * Ether, 2 * Ether)) == Failure(NotPolicyManager)
    ensures AddFundSettings(Deploy(pm), pm, fund, FundSettings(1 * Ether, 1 * Ether)) == Failure(MinNotBelowMax)
    ensures AddFundSettings(Deploy(pm), pm, fund, FundSettings(2 * Ether, 1 * Ether)) == Failure(MinNotBelowMax)
  {
  }
}
