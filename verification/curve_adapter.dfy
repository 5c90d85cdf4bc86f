/** `CurveExchangeAdapter.parseAssetsForMethod(selector, encodedCallArgs)` as its
    tests pin it down: the selector must be the `takeOrder` selector, the pool
    must not be the zero address, and the order's two sides become one-element
    spend and incoming lists handled by transfer. The selector's hash value and
    the argument encoding are outside this model: the `takeOrder` selector is a
    parameter and the arguments arrive already decoded, or not at all. */
module CurveAdapter {
  import opened Wrappers
  import opened Ethereum

  /** A four-byte function selector, kept as the text the caller passes. */
  type Selector = string

  /** The decoded `takeOrder` arguments. */
  datatype TakeOrderArgs = TakeOrderArgs(
    pool: Address,
    outgoingAsset: Address,
    outgoingAssetAmount: nat,
    incomingAsset: Address,
    minIncomingAssetAmount: nat)

  /** How the integration manager moves the spend assets. */
  datatype SpendAssetsHandleType = HandleNone | HandleApprove | HandleTransfer

  datatype ParsedAssets = ParsedAssets(
    spendAssetsHandleType: SpendAssetsHandleType,
    spendAssets: seq<Address>,
    spendAssetAmounts: seq<nat>,
    incomingAssets: seq<Address>,
    minIncomingAssetAmounts: seq<nat>)

  /** Why a call reverts: a foreign selector, arguments that do not decode as a
      `takeOrder` call, or a zero pool. */
  datatype ParseError = SelectorInvalid | ArgsUndecodable | NoPool

  /** The revert reason; a failed decode reverts without one. */
  function RevertReason(e: ParseError): string {
    match e
    case SelectorInvalid => "_selector invalid"
    case ArgsUndecodable => ""
    case NoPool => "No pool address provided"
  }

  /** The selector is checked before the arguments are looked at. */
  function ParseAssetsForMethod(takeOrderSelector: Selector, selector: Selector, encodedCallArgs: Option<TakeOrderArgs>): (r: Result<ParsedAssets, ParseError>)
    ensures selector != takeOrderSelector ==> r == Failure(SelectorInvalid)
    ensures selector == takeOrderSelector && encodedCallArgs.None? ==> r == Failure(ArgsUndecodable)
    ensures selector == takeOrderSelector && encodedCallArgs.Some? && encodedCallArgs.value.pool == AddressZero ==> r == Failure(NoPool)
    ensures r.Success? <==> selector == takeOrderSelector && encodedCallArgs.Some? && encodedCallArgs.value.pool != AddressZero
    ensures r.Success? ==>
      var a := encodedCallArgs.value;
      && r.value.spendAssetsHandleType == HandleTransfer
      && r.value.spendAssets == [a.outgoingAsset]
      && r.value.spendAssetAmounts == [a.outgoingAssetAmount]
      && r.value.incomingAssets == [a.incomingAsset]
      && r.value.minIncomingAssetAmounts == [a.minIncomingAssetAmount]
  {
    if selector != takeOrderSelector then Failure(SelectorInvalid)
    else if encodedCallArgs.None? then Failure(ArgsUndecodable)
    else
      var a := encodedCallArgs.value;
      if a.pool == AddressZero then Failure(NoPool)
      else Success(ParsedAssets(HandleTransfer, [a.outgoingAsset], [a.outgoingAssetAmount],
                                [a.incomingAsset], [a.minIncomingAssetAmount]))
  }

  /** Reading the parsed lists back gives the order's fields: each list holds one
      entry, and the pool is the only field not carried over. */
  lemma ParsedRecoversOrder(takeOrderSelector: Selector, a: TakeOrderArgs, b: TakeOrderArgs)
    requires a.pool != AddressZero && b.pool != AddressZero
    ensures var ra := ParseAssetsForMethod(takeOrderSelector, takeOrderSelector, Some(a));
      var rb := ParseAssetsForMethod(takeOrderSelector, takeOrderSelector, Some(b));
      ra.Success? && rb.Success? &&
      (ra == rb <==> a.(pool := b.pool) == b)
  {
  }

  /** Nothing relates the two amounts: any pair parses, a minimum incoming
      amount above the outgoing amount included. */
  lemma AmountsUnchecked(takeOrderSelector: Selector, pool: Address, outgoing: Address, incoming: Address, outAmount: nat, minIn: nat)
    requires pool != AddressZero
    ensures ParseAssetsForMethod(takeOrderSelector, takeOrderSelector, Some(TakeOrderArgs(pool, outgoing, outAmount, incoming, minIn))).Success?
  {
  }

  /** The three test cases: a random selector with the zero hash as arguments,
      a zero pool, and a well-formed order of 0.1 ether out for at least 0.3 in. */
  lemma TestScenarios(takeOrderSelector: Selector, randomSelector: Selector, hashZero: Option<TakeOrderArgs>,
                      pool: Address, outgoing: Address, incoming: Address)
    requires randomSelector != takeOrderSelector && pool != AddressZero
    ensures RevertReason(ParseAssetsForMethod(takeOrderSelector, randomSelector, hashZero).error) == "_selector invalid"
    ensures var r := ParseAssetsForMethod(takeOrderSelector, takeOrderSelector,
                                          Some(TakeOrderArgs(AddressZero, outgoing, Ether / 10, incoming, 3 * Ether / 10)));
      r.Failure? && RevertReason(r.error) == "No pool address provided"
    ensures ParseAssetsForMethod(takeOrderSelector, takeOrderSelector,
                                 Some(TakeOrderArgs(pool, outgoing, Ether / 10, incoming, 3 * Ether / 10)))
      == Success(ParsedAssets(HandleTransfer, [outgoing], [Ether / 10], [incoming], [3 * Ether / 10]))
  {
  }
}
