/** The vault-call helpers of the test scaffolding: each builds one
    `comptrollerProxy.vaultCallOnContract(target, selector, encodedArgs)` call.
    ABI encoding and selector hashing belong to libraries outside this model, so a
    call keeps its argument types and values side by side, unencoded. */
module VaultCalls {
  import opened Wrappers
  import opened Ethereum

  /** `constants.MaxUint256`. */
  const MaxUint256: nat := 0x1_0000_0000_0000_0000_0000_0000_0000_0000_0000_0000_0000_0000_0000_0000_0000_0000 - 1

  const GaugeSlots: nat := 8

  /** The four selectors used here, as names (their hash values are left opaque). */
  datatype Selector = ApproveSelector | CurveMinterMint | CurveMinterMintMany | CurveMinterToggleApproveMint

  datatype AbiType = AddressType | Uint256Type | AddressArrayType(length: nat)

  datatype AbiValue = AddressValue(address: Address) | UintValue(amount: nat) | AddressListValue(addresses: seq<Address>)

  datatype VaultCall = VaultCall(comptroller: Address, target: Address, selector: Selector,
                                 types: seq<AbiType>, args: seq<AbiValue>)

  /** `vaultCallApproveAsset` (vaultCalls.ts:13-29): `approve(spender, amount)` on
      the asset, the amount defaulting to MaxUint256. */
  function ApproveAsset(comptroller: Address, asset: Address, spender: Address, amount: Option<nat>): (c: VaultCall)
    ensures c.target == asset && c.selector == ApproveSelector
    ensures c.types == [AddressType, Uint256Type]
    ensures c.args == [AddressValue(spender), UintValue(if amount.Some? then amount.value else MaxUint256)]
  {
    VaultCall(comptroller, asset, ApproveSelector, [AddressType, Uint256Type],
              [AddressValue(spender), UintValue(amount.GetOr(MaxUint256))])
  }

  /** Leaving the amount out is the same call as approving MaxUint256 explicitly. */
  lemma ApproveDefaultIsMax(comptroller: Address, asset: Address, spender: Address)
    ensures ApproveAsset(comptroller, asset, spender, None) == ApproveAsset(comptroller, asset, spender, Some(MaxUint256))
  {
  }

  /** `vaultCallCurveMinterMint` (vaultCalls.ts:31-41): one address, the gauge. */
  function Mint(comptroller: Address, minter: Address, gauge: Address): (c: VaultCall)
    ensures c.target == minter && c.selector == CurveMinterMint
    ensures c.types == [AddressType] && c.args == [AddressValue(gauge)]
  {
    VaultCall(comptroller, minter, CurveMinterMint, [AddressType], [AddressValue(gauge)])
  }

  /** `vaultCallCurveMinterToggleApproveMint` (vaultCalls.ts:64-78): one address, the account. */
  function ToggleApproveMint(comptroller: Address, minter: Address, account: Address): (c: VaultCall)
    ensures c.target == minter && c.selector == CurveMinterToggleApproveMint
    ensures c.types == [AddressType] && c.args == [AddressValue(account)]
  {
    VaultCall(comptroller, minter, CurveMinterToggleApproveMint, [AddressType], [AddressValue(account)])
  }

  function Max(a: nat, b: nat): nat {
    if a >= b then a else b
  }

  /** The padded gauge list as a value: the gauges, then zero addresses up to
      eight slots. */
  function Padded(gauges: seq<Address>): (f: seq<Address>)
    ensures |f| == Max(GaugeSlots, |gauges|)
    ensures f[..|gauges|] == gauges
    ensures forall i :: |gauges| <= i < |f| ==> f[i] == AddressZero
  {
    var pad := if |gauges| >= GaugeSlots then 0 else GaugeSlots - |gauges|;
    gauges + seq(pad, _ => AddressZero)
  }

  /** vaultCalls.ts:52-55: an array of eight zero addresses, then `gauges[i]`
      stored at each index `i` of the gauges. A JavaScript array grows when an
      index past its end is assigned, so more than eight gauges give a longer list. */
  method FormatGauges(gauges: seq<Address>) returns (f: seq<Address>)
    ensures f == Padded(gauges)
  {
    f := seq(GaugeSlots, _ => AddressZero);
    var i := 0;
    while i < |gauges|
      invariant 0 <= i <= |gauges|
      invariant |f| == Max(GaugeSlots, i)
      invariant forall k :: 0 <= k < i ==> f[k] == gauges[k]
      invariant forall k :: i <= k < |f| ==> f[k] == AddressZero
    {
      if i < |f| {
        f := f[i := gauges[i]];
      } else {
        f := f + [gauges[i]];
      }
      i := i + 1;
    }
    var p := Padded(gauges);
    assert |f| == |p|;
    forall k | 0 <= k < |f| ensures f[k] == p[k] {
      if k < |gauges| {
        assert p[k] == p[..|gauges|][k];
      }
    }
  }

  /** Up to eight gauges fill exactly the `address[8]` argument: the gauges in
      order, then zero addresses. */
  lemma PaddedFitsEight(gauges: seq<Address>)
    requires |gauges| <= GaugeSlots
    ensures |Padded(gauges)| == GaugeSlots
    ensures forall i :: 0 <= i < |gauges| ==> Padded(gauges)[i] == gauges[i]
    ensures forall i :: |gauges| <= i < GaugeSlots ==> Padded(gauges)[i] == AddressZero
  {
    var f := Padded(gauges);
    forall i | 0 <= i < |gauges| ensures f[i] == gauges[i] {
      assert f[i] == f[..|gauges|][i];
    }
  }

  /** `vaultCallCurveMinterMintMany` (vaultCalls.ts:43-62): the padded list as one
      `address[8]` argument. */
  method MintMany(comptroller: Address, minter: Address, gauges: seq<Address>) returns (c: VaultCall)
    ensures c.target == minter && c.selector == CurveMinterMintMany
    ensures c.types == [AddressArrayType(GaugeSlots)]
    ensures c.args == [AddressListValue(Padded(gauges))]
  {
    var formatted := FormatGauges(gauges);
    c := VaultCall(comptroller, minter, CurveMinterMintMany, [AddressArrayType(GaugeSlots)], [AddressListValue(formatted)]);
  }
}
