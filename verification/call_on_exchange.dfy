/** `prepareArgs` and `postProcess` of the `callOnExchange` transaction: the order
    fields packed into the fixed-shape argument list of `Participation.callOnExchange`. */
module CallOnExchange {
  import opened Wrappers
  import opened Hex
  import opened Ethereum

  /** A token quantity; its `toString()` belongs to a library outside this model
      and is passed in as `show`. */
  datatype Quantity = Quantity(token: Address, amount: nat)

  /** Values that the script forwards without looking at them (`any` in the source). */
  type Data = string

  datatype CallOnExchangeArgs = CallOnExchangeArgs(
    exchangeIndex: int,
    methodName: string,
    maker: Address,
    taker: Address,
    makerAsset: Address,
    takerAsset: Address,
    feeRecipient: Address,
    senderAddress: Address,
    makerQuantity: Quantity,
    takerQuantity: Quantity,
    makerFee: Quantity,
    takerFee: Quantity,
    timestamp: int,
    salt: string,
    fillTakerTokenAmount: Quantity,
    dexySignatureMode: int,
    identifier: nat,
    makerAssetData: Data,
    takerAssetData: Data,
    signature: Data)

  /** An entry of the value array: a string or a JavaScript number. */
  datatype Value = Text(text: string) | Number(number: int)

  /** An entry of the packed argument list. */
  datatype Arg =
    | NumberArg(n: int)
    | TextArg(s: string)
    | AddressesArg(addresses: seq<Address>)
    | ValuesArg(values: seq<Value>)
    | DataArg(data: Data)

  const IdentifierDigits: nat := 64

  /** `` `0x${identifier.toString(16).padStart(64, '0')}` `` (callOnExchange.ts:79-81). */
  function IdentifierHex(identifier: nat): (r: string)
    ensures |r| >= 2 && r[..2] == "0x"
    ensures AllHexDigits(r[2..])
  {
    var digits := PadStart(ToHex(identifier), IdentifierDigits, '0');
    assert AllHexDigits(digits) by {
      forall i | 0 <= i < |digits| ensures IsHexDigit(digits[i]) {
        var pad := |digits| - |ToHex(identifier)|;
        if i >= pad {
          assert digits[i] == digits[pad..][i - pad];
        }
      }
    }
    "0x" + digits
  }

  /** The identifier string is 66 characters long exactly when the identifier is
      below 16^64; past that the digits are not cut. */
  lemma IdentifierLength(identifier: nat)
    ensures |IdentifierHex(identifier)| == 2 + IdentifierDigits <==> identifier < Pow16(IdentifierDigits)
    ensures |IdentifierHex(identifier)| >= 2 + IdentifierDigits
  {
    ToHexLength(identifier, IdentifierDigits);
  }

  /** Reading the digits after `0x` gives the identifier back; the padding zeros
      do not count. */
  lemma IdentifierParses(identifier: nat)
    ensures ParseHex(IdentifierHex(identifier)[2..]) == identifier
  {
    var h := ToHex(identifier);
    var digits := PadStart(h, IdentifierDigits, '0');
    var z := digits[..|digits| - |h|];
    assert digits == z + h;
    LeadingZeros(z, h);
    ParseToHex(identifier);
    assert IdentifierHex(identifier)[2..] == digits;
  }

  /** callOnExchange.ts:43-86. */
  function PrepareArgs(a: CallOnExchangeArgs, show: Quantity -> string): (r: seq<Arg>)
    ensures |r| == 8
  {
    [ NumberArg(a.exchangeIndex),
      TextArg(a.methodName),
      AddressesArg([a.maker, a.taker, a.makerAsset, a.takerAsset, a.feeRecipient, a.senderAddress]),
      ValuesArg([ Text(show(a.makerQuantity)),
                  Text(show(a.takerQuantity)),
                  Text(show(a.makerFee)),
                  Text(show(a.takerFee)),
                  Number(a.timestamp),
                  Text(a.salt),
                  Text(show(a.fillTakerTokenAmount)),
                  Number(a.dexySignatureMode) ]),
      TextArg(IdentifierHex(a.identifier)),
      DataArg(a.signature),
      DataArg(a.makerAssetData),
      DataArg(a.takerAssetData) ]
  }

  /** What can be read back from a packed list without knowing how quantities are
      rendered: everything but the quantities themselves. */
  datatype Unpacked = Unpacked(
    exchangeIndex: int,
    methodName: string,
    addresses: seq<Address>,
    quantityTexts: seq<string>,
    timestamp: int,
    salt: string,
    dexySignatureMode: int,
    identifier: nat,
    signature: Data,
    makerAssetData: Data,
    takerAssetData: Data)

  /** The inverse of `PrepareArgs`: checks the shape position by position. */
  function Unpack(r: seq<Arg>): (u: Option<Unpacked>)
    ensures u.Some? ==> |r| == 8 && |u.value.addresses| == 6 && |u.value.quantityTexts| == 5
  {
    if |r| != 8 then None
    else if !(r[0].NumberArg? && r[1].TextArg? && r[2].AddressesArg? && r[3].ValuesArg?
              && r[4].TextArg? && r[5].DataArg? && r[6].DataArg? && r[7].DataArg?) then None
    else
      var addrs := r[2].addresses;
      var vs := r[3].values;
      var id := r[4].s;
      if |addrs| != 6 || |vs| != 8 then None
      else if !(vs[0].Text? && vs[1].Text? && vs[2].Text? && vs[3].Text? && vs[4].Number?
                && vs[5].Text? && vs[6].Text? && vs[7].Number?) then None
      else if !(|id| >= 2 && id[..2] == "0x" && AllHexDigits(id[2..])) then None
      else Some(Unpacked(r[0].n, r[1].s, addrs,
                         [vs[0].text, vs[1].text, vs[2].text, vs[3].text, vs[6].text],
                         vs[4].number, vs[5].text, vs[7].number, ParseHex(id[2..]),
                         r[5].data, r[6].data, r[7].data))
  }

  /** Unpacking a packed list recovers the index and method (positions 0 and 1),
      the six addresses in order, the rendered quantities in their value slots,
      timestamp, salt and signature mode, the identifier, and the three
      pass-through values in the last three positions. */
  lemma UnpackPrepareArgs(a: CallOnExchangeArgs, show: Quantity -> string)
    ensures Unpack(PrepareArgs(a, show)) == Some(Unpacked(
      a.exchangeIndex, a.methodName,
      [a.maker, a.taker, a.makerAsset, a.takerAsset, a.feeRecipient, a.senderAddress],
      [show(a.makerQuantity), show(a.takerQuantity), show(a.makerFee), show(a.takerFee), show(a.fillTakerTokenAmount)],
      a.timestamp, a.salt, a.dexySignatureMode, a.identifier,
      a.signature, a.makerAssetData, a.takerAssetData))
  {
    IdentifierParses(a.identifier);
  }

  /** Packing loses none of the fields it copies: two calls that pack to the same
      list agree on the index, method, identifier, addresses and pass-through data. */
  lemma PrepareArgsInjective(a: CallOnExchangeArgs, b: CallOnExchangeArgs, show: Quantity -> string)
    requires PrepareArgs(a, show) == PrepareArgs(b, show)
    ensures a.exchangeIndex == b.exchangeIndex && a.methodName == b.methodName && a.identifier == b.identifier
    ensures a.maker == b.maker && a.taker == b.taker && a.makerAsset == b.makerAsset
    ensures a.takerAsset == b.takerAsset && a.feeRecipient == b.feeRecipient && a.senderAddress == b.senderAddress
    ensures a.signature == b.signature && a.makerAssetData == b.makerAssetData && a.takerAssetData == b.takerAssetData
  {
    UnpackPrepareArgs(a, show);
    UnpackPrepareArgs(b, show);
  }

  /** `postProcess` (callOnExchange.ts:88-90) hands the receipt back. */
  function PostProcess<R>(receipt: R, params: CallOnExchangeArgs, contractAddress: Address): (r: R)
    ensures r == receipt
  {
    receipt
  }
}
