/** Cardano Shelley addresses (CIP-19): a header byte and one or two key hashes, in Bech32. */
module CardanoAddress {
  import opened Outcome
  import opened Arith
  import opened Regroup
  import opened Bytes
  import opened Bech32Text
  import Bech32

  datatype AddressError =
    | EmptyPayload
    | BadHash
    | UnknownNetwork
    | BadText(cause: DecodeError)
    | UnknownPrefix
    | BadPayload
    | BadNetworkId
    | BadType
    | BadLength
    | KindMismatch
    | NetworkMismatch

  const TYPE_BASE := 0
  const TYPE_ENTERPRISE := 6
  const TYPE_REWARD := 14

  const NET_TESTNET := 0
  const NET_MAINNET := 1

  /** A parsed address: the raw payload and the network flag. */
  datatype Parsed = Parsed(payload: seq<byte>, flag: string)

  function Network(name: string): Result<byte, AddressError> {
    if name == "" || name == "cardano" || name == "cardano-mainnet" || name == "mainnet" then Ok(NET_MAINNET)
    else if name == "cardano-testnet" || name == "testnet" then Ok(NET_TESTNET)
    else Err(UnknownNetwork)
  }

  /** The four human-readable prefixes. */
  datatype Prefix = Addr | AddrTest | Stake | StakeTest

  function PrefixText(p: Prefix): string {
    match p
    case Addr => "addr"
    case AddrTest => "addr_test"
    case Stake => "stake"
    case StakeTest => "stake_test"
  }

  function PrefixOf(hrp: string): Option<Prefix> {
    if hrp == "addr" then Some(Addr)
    else if hrp == "addr_test" then Some(AddrTest)
    else if hrp == "stake" then Some(Stake)
    else if hrp == "stake_test" then Some(StakeTest)
    else None
  }

  function PrefixFor(typ: int, net: int): Prefix {
    if typ == TYPE_REWARD then
      if net == NET_TESTNET then StakeTest else Stake
    else
      if net == NET_TESTNET then AddrTest else Addr
  }

  lemma PrefixTexts(p: Prefix)
    ensures PrefixOf(PrefixText(p)) == Some(p)
    ensures PrefixText(p) != "" && !HasUpper(PrefixText(p))
  {
  }

  lemma PrefixRead(hrp: string)
    requires PrefixOf(hrp).Some?
    ensures hrp == PrefixText(PrefixOf(hrp).value)
  {
  }

  /** The prefix that the header byte calls for. */
  function HeaderPrefix(payload: seq<byte>): Prefix
    requires |payload| > 0
  {
    PrefixFor(payload[0] / 16, payload[0] % 16)
  }

  /** The network names: testnet is 0, mainnet is 1 and the default, others are refused. */
  lemma NetworksAre(name: string)
    ensures Network(name) == Ok(0) <==> name in ["cardano-testnet", "testnet"]
    ensures Network(name) == Ok(1) <==> name in ["", "cardano", "cardano-mainnet", "mainnet"]
    ensures Network(name).Err? ==> Network(name).error == UnknownNetwork
  {
  }

  /** The four prefixes of CIP-19, header by header: reward or not, mainnet or testnet. */
  lemma PrefixesAre(payload: seq<byte>)
    requires |payload| > 0
    ensures PrefixText(HeaderPrefix(payload))
         == if 0xe0 <= payload[0] < 0xf0 then (if payload[0] == 0xe0 then "stake_test" else "stake")
            else if payload[0] % 16 == 0 then "addr_test" else "addr"
  {
  }

  /** The bytes of the payload as 5-bit symbols. */
  function Grouped(payload: seq<byte>): seq<Sym> {
    GroupedIsBelow(payload);
    Regrouped(payload, 8, 5, true).value
  }

  lemma Widths()
    ensures Two(8) == 256 && Two(5) == 32
  {
  }

  lemma GroupedIsBelow(payload: seq<byte>)
    ensures Regrouped(payload, 8, 5, true).Ok?
    ensures Below(Regrouped(payload, 8, 5, true).value, 32)
  {
    Widths();
    var n := |payload| * 8;
    var k := Groups(n, 5);
    DigitsBelow(Two(5), k, Value(Two(8), payload) * Two(k * 5 - n));
  }

  function EncodedAddress(payload: seq<byte>): Result<string, AddressError> {
    if |payload| == 0 then Err(EmptyPayload)
    else Ok(Bech32.Encoded(PrefixText(HeaderPrefix(payload)), Grouped(payload)))
  }

  method EncodeAddress(payload: seq<byte>) returns (r: Result<string, AddressError>)
    ensures r == EncodedAddress(payload)
  {
    if |payload| == 0 {
      return Err(EmptyPayload);
    }
    var hrp := PrefixText(HeaderPrefix(payload));
    Widths();
    GroupedIsBelow(payload);
    var data := ConvertBits(payload, 8, 5, true);
    var s := Bech32.Encode(hrp, data.value);
    return Ok(s);
  }

  function EnterpriseAddress(payment: seq<byte>, network: string): Result<string, AddressError> {
    if |payment| != 28 then Err(BadHash)
    else if Network(network).Err? then Err(UnknownNetwork)
    else EncodedAddress([TYPE_ENTERPRISE * 16 + Network(network).value] + payment)
  }

  function BaseAddress(payment: seq<byte>, stake: seq<byte>, network: string): Result<string, AddressError> {
    if |payment| != 28 || |stake| != 28 then Err(BadHash)
    else if Network(network).Err? then Err(UnknownNetwork)
    else EncodedAddress([TYPE_BASE * 16 + Network(network).value] + payment + stake)
  }

  function RewardAddress(stake: seq<byte>, network: string): Result<string, AddressError> {
    if |stake| != 28 then Err(BadHash)
    else if Network(network).Err? then Err(UnknownNetwork)
    else EncodedAddress([TYPE_REWARD * 16 + Network(network).value] + stake)
  }

  /** `cardanoAddressFromOut`: the network flag replaces the network nibble. */
  function AddressFromOut(raw: seq<byte>, network: string): Result<string, AddressError> {
    if |raw| == 0 then Err(EmptyPayload)
    else
      match Network(network)
      case Err(_) => Err(UnknownNetwork)
      case Ok(net) => EncodedAddress(WithNetwork(raw, net))
  }

  function WithNetwork(raw: seq<byte>, net: byte): seq<byte>
    requires |raw| > 0 && net < 16
  {
    raw[0 := raw[0] / 16 * 16 + net]
  }

  lemma WithSameNetwork(raw: seq<byte>)
    requires |raw| > 0
    ensures WithNetwork(raw, raw[0] % 16) == raw
  {
  }

  function FlagOf(net: int): string {
    if net == NET_TESTNET then "cardano-testnet" else "cardano"
  }

  /** The checks on a decoded payload, in the order the parser makes them. */
  function Checked(prefix: Prefix, payload: seq<byte>): Result<Parsed, AddressError> {
    if |payload| == 0 then Err(EmptyPayload)
    else
      var typ, net := payload[0] / 16, payload[0] % 16;
      if net != NET_MAINNET && net != NET_TESTNET then Err(BadNetworkId)
      else if typ != TYPE_BASE && typ != TYPE_ENTERPRISE && typ != TYPE_REWARD then Err(BadType)
      else if |payload| != (if typ == TYPE_BASE then 57 else 29) then Err(BadLength)
      else if (prefix.Stake? || prefix.StakeTest?) != (typ == TYPE_REWARD) then Err(KindMismatch)
      else if net != (if prefix.AddrTest? || prefix.StakeTest? then NET_TESTNET else NET_MAINNET) then
        Err(NetworkMismatch)
      else Ok(Parsed(payload, FlagOf(net)))
  }

  lemma UnpaddedIsBelow(data: seq<Sym>)
    requires Regrouped(data, 5, 8, false).Ok?
    ensures Below(Regrouped(data, 5, 8, false).value, 256)
  {
    Widths();
    PadInvertsUnpad(data, 8, 5);
  }

  function ParsedAddress(text: string): Result<Parsed, AddressError> {
    var decoded := Bech32.Decoded(text);
    if decoded.Err? then Err(BadText(decoded.error))
    else
      var (hrp, data) := decoded.value;
      if PrefixOf(hrp).None? then Err(UnknownPrefix)
      else
        var bytes := Regrouped(data, 5, 8, false);
        if bytes.Err? then Err(BadPayload)
        else
          UnpaddedIsBelow(data);
          Checked(PrefixOf(hrp).value, bytes.value)
  }

  method ParseAddress(text: string) returns (r: Result<Parsed, AddressError>)
    ensures r == ParsedAddress(text)
  {
    var decoded := Bech32.Decode(text);
    if decoded.Err? {
      return Err(BadText(decoded.error));
    }
    var (hrp, data) := decoded.value;
    var prefix := PrefixOf(hrp);
    if prefix.None? {
      return Err(UnknownPrefix);
    }
    Widths();
    var bytes := ConvertBits(data, 5, 8, false);
    if bytes.Err? {
      return Err(BadPayload);
    }
    return Checked(prefix.value, bytes.value);
  }

  // ---------------------------------------------------------------------------------------
  // Main results
  // ---------------------------------------------------------------------------------------

  /** The payloads of CIP-19 that the library supports. */
  predicate WellFormed(payload: seq<byte>) {
    && |payload| > 0
    && (payload[0] % 16 == NET_TESTNET || payload[0] % 16 == NET_MAINNET)
    && var typ := payload[0] / 16;
       || (typ == TYPE_BASE && |payload| == 57)
       || ((typ == TYPE_ENTERPRISE || typ == TYPE_REWARD) && |payload| == 29)
  }

  /** The prefix the header calls for is the only one that passes the cross-checks. */
  lemma CheckedExactly(prefix: Prefix, payload: seq<byte>)
    ensures Checked(prefix, payload).Ok? <==> WellFormed(payload) && prefix == HeaderPrefix(payload)
  {
  }

  lemma ParseOfEncoded(payload: seq<byte>)
    requires WellFormed(payload)
    ensures EncodedAddress(payload).Ok?
    ensures ParsedAddress(EncodedAddress(payload).value) == Ok(Parsed(payload, FlagOf(payload[0] % 16)))
  {
    var prefix := HeaderPrefix(payload);
    PrefixTexts(prefix);
    Bech32.DecodeInvertsEncode(PrefixText(prefix), Grouped(payload));
    Widths();
    UnpadInvertsPad(payload, 8, 5);
    CheckedExactly(prefix, payload);
  }

  lemma EncodedOfParse(text: string)
    requires ParsedAddress(text).Ok?
    ensures var p := ParsedAddress(text).value;
            && WellFormed(p.payload) && p.flag == FlagOf(p.payload[0] % 16)
            && EncodedAddress(p.payload) == Ok(Lower(text))
  {
    var (hrp, data) := Bech32.Decoded(text).value;
    var payload := ParsedAddress(text).value.payload;
    UnpaddedIsBelow(data);
    PrefixRead(hrp);
    CheckedExactly(PrefixOf(hrp).value, payload);
    Widths();
    PadInvertsUnpad(data, 8, 5);
    Bech32.EncodeInvertsDecode(text);
  }

  lemma EncodedTextParses(text: string, payload: seq<byte>)
    requires WellFormed(payload) && SingleCase(text) && EncodedAddress(payload) == Ok(Lower(text))
    ensures ParsedAddress(text) == ParsedAddress(Lower(text))
  {
    LowerHasNoUpper(text);
    LowerIsIdentity(Lower(text));
  }

  ghost predicate ParsesAs(text: string, payload: seq<byte>) {
    ParsedAddress(text).Ok? && ParsedAddress(text).value.payload == payload
  }

  /** A text parses to a payload exactly when the payload is well formed and the text, in one
      letter case, is its encoding: every payload has one address and every address one payload. */
  lemma ParseExactly(text: string, payload: seq<byte>)
    ensures ParsesAs(text, payload) <==>
            WellFormed(payload) && SingleCase(text) && EncodedAddress(payload) == Ok(Lower(text))
  {
    if ParsesAs(text, payload) {
      EncodedOfParse(text);
    }
    if WellFormed(payload) && SingleCase(text) && EncodedAddress(payload) == Ok(Lower(text)) {
      ParseOfEncoded(payload);
      EncodedTextParses(text, payload);
    }
  }

  lemma FlagNamesNetwork(net: int)
    requires net == NET_TESTNET || net == NET_MAINNET
    ensures Network(FlagOf(net)) == Ok(net)
  {
  }

  /** Re-rendering a parsed address with the flag the parser stored gives the address back. */
  lemma ReencodeParsed(text: string)
    requires ParsedAddress(text).Ok?
    ensures AddressFromOut(ParsedAddress(text).value.payload, ParsedAddress(text).value.flag) == Ok(Lower(text))
  {
    EncodedOfParse(text);
    var p := ParsedAddress(text).value;
    FlagNamesNetwork(p.payload[0] % 16);
    SameNetwork(p.payload, p.flag);
  }

  lemma SameNetwork(payload: seq<byte>, flag: string)
    requires |payload| > 0 && Network(flag) == Ok(payload[0] % 16)
    ensures AddressFromOut(payload, flag) == EncodedAddress(payload)
  {
    WithSameNetwork(payload);
  }

  /** The address was built, and parses to the given payload and network. */
  ghost predicate ParsesTo(address: Result<string, AddressError>, payload: seq<byte>, net: int) {
    address.Ok? && ParsedAddress(address.value) == Ok(Parsed(payload, FlagOf(net)))
  }

  /** Every address the builders make parses back to its header and hashes. */
  lemma EnterpriseParses(payment: seq<byte>, network: string, net: byte)
    requires |payment| == 28 && Network(network) == Ok(net)
    ensures ParsesTo(EnterpriseAddress(payment, network), [0x60 + net] + payment, net)
  {
    ParseOfEncoded([0x60 + net] + payment);
  }

  lemma BaseParses(payment: seq<byte>, stake: seq<byte>, network: string, net: byte)
    requires |payment| == 28 && |stake| == 28 && Network(network) == Ok(net)
    ensures ParsesTo(BaseAddress(payment, stake, network), [net] + payment + stake, net)
  {
    ParseOfEncoded([net] + payment + stake);
  }

  lemma RewardParses(stake: seq<byte>, network: string, net: byte)
    requires |stake| == 28 && Network(network) == Ok(net)
    ensures ParsesTo(RewardAddress(stake, network), [0xe0 + net] + stake, net)
  {
    ParseOfEncoded([0xe0 + net] + stake);
  }
}
