/**
 * The ABI builder (evmabi.go): parameters are checked and appended one by one, byte strings are
 * put aside, and `Bytes` writes them behind the heads, patching each offset into its head word.
 */
module AbiEncoder {
  import opened Arith
  import opened Bytes
  import opened Outcome
  import opened AbiLayout

  datatype AbiError = WrongCount | BelowRange | AboveRange | AddressLength | BadHex | UnsupportedValue | UnsupportedType

  /** The Go values a parameter can be, as far as the encoder tells them apart. */
  datatype Param =
    | Flag(b: bool)
    | Number(v: int)
    | Raw(data: seq<byte>)
    | Array20(raw: seq<byte>)
    | Text(chars: seq<byte>)
    | EvmOutput(raw: seq<byte>)
    | Foreign

  datatype AbiType = UintLike | Address | Buffer | Unknown

  /** Byte strings are Go slices, whose length is an unsigned 64-bit number, or arrays of 20 bytes. */
  predicate SliceSized(p: Param) {
    match p
    case Raw(data) => |data| < 0x1_0000_0000_0000_0000
    case Text(chars) => |chars| < 0x1_0000_0000_0000_0000
    case Array20(raw) => |raw| == 20
    case _ => true
  }

  function TypeOf(name: string): AbiType {
    if name in ["uint", "uint8", "uint16", "uint32", "uint64", "uint256", "bytes4", "bytes32"] then UintLike
    else if name == "address" then Address
    else if name in ["bytes", "string"] then Buffer
    else Unknown
  }

  /** The type names the encoder takes, and how it takes them. */
  lemma TypesAre(name: string)
    ensures TypeOf(name).Unknown? <==>
              name !in ["uint", "uint8", "uint16", "uint32", "uint64", "uint256", "bytes4", "bytes32",
                        "address", "bytes", "string"]
    ensures TypeOf(name).Address? <==> name == "address"
    ensures TypeOf(name).Buffer? <==> name == "bytes" || name == "string"
  {
  }

  /** `AppendBigInt`: the two's complement word, or the range error. */
  function WordOf(v: int): Result<Item, AbiError> {
    if v < 0 then
      if v + TWO_256 <= 0 then Err(BelowRange) else Ok(Static(v + TWO_256))
    else if v >= TWO_256 then Err(AboveRange) else Ok(Static(v))
  }

  /** Exactly the integers strictly between -2^256 and 2^256 are accepted, each as its residue mod 2^256. */
  lemma WordOfExactly(v: int)
    ensures WordOf(v).Ok? <==> 0 - TWO_256 < v < TWO_256
    ensures WordOf(v).Ok? ==> WordOf(v).value == Static(v % TWO_256) && Fits(WordOf(v).value)
  {
    if WordOf(v).Ok? {
      DivModUnique(v, TWO_256, if v < 0 then -1 else 0, if v < 0 then v + TWO_256 else v);
    }
  }

  // ---------------------------------------------------------------------------------------
  // Fixed-size byte types
  // ---------------------------------------------------------------------------------------

  /** The encoding of bytes1 to bytes32 in the ABI specification: the bytes, then zeros. */
  function SpecWord(xs: seq<byte>): (w: seq<byte>)
    requires |xs| <= 32
    ensures |w| == 32
  {
    xs + Zeros(32 - |xs|)
  }

  lemma SpecWordValue(xs: seq<byte>, e: nat)
    requires |xs| + e == 32
    ensures BE(SpecWord(xs)) == BE(xs) * Pow(256, e)
  {
    ValueSplit(256, xs, Zeros(e));
    ValueOfZeros(e);
  }

  lemma ZerosEncodeZero(n: nat)
    ensures ToBE(n, 0) == Zeros(n)
  {
    ValueOfZeros(n);
    DigitsOfValue(256, Zeros(n));
  }

  /** Zeros behind a number multiply it. */
  lemma ShiftShows(v: nat, e: nat)
    requires v > 0 && e > 0
    ensures v * Pow(256, e) != v
  {
    PowMono(256, 1, e);
    MulMono(256, Pow(256, e), v);
  }

  /** The word written for a number, which is right-aligned, against the one for its n bytes. */
  lemma AlignmentsMeet(n: nat, v: nat)
    requires n <= 32 && v < Pow(256, n) && v < TWO_256
    ensures Word(v) == SpecWord(ToBE(n, v)) <==> n == 32 || v == 0
  {
    if n == 32 {
      assert ToBE(32, v) + Zeros(0) == ToBE(32, v);
    } else if v == 0 {
      ZerosEncodeZero(n);
      ZerosEncodeZero(32);
      assert Zeros(n) + Zeros(32 - n) == Zeros(32);
    } else {
      BEOfToBE(n, v);
      WordRoundTrip(v);
      SpecWordValue(ToBE(n, v), 32 - n);
      ShiftShows(v, 32 - n);
    }
  }

  lemma FitsWord(n: nat, v: nat)
    requires n <= 32 && v < Pow(256, n)
    ensures v < TWO_256
  {
    WidthOf(32);
    PowMono(256, n, 32);
  }

  /** The fixed-size byte types the encoder knows, and their sizes. */
  function FixedSize(name: string): Option<nat> {
    if name == "bytes4" then Some(4) else if name == "bytes32" then Some(32) else None
  }

  /** The number a parameter stands for. */
  function NumberOf(p: Param): Option<int> {
    match p
    case Flag(b) => Some(if b then 1 else 0)
    case Number(v) => Some(v)
    case _ => None
  }

  /**
   * A bytes4 or bytes32 parameter is taken as a number. For a number of that many bytes the
   * encoding is the one of the ABI specification exactly when the type is bytes32 or the number
   * is zero.
   */
  lemma FixedBytesExactly(name: string, p: Param, v: nat)
    requires FixedSize(name).Some? && NumberOf(p) == Some(v) && v < Pow(256, FixedSize(name).value)
    ensures var a := ItemsOf([name], [p]);
            && a.refused == None
            && (Encoding([], a.items) == SpecWord(ToBE(FixedSize(name).value, v)) <==> name == "bytes32" || v == 0)
  {
    FitsWord(FixedSize(name).value, v);
    AlignmentsMeet(FixedSize(name).value, v);
    OneStatic(name, p, v);
  }

  lemma OneStatic(name: string, p: Param, v: nat)
    requires FixedSize(name).Some? && NumberOf(p) == Some(v) && v < TWO_256
    ensures ItemsOf([name], [p]) == Accepted([Static(v)], None)
    ensures Encoding([], [Static(v)]) == Word(v)
  {
    assert ItemsOf([name][..0], [p][..0]) == Accepted([], None);
    assert [Static(v)][..0] == [];
    assert Heads([Static(v)]) == Heads([]) + Word(v);
    assert Tails([Static(v)], 0) == [];
  }

  /** The number 1 as a bytes4 is written 00..01, where the specification has 00000001 first. */
  lemma Bytes4IsMisaligned()
    ensures ItemsOf(["bytes4"], [Number(1)]) == Accepted([Static(1)], None)
    ensures Encoding([], [Static(1)]) != SpecWord([0, 0, 0, 1])
  {
    Widths();
    OneStatic("bytes4", Number(1), 1);
    AlignmentsMeet(4, 1);
    var x := [0, 0, 0, 1];
    assert x == Zeros(3) + [1];
    assert [1][..0] == [];
    assert Value(256, [1]) == 1;
    ToBEOfPadded(3, [1]);
  }

  function HexDigit(c: byte): Option<byte> {
    if 0x30 <= c <= 0x39 then Some(c - 0x30)
    else if 0x41 <= c <= 0x46 then Some(c - 0x37)
    else if 0x61 <= c <= 0x66 then Some(c - 0x57)
    else None
  }

  function HexDecode(s: seq<byte>): Option<seq<byte>> {
    if s == [] then Some([])
    else if |s| == 1 then None
    else
      match (HexDigit(s[0]), HexDigit(s[1]), HexDecode(s[2..]))
      case (Some(hi), Some(lo), Some(rest)) => if hi < 16 && lo < 16 then Some([16 * hi + lo] + rest) else None
      case _ => None
  }

  /** Two hexadecimal digits a byte, lower-case. */
  function HexText(b: seq<byte>): seq<byte> {
    if b == [] then [] else [HexChar(b[0] / 16), HexChar(b[0] % 16)] + HexText(b[1..])
  }

  /** "0123456789abcdef" in ASCII. */
  const HEX_CHARS: seq<byte> := [0x30, 0x31, 0x32, 0x33, 0x34, 0x35, 0x36, 0x37,
                                 0x38, 0x39, 0x61, 0x62, 0x63, 0x64, 0x65, 0x66]

  function HexChar(n: nat): byte
    requires n < 16
  {
    HEX_CHARS[n]
  }

  /** Upper-case letters as lower-case ones, anything else as it is. */
  function LowerHex(s: seq<byte>): seq<byte> {
    seq(|s|, i requires 0 <= i < |s| => LowerChar(s[i]))
  }

  function LowerChar(c: byte): byte {
    if 0x41 <= c <= 0x5a then c + 0x20 else c
  }

  lemma HexDigitIs(c: byte, n: nat)
    requires n < 16
    ensures HexDigit(c) == Some(n) <==> LowerChar(c) == HexChar(n)
    ensures HexDigit(c).Some? ==> HexDigit(c).value < 16
  {
  }

  lemma HexPair(s: seq<byte>, b: byte)
    requires |s| >= 2
    ensures (HexDigit(s[0]) == Some(b / 16) && HexDigit(s[1]) == Some(b % 16))
       <==> LowerChar(s[0]) == HexChar(b / 16) && LowerChar(s[1]) == HexChar(b % 16)
  {
    HexDigitIs(s[0], b / 16);
    HexDigitIs(s[1], b % 16);
  }

  /** A text decodes to a byte string exactly when, letter case aside, it is that string in hexadecimal. */
  lemma {:induction false} HexDecodeExactly(s: seq<byte>, b: seq<byte>)
    ensures HexDecode(s) == Some(b) <==> LowerHex(s) == HexText(b)
    decreases |s|
  {
    if s == [] {
      assert b != [] ==> |HexText(b)| >= 2;
    } else if |s| == 1 || b == [] {
      assert |LowerHex(s)| == |s|;
      HexTextLength(b);
    } else {
      HexDecodeExactly(s[2..], b[1..]);
      HexPair(s, b[0]);
      HexStep(s, b);
    }
  }

  lemma {:induction false} HexTextLength(b: seq<byte>)
    ensures |HexText(b)| == 2 * |b|
  {
    if b != [] {
      HexTextLength(b[1..]);
    }
  }

  lemma HexStep(s: seq<byte>, b: seq<byte>)
    requires |s| >= 2 && b != [] && (HexDecode(s[2..]) == Some(b[1..]) <==> LowerHex(s[2..]) == HexText(b[1..]))
    ensures HexDecode(s) == Some(b) <==> LowerHex(s) == HexText(b)
  {
    var lower, text := LowerHex(s), HexText(b);
    assert lower == [LowerChar(s[0]), LowerChar(s[1])] + LowerHex(s[2..]);
    assert lower[2..] == LowerHex(s[2..]) && text[2..] == HexText(b[1..]);
    HexPair(s, b[0]);
    HexFront(s, b);
  }

  lemma HexFront(s: seq<byte>, b: seq<byte>)
    requires |s| >= 2 && b != []
    ensures HexDecode(s) == Some(b)
       <==> HexDigit(s[0]) == Some(b[0] / 16) && HexDigit(s[1]) == Some(b[0] % 16)
            && HexDecode(s[2..]) == Some(b[1..])
  {
    assert b == [b[0]] + b[1..];
    assert HexDigit(s[0]).Some? ==> HexDigit(s[0]).value < 16;
    assert HexDigit(s[1]).Some? ==> HexDigit(s[1]).value < 16;
    if HexDecode(s).Some? {
      assert HexDecode(s).value[1..] == HexDecode(s[2..]).value;
    }
  }

  function TrimHexPrefix(s: seq<byte>): seq<byte> {
    if |s| >= 2 && s[0] == 0x30 && s[1] == 0x78 then s[2..] else s
  }

  function AddressItem(raw: seq<byte>): Result<Item, AbiError> {
    if |raw| != 20 then Err(AddressLength) else WordOf(BE(raw))
  }

  /** An address is written as twelve zero bytes and the twenty bytes it has. */
  lemma AddressWord(raw: seq<byte>)
    ensures AddressItem(raw).Ok? <==> |raw| == 20
    ensures |raw| == 20 ==> AddressItem(raw).value.Static? && Word(AddressItem(raw).value.v) == Zeros(12) + raw
  {
    if |raw| == 20 {
      ToBEOfPadded(12, raw);
      WidthOf(32);
    }
  }

  /** What one parameter of a declared type becomes. */
  function ItemOf(t: AbiType, p: Param): Result<Item, AbiError> {
    match t
    case UintLike =>
      (match p
       case Flag(b) => WordOf(if b then 1 else 0)
       case Number(v) => WordOf(v)
       case _ => Err(UnsupportedValue))
    case Address =>
      (match p
       case EvmOutput(raw) => AddressItem(raw)
       case Raw(raw) => AddressItem(raw)
       case Array20(raw) => AddressItem(raw)
       case Text(s) => (match HexDecode(TrimHexPrefix(s)) case None => Err(BadHex) case Some(raw) => AddressItem(raw))
       case _ => Err(UnsupportedValue))
    case Buffer =>
      (match p
       case Raw(data) => Ok(Dynamic(data))
       case Text(chars) => Ok(Dynamic(chars))
       case _ => Err(UnsupportedValue))
    case Unknown => Err(UnsupportedType)
  }

  /** The items before the first parameter that is refused, and the refusal. */
  datatype Accepted = Accepted(items: seq<Item>, refused: Option<AbiError>)

  function After(items: seq<Item>, a: Accepted): Accepted {
    Accepted(items + a.items, a.refused)
  }

  function ItemsOf(types: seq<string>, params: seq<Param>): (a: Accepted)
    requires |types| == |params|
    ensures a.refused == None ==> |a.items| == |types|
  {
    if types == [] then Accepted([], None)
    else
      var n := |types| - 1;
      var before := ItemsOf(types[..n], params[..n]);
      if before.refused.Some? then before
      else
        match ItemOf(TypeOf(types[n]), params[n])
        case Err(e) => Accepted(before.items, Some(e))
        case Ok(item) => Accepted(before.items + [item], None)
  }

  lemma {:induction false} RefusalSticks(types: seq<string>, params: seq<Param>, i: nat)
    requires |types| == |params| && i <= |types| && ItemsOf(types[..i], params[..i]).refused.Some?
    ensures ItemsOf(types, params) == ItemsOf(types[..i], params[..i])
    decreases |types|
  {
    var n := |types| - 1;
    if i == |types| {
      assert types[..i] == types && params[..i] == params;
    } else {
      assert types[..n][..i] == types[..i] && params[..n][..i] == params[..i];
      RefusalSticks(types[..n], params[..n], i);
    }
  }

  lemma PaddedBy(data: seq<byte>)
    ensures Padded(data) == if |data| % 32 != 0 then data + Zeros(32 - |data| % 32) else data
  {
    var k, r := |data| / 32, |data| % 32;
    assert |data| == 32 * k + r;
    if r == 0 {
      assert Blocks(|data|) == k;
      assert data + Zeros(0) == data;
    } else {
      assert Blocks(|data|) == k + 1;
    }
  }

  /** One round of writing out the deferred data. */
  lemma EmitStep(res: seq<byte>, str: seq<Deferred>, i: nat)
    requires i < |str| && SlotsFit(str[i..], |res|)
    ensures str[i].offset + 32 <= |res|
    ensures SlotsFit(str[i + 1..], |EmitOne(res, str[i])|)
    ensures Emit(res, str[i..]) == Emit(EmitOne(res, str[i]), str[i + 1..])
  {
    assert str[i..][0] == str[i] && str[i..][1..] == str[i + 1..];
    assert str[i..][0].offset + 32 <= |res|;
  }

  /** The concrete fields of a builder that was started on `base` and given `items`. */
  ghost predicate Holds(buf: seq<byte>, str: seq<Deferred>, base: seq<byte>, items: seq<Item>) {
    buf == base + Heads(items) && str == Tails(items, |base|) && AllFit(items)
  }

  lemma HoldsStatic(buf: seq<byte>, str: seq<Deferred>, base: seq<byte>, items: seq<Item>, v: nat)
    requires Holds(buf, str, base, items) && v < TWO_256
    ensures Holds(buf + Word(v), str, base, items + [Static(v)])
  {
    AppendItem(items, Static(v), |base|, |buf|);
    HoldsHeads(base, Heads(items), Word(v));
    assert str + [] == str;
  }

  lemma HoldsDynamic(buf: seq<byte>, str: seq<Deferred>, base: seq<byte>, items: seq<Item>, v: seq<byte>)
    requires Holds(buf, str, base, items) && |v| < TWO_256
    ensures Holds(buf + Zeros(32), str + [Deferred(|buf|, Measured(v))], base, items + [Dynamic(v)])
  {
    AppendItem(items, Dynamic(v), |base|, |buf|);
    HoldsHeads(base, Heads(items), Zeros(32));
  }

  lemma HoldsHeads(base: seq<byte>, heads: seq<byte>, word: seq<byte>)
    ensures base + heads + word == base + (heads + word)
  {
  }

  /** One more parameter, after the first i were accepted. */
  lemma ItemsStep(types: seq<string>, params: seq<Param>, i: nat)
    requires i < |types| == |params| && ItemsOf(types[..i], params[..i]).refused == None
    ensures ItemsOf(types[..i + 1], params[..i + 1])
         == match ItemOf(TypeOf(types[i]), params[i])
            case Err(e) => Accepted(ItemsOf(types[..i], params[..i]).items, Some(e))
            case Ok(item) => Accepted(ItemsOf(types[..i], params[..i]).items + [item], None)
  {
    assert types[..i + 1][..i] == types[..i] && params[..i + 1][..i] == params[..i];
  }

  class AbiBuffer {
    var buf: seq<byte>
    var str: seq<Deferred>
    /** What the buffer started with, and the parameters appended since. */
    ghost var base: seq<byte>
    ghost var items: seq<Item>

    ghost predicate Valid()
      reads this
    {
      Holds(buf, str, base, items)
    }

    constructor (initial: seq<byte>)
      ensures Valid() && base == initial && items == []
    {
      buf, str, base, items := initial, [], initial, [];
      new;
      assert initial + [] == initial;
    }

    method AppendBigInt(v: int) returns (r: Option<AbiError>)
      requires Valid()
      modifies this
      ensures Valid() && base == old(base)
      ensures r == (match WordOf(v) case Ok(_) => None case Err(e) => Some(e))
      ensures items == (match WordOf(v) case Ok(item) => old(items) + [item] case Err(_) => old(items))
    {
      var w := v;
      if w < 0 {
        w := w + TWO_256;
        if w <= 0 {
          return Some(BelowRange);
        }
      }
      if w >= TWO_256 {
        return Some(AboveRange);
      }
      HoldsStatic(buf, str, base, items, w);
      buf, items := buf + Word(w), items + [Static(w)];
      return None;
    }

    method AppendBytes(v: seq<byte>)
      requires Valid() && |v| < 0x1_0000_0000_0000_0000
      modifies this
      ensures Valid() && base == old(base) && items == old(items) + [Dynamic(v)]
    {
      var pos := |buf|;
      HoldsDynamic(buf, str, base, items, v);
      buf := buf + Zeros(32);
      str := str + [Deferred(pos, Word(|v|) + v)];
      items := items + [Dynamic(v)];
    }

    method AppendTyped(t: AbiType, p: Param) returns (r: Option<AbiError>)
      requires Valid() && SliceSized(p)
      modifies this
      ensures Valid() && base == old(base)
      ensures r == (match ItemOf(t, p) case Ok(_) => None case Err(e) => Some(e))
      ensures items == (match ItemOf(t, p) case Ok(item) => old(items) + [item] case Err(_) => old(items))
    {
      match t {
        case UintLike =>
          match p {
            case Flag(b) => r := AppendBigInt(if b then 1 else 0);
            case Number(v) => r := AppendBigInt(v);
            case _ => r := Some(UnsupportedValue);
          }
        case Address =>
          match p {
            case EvmOutput(raw) => r := AppendAddress(raw);
            case Raw(raw) => r := AppendAddress(raw);
            case Array20(raw) => r := AppendAddress(raw);
            case Text(s) =>
              var raw := HexDecode(TrimHexPrefix(s));
              if raw.None? {
                return Some(BadHex);
              }
              r := AppendAddress(raw.value);
            case _ => r := Some(UnsupportedValue);
          }
        case Buffer =>
          match p {
            case Raw(data) => AppendBytes(data); r := None;
            case Text(chars) => AppendBytes(chars); r := None;
            case _ => r := Some(UnsupportedValue);
          }
        case Unknown => r := Some(UnsupportedType);
      }
    }

    method AppendAddress(raw: seq<byte>) returns (r: Option<AbiError>)
      requires Valid()
      modifies this
      ensures Valid() && base == old(base)
      ensures r == (match AddressItem(raw) case Ok(_) => None case Err(e) => Some(e))
      ensures items == (match AddressItem(raw) case Ok(item) => old(items) + [item] case Err(_) => old(items))
    {
      if |raw| != 20 {
        return Some(AddressLength);
      }
      r := AppendBigInt(BE(raw));
    }

    method AppendAll(types: seq<string>, params: seq<Param>) returns (r: Option<AbiError>)
      requires Valid() && |types| == |params| && forall i :: 0 <= i < |params| ==> SliceSized(params[i])
      modifies this
      ensures Valid() && base == old(base)
      ensures r == ItemsOf(types, params).refused && items == old(items) + ItemsOf(types, params).items
    {
      for i := 0 to |types|
        invariant Valid() && base == old(base)
        invariant Accepted(items, None) == After(old(items), ItemsOf(types[..i], params[..i]))
      {
        ItemsStep(types, params, i);
        r := AppendTyped(TypeOf(types[i]), params[i]);
        if r.Some? {
          RefusalSticks(types, params, i + 1);
          return;
        }
      }
      assert types[..|types|] == types && params[..|params|] == params;
      return None;
    }

    /** Parameters are appended in order up to the first refusal, which leaves the earlier ones in place. */
    method EncodeTypes(types: seq<string>, params: seq<Param>) returns (r: Option<AbiError>)
      requires Valid() && forall i :: 0 <= i < |params| ==> SliceSized(params[i])
      modifies this
      ensures Valid() && base == old(base)
      ensures |types| != |params| ==> r == Some(WrongCount) && items == old(items)
      ensures |types| == |params| ==>
                r == ItemsOf(types, params).refused && items == old(items) + ItemsOf(types, params).items
    {
      if |types| != |params| {
        return Some(WrongCount);
      }
      if |types| == 0 {
        return None;
      }
      r := AppendAll(types, params);
    }

    /** Nothing is changed, so every call gives the same string. */
    method Bytes() returns (res: seq<byte>)
      requires Valid()
      ensures res == Encoding(base, items)
    {
      TailsShape(items, |base|);
      res := WriteDeferred(buf, str);
    }
  }

  /** Each deferred piece goes to the end, padded, and its place into the slot kept for it. */
  method WriteDeferred(buf: seq<byte>, str: seq<Deferred>) returns (res: seq<byte>)
    requires SlotsFit(str, |buf|)
    ensures res == Emit(buf, str)
  {
    res := buf;
    for i := 0 to |str|
      invariant SlotsFit(str[i..], |res|)
      invariant Emit(res, str[i..]) == Emit(buf, str)
    {
      var s := str[i];
      EmitStep(res, str, i);
      var data := s.data;
      PaddedBy(data);
      var x := |data| % 32;
      if x != 0 {
        data := data + Zeros(32 - x);
      }
      var pos := |res|;
      res := Patch(res, s.offset, Word(pos));
      res := res + data;
    }
  }

  /** From an empty builder: what `Bytes` returns decodes, parameter by parameter, to what was accepted. */
  method EncodeFresh(types: seq<string>, params: seq<Param>) returns (r: Result<seq<byte>, AbiError>)
    requires |types| == |params| && forall i :: 0 <= i < |params| ==> SliceSized(params[i])
    ensures r.Err? <==> ItemsOf(types, params).refused.Some?
    ensures r.Ok? && |r.value| < TWO_256 ==>
              forall i :: 0 <= i < |types| ==>
                Decode(r.value, i, ItemsOf(types, params).items[i].Dynamic?) == Some(ItemsOf(types, params).items[i])
  {
    var buffer := new AbiBuffer([]);
    var refused := buffer.EncodeTypes(types, params);
    if refused.Some? {
      return Err(refused.value);
    }
    assert buffer.items == ItemsOf(types, params).items;
    var out := buffer.Bytes();
    if |out| < TWO_256 {
      EncodingDecodes(buffer.items);
    }
    return Ok(out);
  }
}
