/**
  The text form of Bech32: prefix, separator, one character per symbol, six check symbols.

  Nothing here depends on which characters or which checksum are used; both come in a `Code`,
  and the results hold for every code whose check symbols are unique. Module Bech32 puts in the
  BIP-173 character set and checksum.
*/
module Bech32Text {
  import opened Outcome

  type Sym = v: int | 0 <= v < 32

  datatype DecodeError = MixedCase | BadSeparator | BadCharacter | BadChecksum

  type Decoding = Result<(string, seq<Sym>), DecodeError>

  datatype Code = Code(alphabet: Sym -> char,
                       sum: (string, seq<Sym>) -> seq<Sym>,
                       ok: (string, seq<Sym>) -> bool)

  ghost predicate ValidAlphabet(alphabet: Sym -> char) {
    && (forall u: Sym, v: Sym :: u != v ==> alphabet(u) != alphabet(v))
    && forall v: Sym :: !IsUpper(alphabet(v)) && alphabet(v) != '1'
  }

  /** For every prefix and data, six symbols pass the check exactly when they are the sum. */
  ghost predicate UniqueSum(code: Code) {
    && (forall hrp, data :: |code.sum(hrp, data)| == 6)
    && forall hrp, data, cs :: |cs| == 6 ==> (code.ok(hrp, data + cs) <==> cs == code.sum(hrp, data))
  }

  ghost predicate Valid(code: Code) {
    ValidAlphabet(code.alphabet) && UniqueSum(code)
  }

  // ---------------------------------------------------------------------------------------
  // Letter case
  // ---------------------------------------------------------------------------------------

  predicate IsUpper(c: char) {
    'A' <= c <= 'Z'
  }

  function LowerChar(c: char): char {
    if IsUpper(c) then (c as int + 32) as char else c
  }

  function UpperChar(c: char): char {
    if 'a' <= c <= 'z' then (c as int - 32) as char else c
  }

  function Lower(s: string): (l: string)
    ensures |l| == |s|
  {
    seq(|s|, i requires 0 <= i < |s| => LowerChar(s[i]))
  }

  function Upper(s: string): (u: string)
    ensures |u| == |s|
  {
    seq(|s|, i requires 0 <= i < |s| => UpperChar(s[i]))
  }

  predicate HasUpper(s: string) {
    exists i :: 0 <= i < |s| && IsUpper(s[i])
  }

  predicate SingleCase(s: string) {
    s == Lower(s) || s == Upper(s)
  }

  lemma LowerIsIdentity(s: string)
    ensures Lower(s) == s <==> !HasUpper(s)
  {
    if HasUpper(s) {
      var i :| 0 <= i < |s| && IsUpper(s[i]);
      assert Lower(s)[i] != s[i];
    }
  }

  lemma LowerHasNoUpper(s: string)
    ensures !HasUpper(Lower(s))
  {
  }

  // ---------------------------------------------------------------------------------------
  // Symbols and characters
  // ---------------------------------------------------------------------------------------

  /** strings.IndexByte over the character set, from place i on; -1 when absent. */
  function IndexFrom(alphabet: Sym -> char, c: char, i: nat): (k: int)
    requires i <= 32
    ensures -1 <= k < 32
    ensures k >= 0 ==> alphabet(k) == c
    decreases 32 - i
  {
    if i == 32 then -1 else if alphabet(i) == c then i else IndexFrom(alphabet, c, i + 1)
  }

  function Chars(alphabet: Sym -> char, data: seq<Sym>): (s: string)
    ensures |s| == |data|
  {
    seq(|data|, i requires 0 <= i < |data| => alphabet(data[i]))
  }

  /** The symbols of a text, if every character is in the character set. */
  function Symbols(alphabet: Sym -> char, s: string): (r: Option<seq<Sym>>)
    ensures r.Some? ==> |r.value| == |s|
  {
    if s == [] then Some([])
    else
      var head := Symbols(alphabet, s[..|s| - 1]);
      var v := IndexFrom(alphabet, s[|s| - 1], 0);
      if head.None? || v < 0 then None else Some(head.value + [v])
  }

  lemma CharsShape(alphabet: Sym -> char, data: seq<Sym>)
    requires ValidAlphabet(alphabet)
    ensures !HasUpper(Chars(alphabet, data)) && '1' !in Chars(alphabet, data)
  {
  }

  /** The search stops no later than at a place where the character stands. */
  lemma {:induction false} IndexStops(alphabet: Sym -> char, c: char, i: nat, v: Sym)
    requires i <= v && alphabet(v) == c
    ensures 0 <= IndexFrom(alphabet, c, i) <= v
    decreases v - i
  {
    if i < v && alphabet(i) != c {
      IndexStops(alphabet, c, i + 1, v);
    }
  }

  lemma IndexOfSymbol(alphabet: Sym -> char, v: Sym)
    requires ValidAlphabet(alphabet)
    ensures IndexFrom(alphabet, alphabet(v), 0) == v
  {
    IndexStops(alphabet, alphabet(v), 0, v);
  }

  lemma {:induction false} SymbolsOfChars(alphabet: Sym -> char, data: seq<Sym>)
    requires ValidAlphabet(alphabet)
    ensures Symbols(alphabet, Chars(alphabet, data)) == Some(data)
  {
    if data != [] {
      var n := |data| - 1;
      var s := Chars(alphabet, data);
      assert s[..n] == Chars(alphabet, data[..n]);
      SymbolsOfChars(alphabet, data[..n]);
      IndexOfSymbol(alphabet, data[n]);
      assert s[n] == alphabet(data[n]);
      assert data == data[..n] + [data[n]];
    }
  }

  lemma {:induction false} CharsOfSymbols(alphabet: Sym -> char, s: string)
    requires Symbols(alphabet, s).Some?
    ensures Chars(alphabet, Symbols(alphabet, s).value) == s
  {
    if s != [] {
      var n := |s| - 1;
      CharsOfSymbols(alphabet, s[..n]);
      var head := Symbols(alphabet, s[..n]).value;
      assert Symbols(alphabet, s).value[..n] == head;
      assert Chars(alphabet, Symbols(alphabet, s).value)[..n] == Chars(alphabet, head);
      assert s == s[..n] + [s[n]];
    }
  }

  /** A bad character makes the whole text bad, however much follows it. */
  lemma {:induction false} SymbolsPrefix(alphabet: Sym -> char, s: string, n: nat)
    requires n <= |s|
    ensures Symbols(alphabet, s[..n]).None? ==> Symbols(alphabet, s).None?
    decreases |s| - n
  {
    if n < |s| {
      assert s[..n + 1][..n] == s[..n];
      SymbolsPrefix(alphabet, s, n + 1);
    } else {
      assert s[..n] == s;
    }
  }

  /** The decoder's loop over the characters after the separator. */
  method SymbolsLoop(alphabet: Sym -> char, s: string, start: nat) returns (r: Option<seq<Sym>>)
    requires start <= |s|
    ensures r == Symbols(alphabet, s[start..])
  {
    ghost var rest := s[start..];
    var data: seq<Sym> := [];
    var i := start;
    while i < |s|
      invariant start <= i <= |s|
      invariant Symbols(alphabet, rest[..i - start]) == Some(data)
    {
      assert rest[..i - start + 1][..i - start] == rest[..i - start];
      var idx := IndexFrom(alphabet, s[i], 0);
      if idx < 0 {
        SymbolsPrefix(alphabet, rest, i - start + 1);
        return None;
      }
      data := data + [idx];
      i := i + 1;
    }
    assert rest[..i - start] == rest;
    return Some(data);
  }

  /** The encoder's loop over data and checksum. */
  method CharsLoop(alphabet: Sym -> char, symbols: seq<Sym>) returns (s: string)
    ensures s == Chars(alphabet, symbols)
  {
    s := "";
    var i := 0;
    while i < |symbols|
      invariant 0 <= i <= |symbols|
      invariant s == Chars(alphabet, symbols)[..i]
    {
      s := s + [alphabet(symbols[i])];
      i := i + 1;
    }
  }

  // ---------------------------------------------------------------------------------------
  // Encoding and decoding
  // ---------------------------------------------------------------------------------------

  function EncodedText(code: Code, hrp: string, data: seq<Sym>): string {
    hrp + "1" + Chars(code.alphabet, data + code.sum(hrp, data))
  }

  /** strings.LastIndexByte(s, '1'). */
  function LastSeparator(s: string): (p: int)
    ensures -1 <= p < |s|
    ensures p >= 0 ==> s[p] == '1'
    ensures forall i :: p < i < |s| ==> s[i] != '1'
  {
    if s == [] then -1
    else if s[|s| - 1] == '1' then |s| - 1
    else LastSeparator(s[..|s| - 1])
  }

  function DecodedText(code: Code, text: string): Decoding {
    if SingleCase(text) then DecodedLower(code, Lower(text)) else Err(MixedCase)
  }

  function DecodedLower(code: Code, s: string): Decoding {
    var pos := LastSeparator(s);
    if pos < 1 || pos + 7 > |s| then Err(BadSeparator)
    else DecodedSymbols(code, s[..pos], Symbols(code.alphabet, s[pos + 1..]))
  }

  function DecodedSymbols(code: Code, hrp: string, symbols: Option<seq<Sym>>): Decoding
    requires symbols.Some? ==> |symbols.value| >= 6
  {
    if symbols.None? then Err(BadCharacter)
    else if !code.ok(hrp, symbols.value) then Err(BadChecksum)
    else Ok((hrp, symbols.value[..|symbols.value| - 6]))
  }

  /** Where the parts of a text with separator lie. */
  lemma TextShape(alphabet: Sym -> char, hrp: string, symbols: seq<Sym>)
    requires ValidAlphabet(alphabet)
    ensures var s := hrp + "1" + Chars(alphabet, symbols);
            && LastSeparator(s) == |hrp| && s[..|hrp|] == hrp
            && s[|hrp| + 1..] == Chars(alphabet, symbols)
            && Symbols(alphabet, s[|hrp| + 1..]) == Some(symbols)
            && (HasUpper(s) <==> HasUpper(hrp))
  {
    var cs := Chars(alphabet, symbols);
    var s := hrp + "1" + cs;
    CharsShape(alphabet, symbols);
    SymbolsOfChars(alphabet, symbols);
    assert s[|hrp|] == '1';
    assert s[|hrp| + 1..] == cs;
    forall i | |hrp| < i < |s|
      ensures s[i] != '1' && !IsUpper(s[i])
    {
      assert s[i] == cs[i - |hrp| - 1];
    }
    if HasUpper(hrp) {
      var i :| 0 <= i < |hrp| && IsUpper(hrp[i]);
      assert IsUpper(s[i]);
    }
  }

  lemma DecodedHrpIsLower(code: Code, text: string)
    requires DecodedText(code, text).Ok?
    ensures !HasUpper(DecodedText(code, text).value.0) && DecodedText(code, text).value.0 != ""
  {
    LowerHasNoUpper(text);
  }

  /** What the decoder makes of a lower-case text with a separator. */
  lemma DecodedOfText(code: Code, hrp: string, symbols: seq<Sym>)
    requires ValidAlphabet(code.alphabet)
    requires hrp != "" && !HasUpper(hrp) && |symbols| >= 6
    ensures DecodedText(code, hrp + "1" + Chars(code.alphabet, symbols)) == DecodedSymbols(code, hrp, Some(symbols))
  {
    TextShape(code.alphabet, hrp, symbols);
    LowerIsIdentity(hrp + "1" + Chars(code.alphabet, symbols));
  }

  lemma DecodeOfEncode(code: Code, hrp: string, data: seq<Sym>)
    requires Valid(code)
    ensures DecodedText(code, EncodedText(code, hrp, data)) == Ok((hrp, data)) <==> hrp != "" && !HasUpper(hrp)
  {
    var s := EncodedText(code, hrp, data);
    if hrp != "" && !HasUpper(hrp) {
      var symbols := data + code.sum(hrp, data);
      DecodedOfText(code, hrp, symbols);
      assert code.ok(hrp, symbols);
      assert symbols[..|symbols| - 6] == data;
    } else if DecodedText(code, s) == Ok((hrp, data)) {
      DecodedHrpIsLower(code, s);
    }
  }

  lemma SumIsUnique(code: Code, hrp: string, data: seq<Sym>, cs: seq<Sym>)
    requires UniqueSum(code) && |cs| == 6
    ensures code.ok(hrp, data + cs) <==> cs == code.sum(hrp, data)
  {
  }

  lemma SymbolsInvert(code: Code, hrp: string, symbols: seq<Sym>)
    requires UniqueSum(code) && |symbols| >= 6 && DecodedSymbols(code, hrp, Some(symbols)).Ok?
    ensures var data := symbols[..|symbols| - 6];
            data + code.sum(hrp, data) == symbols
  {
    var n := |symbols| - 6;
    assert symbols == symbols[..n] + symbols[n..];
    SumIsUnique(code, hrp, symbols[..n], symbols[n..]);
  }

  lemma EncodeOfDecode(code: Code, text: string)
    requires Valid(code) && DecodedText(code, text).Ok?
    ensures var (hrp, data) := DecodedText(code, text).value;
            EncodedText(code, hrp, data) == Lower(text)
  {
    var s := Lower(text);
    var pos := LastSeparator(s);
    SymbolsInvert(code, s[..pos], Symbols(code.alphabet, s[pos + 1..]).value);
    CharsOfSymbols(code.alphabet, s[pos + 1..]);
    assert s == s[..pos] + "1" + s[pos + 1..];
  }

  ghost predicate IsEncoding(code: Code, s: string) {
    exists hrp, data :: hrp != "" && !HasUpper(hrp) && s == EncodedText(code, hrp, data)
  }

  lemma AcceptedExactly(code: Code, text: string)
    requires Valid(code)
    ensures DecodedText(code, text).Ok? <==> SingleCase(text) && IsEncoding(code, Lower(text))
  {
    if DecodedText(code, text).Ok? {
      EncodeOfDecode(code, text);
      DecodedHrpIsLower(code, text);
    }
    if SingleCase(text) && IsEncoding(code, Lower(text)) {
      var hrp, data :| hrp != "" && !HasUpper(hrp) && Lower(text) == EncodedText(code, hrp, data);
      DecodeOfEncode(code, hrp, data);
      LowerHasNoUpper(text);
      LowerIsIdentity(Lower(text));
    }
  }
}
