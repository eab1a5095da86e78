/** The 32 characters of Bech32 data, in the order of the symbols they stand for. */
module Bech32Charset {
  import opened Bech32Text

  function CharOf(v: Sym): char {
    if v == 0 then 'q' else if v == 1 then 'p' else if v == 2 then 'z' else if v == 3 then 'r'
    else if v == 4 then 'y' else if v == 5 then '9' else if v == 6 then 'x' else if v == 7 then '8'
    else if v == 8 then 'g' else if v == 9 then 'f' else if v == 10 then '2' else if v == 11 then 't'
    else if v == 12 then 'v' else if v == 13 then 'd' else if v == 14 then 'w' else if v == 15 then '0'
    else if v == 16 then 's' else if v == 17 then '3' else if v == 18 then 'j' else if v == 19 then 'n'
    else if v == 20 then '5' else if v == 21 then '4' else if v == 22 then 'k' else if v == 23 then 'h'
    else if v == 24 then 'c' else if v == 25 then 'e' else if v == 26 then '6' else if v == 27 then 'm'
    else if v == 28 then 'u' else if v == 29 then 'a' else if v == 30 then '7'
    else 'l'
  }

  /** The symbol of a character, as a table. */
  function Place(c: char): int {
    if c == 'q' then 0 else if c == 'p' then 1 else if c == 'z' then 2 else if c == 'r' then 3
    else if c == 'y' then 4 else if c == '9' then 5 else if c == 'x' then 6 else if c == '8' then 7
    else if c == 'g' then 8 else if c == 'f' then 9 else if c == '2' then 10 else if c == 't' then 11
    else if c == 'v' then 12 else if c == 'd' then 13 else if c == 'w' then 14 else if c == '0' then 15
    else if c == 's' then 16 else if c == '3' then 17 else if c == 'j' then 18 else if c == 'n' then 19
    else if c == '5' then 20 else if c == '4' then 21 else if c == 'k' then 22 else if c == 'h' then 23
    else if c == 'c' then 24 else if c == 'e' then 25 else if c == '6' then 26 else if c == 'm' then 27
    else if c == 'u' then 28 else if c == 'a' then 29 else if c == '7' then 30 else if c == 'l' then 31
    else -1
  }

  lemma PlaceOfChar(v: Sym)
    ensures Place(CharOf(v)) == v
    ensures !IsUpper(CharOf(v)) && CharOf(v) != '1'
  {
  }

  /** Characters are distinct, and none of them is upper-case or the separator. */
  lemma CharsetIsAlphabet()
    ensures ValidAlphabet(CharOf)
  {
    forall u: Sym, v: Sym | u != v
      ensures CharOf(u) != CharOf(v)
    {
      PlaceOfChar(u);
      PlaceOfChar(v);
    }
    forall v: Sym
      ensures !IsUpper(CharOf(v)) && CharOf(v) != '1'
    {
      PlaceOfChar(v);
    }
  }
}
