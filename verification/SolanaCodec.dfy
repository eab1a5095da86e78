/**
 * The compact-u16 integer of the Solana wire format and a small algebra of codecs (solanatx.go).
 * A codec is lossless when reading undoes writing and a successful read consumed exactly what
 * writing its result gives: no second spelling of any value is accepted.
 */
module SolanaCodec {
  import opened Arith
  import opened Bytes

  datatype WireError =
    | UnexpectedEof | NonCanonical | Overflow
    | TooMany | BadHeader | IndexOutOfRange
    | UnsupportedVersion | NotVersioned

  datatype Read<+T> = Bad(error: WireError) | Got(value: T, rest: seq<byte>)

  datatype Codec<!T> = Codec(write: T -> seq<byte>, read: seq<byte> -> Read<T>, ok: T -> bool)

  /** Reading gives back every value the codec is for, and leaves what follows alone. */
  ghost predicate Inverts<T(!new)>(c: Codec<T>) {
    forall v: T, rest: seq<byte> {:trigger c.read(c.write(v) + rest)} ::
      c.ok(v) ==> c.read(c.write(v) + rest) == Got(v, rest)
  }

  /** Whatever is read was spelled the one way the codec writes it. */
  ghost predicate Canonical<T(!new)>(c: Codec<T>) {
    forall s: seq<byte> :: c.read(s).Got? ==> c.ok(c.read(s).value) && s == c.write(c.read(s).value) + c.read(s).rest
  }

  ghost predicate Lossless<T(!new)>(c: Codec<T>) {
    Inverts(c) && Canonical(c)
  }

  // ---------------------------------------------------------------------------------------
  // compact-u16
  // ---------------------------------------------------------------------------------------

  const MAX_COMPACT := 0xffff

  function EncodeCompact(v: nat): (s: seq<byte>)
    requires v <= MAX_COMPACT
    ensures 1 <= |s| <= 3
  {
    if v < 0x80 then [v]
    else if v < 0x4000 then [v % 0x80 + 0x80, v / 0x80]
    else [v % 0x80 + 0x80, v / 0x80 % 0x80 + 0x80, v / 0x4000]
  }

  function DecodeCompact(s: seq<byte>): Read<nat> {
    if |s| == 0 then Bad(UnexpectedEof)
    else if s[0] < 0x80 then Got(s[0], s[1..])
    else if |s| < 2 then Bad(UnexpectedEof)
    else if s[1] < 0x80 then
      if s[1] == 0 then Bad(NonCanonical) else Got(s[0] as nat % 0x80 + 0x80 * (s[1] as nat), s[2..])
    else if |s| < 3 then Bad(UnexpectedEof)
    else if s[2] > 3 then Bad(Overflow)
    else if s[2] == 0 then Bad(NonCanonical)
    else Got(s[0] as nat % 0x80 + 0x80 * (s[1] as nat % 0x80) + 0x4000 * (s[2] as nat), s[3..])
  }

  lemma DecodeOfEncode(v: nat, rest: seq<byte>)
    requires v <= MAX_COMPACT
    ensures DecodeCompact(EncodeCompact(v) + rest) == Got(v, rest)
  {
    var s := EncodeCompact(v) + rest;
    assert s[|EncodeCompact(v)|..] == rest;
  }

  lemma EncodeTwo(a: byte, b: byte)
    requires a >= 0x80 && 0 < b < 0x80
    ensures EncodeCompact(a as nat % 0x80 + 0x80 * (b as nat)) == [a, b]
  {
    DivModUnique(a, 0x80, 1, a - 0x80);
    DivModUnique(a - 0x80 + 0x80 * (b as nat), 0x80, b, a - 0x80);
  }

  lemma EncodeThree(a: byte, b: byte, c: byte)
    requires a >= 0x80 && b >= 0x80 && 0 < c <= 3
    ensures a as nat % 0x80 + 0x80 * (b as nat % 0x80) + 0x4000 * (c as nat) <= MAX_COMPACT
    ensures EncodeCompact(a as nat % 0x80 + 0x80 * (b as nat % 0x80) + 0x4000 * (c as nat)) == [a, b, c]
  {
    var low, mid, high: nat := a - 0x80, b - 0x80, c;
    DivModUnique(a, 0x80, 1, low);
    DivModUnique(b, 0x80, 1, mid);
    ThreeDigits(low, mid, high);
  }

  /** Taking a three-digit number apart in base 0x80. */
  lemma ThreeDigits(low: nat, mid: nat, high: nat)
    requires low < 0x80 && mid < 0x80
    ensures var v := low + 0x80 * mid + 0x4000 * high;
            v % 0x80 == low && v / 0x80 % 0x80 == mid && v / 0x4000 == high
  {
    var v := low + 0x80 * mid + 0x4000 * high;
    DivModUnique(v, 0x80, mid + 0x80 * high, low);
    DivModUnique(mid + 0x80 * high, 0x80, high, mid);
    DivModUnique(v, 0x4000, high, low + 0x80 * mid);
  }

  lemma EncodeOfDecode(s: seq<byte>)
    requires DecodeCompact(s).Got?
    ensures DecodeCompact(s).value <= MAX_COMPACT
    ensures s == EncodeCompact(DecodeCompact(s).value) + DecodeCompact(s).rest
  {
    if s[0] < 0x80 {
      assert s == [s[0]] + s[1..];
    } else if s[1] < 0x80 {
      EncodeTwo(s[0], s[1]);
      assert s == [s[0], s[1]] + s[2..];
    } else {
      EncodeThree(s[0], s[1], s[2]);
      assert s == [s[0], s[1], s[2]] + s[3..];
    }
  }

  // ---------------------------------------------------------------------------------------
  // Fixed and counted byte strings
  // ---------------------------------------------------------------------------------------

  function Take(s: seq<byte>, n: nat): Read<seq<byte>> {
    if |s| < n then Bad(UnexpectedEof) else Got(s[..n], s[n..])
  }

  function Fixed(n: nat): Codec<seq<byte>> {
    Codec(b => b, s => Take(s, n), b => |b| == n)
  }

  lemma FixedLossless(n: nat)
    ensures Lossless(Fixed(n))
  {
    var c := Fixed(n);
    forall b: seq<byte>, rest: seq<byte> | c.ok(b)
      ensures c.read(c.write(b) + rest) == Got(b, rest)
    {
      assert (b + rest)[..n] == b && (b + rest)[n..] == rest;
    }
    assert Canonical(c);
  }

  function WriteCounted(b: seq<byte>): seq<byte> {
    if |b| <= MAX_COMPACT then EncodeCompact(|b|) + b else []
  }

  function ReadCounted(s: seq<byte>): Read<seq<byte>> {
    match DecodeCompact(s)
    case Bad(e) => Bad(e)
    case Got(n, r) => Take(r, n)
  }

  /** A compact length and that many bytes. */
  function Counted(): Codec<seq<byte>> {
    Codec(WriteCounted, ReadCounted, b => |b| <= MAX_COMPACT)
  }

  lemma CountedInverts(b: seq<byte>, rest: seq<byte>)
    requires |b| <= MAX_COMPACT
    ensures ReadCounted(WriteCounted(b) + rest) == Got(b, rest)
  {
    var n := EncodeCompact(|b|);
    assert n + b + rest == n + (b + rest);
    DecodeOfEncode(|b|, b + rest);
    assert (b + rest)[..|b|] == b && (b + rest)[|b|..] == rest;
  }

  lemma CountedCanonical(s: seq<byte>)
    requires ReadCounted(s).Got?
    ensures |ReadCounted(s).value| <= MAX_COMPACT
    ensures s == WriteCounted(ReadCounted(s).value) + ReadCounted(s).rest
  {
    EncodeOfDecode(s);
    var Got(n, r) := DecodeCompact(s);
    assert r == r[..n] + r[n..];
    assert EncodeCompact(n) + (r[..n] + r[n..]) == EncodeCompact(n) + r[..n] + r[n..];
  }

  lemma CountedLossless()
    ensures Lossless(Counted())
  {
    var c := Counted();
    forall b: seq<byte>, rest: seq<byte> | c.ok(b)
      ensures c.read(c.write(b) + rest) == Got(b, rest)
    {
      CountedInverts(b, rest);
    }
    forall s: seq<byte> | c.read(s).Got?
      ensures c.ok(c.read(s).value) && s == c.write(c.read(s).value) + c.read(s).rest
    {
      CountedCanonical(s);
    }
  }

  // ---------------------------------------------------------------------------------------
  // Sequencing, validation, renaming
  // ---------------------------------------------------------------------------------------

  function ReadThen<A, B>(a: Codec<A>, b: A -> Codec<B>, s: seq<byte>): Read<(A, B)> {
    match a.read(s)
    case Bad(e) => Bad(e)
    case Got(x, r) =>
      match b(x).read(r)
      case Bad(e) => Bad(e)
      case Got(y, r') => Got((x, y), r')
  }

  /** First a, then a codec that may depend on what a read. */
  function Then<A, B>(a: Codec<A>, b: A -> Codec<B>): Codec<(A, B)> {
    Codec((v: (A, B)) => a.write(v.0) + b(v.0).write(v.1),
          s => ReadThen(a, b, s),
          (v: (A, B)) => a.ok(v.0) && b(v.0).ok(v.1))
  }

  lemma ThenLossless<A(!new), B(!new)>(a: Codec<A>, b: A -> Codec<B>)
    requires Lossless(a) && forall x: A :: a.ok(x) ==> Lossless(b(x))
    ensures Lossless(Then(a, b))
  {
    var c := Then(a, b);
    forall v: (A, B), rest: seq<byte> | c.ok(v)
      ensures c.read(c.write(v) + rest) == Got(v, rest)
    {
      var wb := b(v.0).write(v.1);
      assert a.write(v.0) + wb + rest == a.write(v.0) + (wb + rest);
      assert a.read(a.write(v.0) + (wb + rest)) == Got(v.0, wb + rest);
      assert Lossless(b(v.0));
      assert b(v.0).read(wb + rest) == Got(v.1, rest);
    }
    forall s: seq<byte> | c.read(s).Got?
      ensures c.ok(c.read(s).value) && s == c.write(c.read(s).value) + c.read(s).rest
    {
      var Got(x, r) := a.read(s);
      var Got(y, r') := b(x).read(r);
      assert a.ok(x) && s == a.write(x) + r;
      assert Lossless(b(x));
      assert r == b(x).write(y) + r';
      assert s == a.write(x) + b(x).write(y) + r';
    }
  }

  function ReadChecked<T>(c: Codec<T>, valid: T -> bool, e: WireError, s: seq<byte>): Read<T> {
    match c.read(s)
    case Bad(e') => Bad(e')
    case Got(v, r) => if valid(v) then Got(v, r) else Bad(e)
  }

  function Checked<T>(c: Codec<T>, valid: T -> bool, e: WireError): Codec<T> {
    Codec(c.write, s => ReadChecked(c, valid, e, s), v => c.ok(v) && valid(v))
  }

  lemma CheckedLossless<T(!new)>(c: Codec<T>, valid: T -> bool, e: WireError)
    requires Lossless(c)
    ensures Lossless(Checked(c, valid, e))
  {
    var d := Checked(c, valid, e);
    forall v: T, rest: seq<byte> | d.ok(v)
      ensures d.read(d.write(v) + rest) == Got(v, rest)
    {
      assert c.read(c.write(v) + rest) == Got(v, rest);
    }
    forall s: seq<byte> | d.read(s).Got?
      ensures d.ok(d.read(s).value) && s == d.write(d.read(s).value) + d.read(s).rest
    {
      assert c.read(s).Got?;
    }
  }

  function ReadMapped<A, B>(c: Codec<A>, to: A -> B, s: seq<byte>): Read<B> {
    match c.read(s)
    case Bad(e) => Bad(e)
    case Got(v, r) => Got(to(v), r)
  }

  /** The same bytes under another type. */
  function Mapped<A, B>(c: Codec<A>, to: A -> B, from: B -> A): Codec<B> {
    Codec(v => c.write(from(v)), s => ReadMapped(c, to, s), v => c.ok(from(v)))
  }

  lemma MappedLossless<A(!new), B(!new)>(c: Codec<A>, to: A -> B, from: B -> A)
    requires Lossless(c)
    requires (forall a: A :: from(to(a)) == a) && (forall b: B :: to(from(b)) == b)
    ensures Lossless(Mapped(c, to, from))
  {
    var d := Mapped(c, to, from);
    forall v: B, rest: seq<byte> | d.ok(v)
      ensures d.read(d.write(v) + rest) == Got(v, rest)
    {
      assert c.read(c.write(from(v)) + rest) == Got(from(v), rest);
    }
    forall s: seq<byte> | d.read(s).Got?
      ensures d.ok(d.read(s).value) && s == d.write(d.read(s).value) + d.read(s).rest
    {
      assert c.read(s).Got?;
    }
  }

  // ---------------------------------------------------------------------------------------
  // Lists
  // ---------------------------------------------------------------------------------------

  function WriteAll<T>(c: Codec<T>, xs: seq<T>): seq<byte> {
    if xs == [] then [] else c.write(xs[0]) + WriteAll(c, xs[1..])
  }

  function Cons<T>(x: T, r: Read<seq<T>>): Read<seq<T>> {
    match r
    case Bad(e) => Bad(e)
    case Got(xs, rest) => Got([x] + xs, rest)
  }

  function ReadAll<T>(c: Codec<T>, n: nat, s: seq<byte>): Read<seq<T>>
    decreases n
  {
    if n == 0 then Got([], s)
    else
      match c.read(s)
      case Bad(e) => Bad(e)
      case Got(x, r) => Cons(x, ReadAll(c, n - 1, r))
  }

  ghost predicate AllOk<T>(c: Codec<T>, xs: seq<T>) {
    forall i :: 0 <= i < |xs| ==> c.ok(xs[i])
  }

  lemma {:induction false} ReadAllOf<T(!new)>(c: Codec<T>, xs: seq<T>, rest: seq<byte>)
    requires Inverts(c) && AllOk(c, xs)
    ensures ReadAll(c, |xs|, WriteAll(c, xs) + rest) == Got(xs, rest)
    decreases |xs|
  {
    if xs == [] {
      assert WriteAll(c, xs) + rest == rest;
    } else {
      var tail := WriteAll(c, xs[1..]) + rest;
      assert WriteAll(c, xs) + rest == c.write(xs[0]) + tail;
      assert c.read(c.write(xs[0]) + tail) == Got(xs[0], tail);
      ReadAllOf(c, xs[1..], rest);
      assert xs == [xs[0]] + xs[1..];
    }
  }

  lemma {:induction false} ReadAllCanonical<T(!new)>(c: Codec<T>, n: nat, s: seq<byte>)
    requires Canonical(c) && ReadAll(c, n, s).Got?
    ensures var Got(xs, rest) := ReadAll(c, n, s); |xs| == n && AllOk(c, xs) && s == WriteAll(c, xs) + rest
    decreases n
  {
    if n == 0 {
      assert s == [] + s;
    } else {
      var Got(x, r) := c.read(s);
      ReadAllCanonical(c, n - 1, r);
      var Got(xs, rest) := ReadAll(c, n - 1, r);
      assert ([x] + xs)[1..] == xs;
      assert s == c.write(x) + WriteAll(c, xs) + rest;
    }
  }

  /** What bounds a count before anything is allocated: a fixed maximum, or the bytes left. */
  datatype Cap = AtMost(n: nat) | BytesLeft

  predicate Allowed(cap: Cap, n: nat, left: seq<byte>) {
    match cap
    case AtMost(m) => n <= m
    case BytesLeft => n <= |left|
  }

  function WriteList<T>(c: Codec<T>, xs: seq<T>): seq<byte> {
    if |xs| <= MAX_COMPACT then EncodeCompact(|xs|) + WriteAll(c, xs) else []
  }

  function ReadList<T>(c: Codec<T>, cap: Cap, s: seq<byte>): Read<seq<T>> {
    match DecodeCompact(s)
    case Bad(e) => Bad(e)
    case Got(n, r) => if Allowed(cap, n, r) then ReadAll(c, n, r) else Bad(TooMany)
  }

  predicate ListOk<T>(c: Codec<T>, cap: Cap, xs: seq<T>) {
    && |xs| <= MAX_COMPACT && (cap.AtMost? ==> |xs| <= cap.n)
    && forall i :: 0 <= i < |xs| ==> c.ok(xs[i])
  }

  /** A compact count and that many items. */
  function List<T>(c: Codec<T>, cap: Cap): Codec<seq<T>> {
    Codec(xs => WriteList(c, xs), s => ReadList(c, cap, s), xs => ListOk(c, cap, xs))
  }

  /** Every acceptable item takes at least one byte, so the bytes left bound the count. */
  ghost predicate NeverEmpty<T(!new)>(c: Codec<T>) {
    forall v: T :: c.ok(v) ==> |c.write(v)| >= 1
  }

  lemma {:induction false} ItemsTakeBytes<T(!new)>(c: Codec<T>, xs: seq<T>)
    requires NeverEmpty(c) && AllOk(c, xs)
    ensures |WriteAll(c, xs)| >= |xs|
    decreases |xs|
  {
    if xs != [] {
      assert c.ok(xs[0]);
      ItemsTakeBytes(c, xs[1..]);
    }
  }

  lemma ListInverts<T(!new)>(c: Codec<T>, cap: Cap, xs: seq<T>, rest: seq<byte>)
    requires Lossless(c) && (cap.BytesLeft? ==> NeverEmpty(c)) && ListOk(c, cap, xs)
    ensures ReadList(c, cap, WriteList(c, xs) + rest) == Got(xs, rest)
  {
    var body := WriteAll(c, xs) + rest;
    assert WriteList(c, xs) + rest == EncodeCompact(|xs|) + body;
    DecodeOfEncode(|xs|, body);
    if cap.BytesLeft? {
      ItemsTakeBytes(c, xs);
    }
    ReadAllOf(c, xs, rest);
  }

  lemma ListCanonical<T(!new)>(c: Codec<T>, cap: Cap, s: seq<byte>)
    requires Lossless(c) && ReadList(c, cap, s).Got?
    ensures ListOk(c, cap, ReadList(c, cap, s).value)
    ensures s == WriteList(c, ReadList(c, cap, s).value) + ReadList(c, cap, s).rest
  {
    EncodeOfDecode(s);
    var Got(n, r) := DecodeCompact(s);
    ReadAllCanonical(c, n, r);
    var Got(xs, rest) := ReadAll(c, n, r);
    assert s == EncodeCompact(n) + WriteAll(c, xs) + rest;
  }

  lemma ListLossless<T(!new)>(c: Codec<T>, cap: Cap)
    requires Lossless(c) && (cap.BytesLeft? ==> NeverEmpty(c))
    ensures Lossless(List(c, cap))
  {
    var d := List(c, cap);
    forall xs: seq<T>, rest: seq<byte> | d.ok(xs)
      ensures d.read(d.write(xs) + rest) == Got(xs, rest)
    {
      ListInverts(c, cap, xs, rest);
    }
    forall s: seq<byte> | d.read(s).Got?
      ensures d.ok(d.read(s).value) && s == d.write(d.read(s).value) + d.read(s).rest
    {
      ListCanonical(c, cap, s);
    }
  }

  // ---------------------------------------------------------------------------------------
  // Versions
  // ---------------------------------------------------------------------------------------

  /** The prefix byte: the top bit marks a versioned message, the rest is the version. */
  function ReadPrefixed<T>(c: Codec<T>, s: seq<byte>): Read<T> {
    if |s| < 1 then Bad(UnexpectedEof)
    else if s[0] < 0x80 then Bad(NotVersioned)
    else if s[0] % 0x80 != 0 then Bad(UnsupportedVersion)
    else c.read(s[1..])
  }

  function Prefixed<T>(c: Codec<T>): Codec<T> {
    Codec(v => [0x80] + c.write(v), s => ReadPrefixed(c, s), c.ok)
  }

  lemma PrefixedLossless<T(!new)>(c: Codec<T>)
    requires Lossless(c)
    ensures Lossless(Prefixed(c))
  {
    var d := Prefixed(c);
    forall v: T, rest: seq<byte> | d.ok(v)
      ensures d.read(d.write(v) + rest) == Got(v, rest)
    {
      assert ([0x80] + c.write(v) + rest)[1..] == c.write(v) + rest;
      assert c.read(c.write(v) + rest) == Got(v, rest);
    }
    forall s: seq<byte> | d.read(s).Got?
      ensures d.ok(d.read(s).value) && s == d.write(d.read(s).value) + d.read(s).rest
    {
      assert c.read(s[1..]).Got?;
      assert s == [0x80] + s[1..];
      assert s == [0x80] + c.write(c.read(s[1..]).value) + c.read(s[1..]).rest;
    }
  }

  datatype Either<+A, +B> = Left(l: A) | Right(r: B)

  function WriteEither<A, B>(a: Codec<A>, b: Codec<B>, v: Either<A, B>): seq<byte> {
    match v
    case Left(x) => a.write(x)
    case Right(y) => b.write(y)
  }

  /** The first byte decides: with its top bit set the message is versioned. */
  function ReadEither<A, B>(a: Codec<A>, b: Codec<B>, s: seq<byte>): Read<Either<A, B>> {
    if |s| > 0 && s[0] >= 0x80 then
      if s[0] % 0x80 != 0 then Bad(UnsupportedVersion)
      else
        match b.read(s)
        case Bad(e) => Bad(e)
        case Got(y, r) => Got(Right(y), r)
    else
      match a.read(s)
      case Bad(e) => Bad(e)
      case Got(x, r) => Got(Left(x), r)
  }

  predicate EitherOk<A, B>(a: Codec<A>, b: Codec<B>, v: Either<A, B>) {
    match v
    case Left(x) => a.ok(x) && |a.write(x)| > 0 && a.write(x)[0] < 0x80
    case Right(y) => b.ok(y) && |b.write(y)| > 0 && b.write(y)[0] == 0x80
  }

  function EitherCodec<A, B>(a: Codec<A>, b: Codec<B>): Codec<Either<A, B>> {
    Codec((v: Either<A, B>) => WriteEither(a, b, v), s => ReadEither(a, b, s), (v: Either<A, B>) => EitherOk(a, b, v))
  }

  lemma EitherInverts<A(!new), B(!new)>(a: Codec<A>, b: Codec<B>, v: Either<A, B>, rest: seq<byte>)
    requires Lossless(a) && Lossless(b) && EitherOk(a, b, v)
    ensures ReadEither(a, b, WriteEither(a, b, v) + rest) == Got(v, rest)
  {
    match v
    case Left(x) => assert a.read(a.write(x) + rest) == Got(x, rest);
    case Right(y) => assert b.read(b.write(y) + rest) == Got(y, rest);
  }

  lemma EitherCanonical<A(!new), B(!new)>(a: Codec<A>, b: Codec<B>, s: seq<byte>)
    requires Lossless(a) && Lossless(b) && NeverEmpty(a) && NeverEmpty(b) && ReadEither(a, b, s).Got?
    ensures EitherOk(a, b, ReadEither(a, b, s).value)
    ensures s == WriteEither(a, b, ReadEither(a, b, s).value) + ReadEither(a, b, s).rest
  {
    if |s| > 0 && s[0] >= 0x80 {
      assert b.read(s).Got?;
      assert b.ok(b.read(s).value);
      assert s[0] == b.write(b.read(s).value)[0];
    } else {
      assert a.read(s).Got?;
      assert a.ok(a.read(s).value);
      assert s[0] == a.write(a.read(s).value)[0];
    }
  }

  lemma EitherLossless<A(!new), B(!new)>(a: Codec<A>, b: Codec<B>)
    requires Lossless(a) && Lossless(b) && NeverEmpty(a) && NeverEmpty(b)
    ensures Lossless(EitherCodec(a, b))
  {
    var d := EitherCodec(a, b);
    forall v: Either<A, B>, rest: seq<byte> | d.ok(v)
      ensures d.read(d.write(v) + rest) == Got(v, rest)
    {
      EitherInverts(a, b, v, rest);
    }
    forall s: seq<byte> | d.read(s).Got?
      ensures d.ok(d.read(s).value) && s == d.write(d.read(s).value) + d.read(s).rest
    {
      EitherCanonical(a, b, s);
    }
  }

  lemma EitherDiffers<A, B>(a: Codec<A>, b: Codec<B>, x: A, y: B)
    requires |a.write(x)| > 0 && a.write(x)[0] < 0x80
    ensures WriteEither(a, Prefixed(b), Left(x)) != WriteEither(a, Prefixed(b), Right(y))
  {
  }

  /** For a lossless codec, reading back what was written works exactly for the values it accepts. */
  lemma ReadsBackExactly<T(!new)>(c: Codec<T>, v: T, rest: seq<byte>)
    requires Lossless(c)
    ensures c.read(c.write(v) + rest) == Got(v, rest) <==> c.ok(v)
  {
    var s := c.write(v) + rest;
    if c.read(s) == Got(v, rest) {
      assert c.ok(c.read(s).value);
    }
  }
}
