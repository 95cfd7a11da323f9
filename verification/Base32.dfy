/** Base32 and the TOTP number format (src/server/twoFactorAuth.js).

    The loops keep a bit accumulator that is never masked and wraps at 32 bits; it is held here
    as the unsigned value of that 32-bit word. The specification says which bit of the input
    stands at which place of the output: section 6 of RFC 4648 without padding characters. */
module Base32 {
  type Byte = b: int | 0 <= b < 256
  type Quintet = q: int | 0 <= q < 32

  const ALPHABET: string := "ABCDEFGHIJKLMNOPQRSTUVWXYZ234567"

  // ---------------------------------------------------------------- bits of a number

  /** `x << n` before the word wraps. */
  function Shl(x: nat, n: nat): nat
    decreases n, x
  {
    if n == 0 then x else 2 * Shl(x, n - 1)
  }

  /** `x >>> n` on an unsigned word. */
  function Shr(x: nat, n: nat): nat
    decreases n, x
  {
    if n == 0 then x else Shr(x / 2, n - 1)
  }

  /** The low `n` bits as a number: `x & (2**n - 1)`. */
  function Low(x: nat, n: nat): nat
    decreases n, x
  {
    if n == 0 then 0 else 2 * Low(x / 2, n - 1) + x % 2
  }

  /** `x | y`. */
  function Or(x: nat, y: nat): nat
    decreases x + y
  {
    if x == 0 && y == 0 then 0 else 2 * Or(x / 2, y / 2) + if x % 2 == 1 || y % 2 == 1 then 1 else 0
  }

  /** What a 32-bit word keeps of a number. */
  function Wrap(x: nat): nat {
    Low(x, 32)
  }

  predicate Bit(x: nat, j: nat) {
    Shr(x, j) % 2 == 1
  }

  /** `x` has no bit at or above position `n`. */
  predicate Fits(x: nat, n: nat)
    decreases n, x
  {
    if n == 0 then x == 0 else Fits(x / 2, n - 1)
  }

  lemma {:induction false} BitOfShr(x: nat, a: nat, t: nat)
    ensures Bit(Shr(x, a), t) == Bit(x, a + t)
    decreases a
  {
    if a > 0 { BitOfShr(x / 2, a - 1, t); }
  }

  lemma {:induction false} BitOfLow(x: nat, n: nat, t: nat)
    requires t < n
    ensures Bit(Low(x, n), t) == Bit(x, t)
    decreases n
  {
    var l := Low(x / 2, n - 1);
    assert (2 * l + x % 2) / 2 == l && (2 * l + x % 2) % 2 == x % 2;
    if t > 0 { BitOfLow(x / 2, n - 1, t - 1); }
  }

  lemma {:induction false} LowFits(x: nat, n: nat)
    ensures Fits(Low(x, n), n)
    decreases n
  {
    if n > 0 {
      var l := Low(x / 2, n - 1);
      assert (2 * l + x % 2) / 2 == l;
      LowFits(x / 2, n - 1);
    }
  }

  lemma {:induction false} BitOfShiftIn(x: nat, y: nat, k: nat, q: nat)
    requires Fits(y, k)
    ensures Bit(Shl(x, k) + y, q) == if q < k then Bit(y, q) else Bit(x, q - k)
    decreases k
  {
    if k > 0 {
      var half := Shl(x, k - 1);
      assert (2 * half + y) / 2 == half + y / 2 && (2 * half + y) % 2 == y % 2;
      if q > 0 { BitOfShiftIn(x, y / 2, k - 1, q - 1); }
    }
  }

  /** On bits that the shift has freed, `|` adds. */
  lemma {:induction false} OrIntoShifted(x: nat, y: nat, w: nat)
    requires Fits(y, w)
    ensures Or(Shl(x, w), y) == Shl(x, w) + y
    decreases w
  {
    if w == 0 {
      OrZero(x);
    } else {
      var half := Shl(x, w - 1);
      assert Shl(x, w) / 2 == half && Shl(x, w) % 2 == 0;
      OrIntoShifted(x, y / 2, w - 1);
    }
  }

  lemma {:induction false} OrZero(x: nat)
    ensures Or(x, 0) == x
  {
    if x > 0 { OrZero(x / 2); }
  }

  lemma {:induction false} FitsHalves(x: nat, y: nat, n: nat)
    requires x == y / 4
    ensures Fits(y, n + 2) == Fits(x, n)
  {
    assert y / 2 / 2 == x;
    assert Fits(y, n + 2) == Fits(y / 2, n + 1);
  }

  lemma SmallFits(x: nat)
    ensures x < 32 <==> Fits(x, 5)
    ensures x < 256 <==> Fits(x, 8)
  {
    FitsHalves(x / 4, x, 3);
    FitsHalves(x / 16, x / 4, 1);
    assert Fits(x / 16, 1) == Fits(x / 16 / 2, 0);
    FitsHalves(x / 4, x, 6);
    FitsHalves(x / 16, x / 4, 4);
    FitsHalves(x / 64, x / 16, 2);
    FitsHalves(x / 256, x / 64, 0);
  }

  lemma {:induction false} SameBitsSameNumber(x: nat, y: nat, n: nat)
    requires Fits(x, n) && Fits(y, n) && forall t :: 0 <= t < n ==> Bit(x, t) == Bit(y, t)
    ensures x == y
    decreases n
  {
    if n > 0 {
      assert Bit(x, 0) == Bit(y, 0);
      forall t | 0 <= t < n - 1
        ensures Bit(x / 2, t) == Bit(y / 2, t)
      {
        assert Bit(x, t + 1) == Bit(y, t + 1);
      }
      SameBitsSameNumber(x / 2, y / 2, n - 1);
    }
  }

  // ---------------------------------------------------------------- the specification

  function Symbol(q: Quintet): char {
    if q < 26 then (q + 'A' as int) as char else (q - 26 + '2' as int) as char
  }

  lemma SymbolIsFromAlphabet(q: Quintet)
    ensures Symbol(q) == ALPHABET[q]
  {
  }

  predicate IsSymbol(c: char) {
    'A' <= c <= 'Z' || '2' <= c <= '7'
  }

  predicate AllSymbols(s: string) {
    forall i :: 0 <= i < |s| ==> IsSymbol(s[i])
  }

  function IndexOf(c: char): Quintet
    requires IsSymbol(c)
  {
    if c >= 'A' then c as int - 'A' as int else c as int - '2' as int + 26
  }

  /** Bit `p` of a byte string, counted from the first byte's most significant bit. */
  predicate ByteBit(bytes: seq<Byte>, p: nat)
    requires p / 8 < |bytes|
  {
    Bit(bytes[p / 8], 7 - p % 8)
  }

  /** Bit `p` of a symbol string, five bits to a symbol. */
  predicate SymbolBit(s: string, p: nat)
    requires AllSymbols(s) && p / 5 < |s|
  {
    Bit(IndexOf(s[p / 5]), 4 - p % 5)
  }

  /** `s` carries the bits of `bytes` in order, filled up with zero bits to whole symbols. */
  ghost predicate Encodes(bytes: seq<Byte>, s: string) {
    && AllSymbols(s)
    && |s| == (8 * |bytes| + 4) / 5
    && (forall p: nat :: p < 5 * |s| ==> SymbolBit(s, p) == (p < 8 * |bytes| && ByteBit(bytes, p)))
  }

  /** What `c.toUpperCase()` contributes to the alphabet. Besides ASCII letters only the listed
      characters have an upper case that contains an ASCII letter. */
  function UpperSymbols(c: char): string {
    if IsSymbol(c) then [c]
    else if 'a' <= c <= 'z' then [(c as int - 32) as char]
    else if c == '\U{0131}' then "I"
    else if c == '\U{017F}' then "S"
    else if c == '\U{00DF}' then "SS"
    else if c == '\U{0149}' then "N"
    else if c == '\U{01F0}' then "J"
    else if c == '\U{1E96}' then "H"
    else if c == '\U{1E97}' then "T"
    else if c == '\U{1E98}' then "W"
    else if c == '\U{1E99}' then "Y"
    else if c == '\U{1E9A}' then "A"
    else if c == '\U{FB00}' then "FF"
    else if c == '\U{FB01}' then "FI"
    else if c == '\U{FB02}' then "FL"
    else if c == '\U{FB03}' then "FFI"
    else if c == '\U{FB04}' then "FFL"
    else if c == '\U{FB05}' || c == '\U{FB06}' then "ST"
    else ""
  }

  /** Upper-case, then drop everything outside the alphabet. */
  function Cleaned(s: string): (t: string)
    ensures AllSymbols(t)
  {
    if s == "" then "" else UpperSymbols(s[0]) + Cleaned(s[1..])
  }

  /** `bytes` are the whole octets carried by the alphabet symbols of `s`. */
  ghost predicate Decodes(s: string, bytes: seq<Byte>) {
    var t := Cleaned(s);
    && |bytes| == 5 * |t| / 8
    && (forall p: nat :: p < 8 * |bytes| ==> ByteBit(bytes, p) == SymbolBit(t, p))
  }

  // ---------------------------------------------------------------- the loops

  /** `x & 31`. */
  function Five(x: nat): Quintet {
    LowFits(x, 5);
    SmallFits(Low(x, 5));
    Low(x, 5)
  }

  /** `x & 0xff`. */
  function Eight(x: nat): Byte {
    LowFits(x, 8);
    SmallFits(Low(x, 8));
    Low(x, 8)
  }

  /** The `bits` low bits of the accumulator are the last `bits` bits read so far. */
  ghost predicate PendingBytes(value: nat, bits: nat, bytes: seq<Byte>, i: nat)
    requires i <= |bytes| && bits <= 8 * i
  {
    forall q: nat :: q < bits ==> Bit(value, q) == ByteBit(bytes, 8 * i - 1 - q)
  }

  ghost predicate PendingSymbols(value: nat, bits: nat, s: string, i: nat)
    requires AllSymbols(s) && i <= |s| && bits <= 5 * i
  {
    forall q: nat :: q < bits ==> Bit(value, q) == SymbolBit(s, 5 * i - 1 - q)
  }

  /** `(value << w) | x` in a 32-bit word. */
  function Take(value: nat, x: nat, w: nat): nat {
    Wrap(Shl(value, w) + x)
  }

  /** On the `w` bits that the shift has freed, adding is `|`. */
  lemma TakeIsOr(value: nat, x: nat, w: nat)
    requires Fits(x, w)
    ensures Take(value, x, w) == Wrap(Or(Shl(value, w), x))
  {
    OrIntoShifted(value, x, w);
  }

  /** The word may wrap, but never inside its low 32 bits. */
  lemma BitOfTake(value: nat, x: nat, w: nat, q: nat)
    requires Fits(x, w) && q < 32
    ensures Bit(Take(value, x, w), q) == if q < w then Bit(x, q) else Bit(value, q - w)
  {
    BitOfLow(Shl(value, w) + x, 32, q);
    BitOfShiftIn(value, x, w, q);
  }

  lemma TakeByte(value: nat, bits: nat, bytes: seq<Byte>, i: nat, next: nat)
    requires i < |bytes| && bits <= 8 * i && bits + 8 <= 32 && PendingBytes(value, bits, bytes, i)
    requires next == Take(value, bytes[i], 8)
    ensures PendingBytes(next, bits + 8, bytes, i + 1)
  {
    SmallFits(bytes[i]);
    forall q: nat | q < bits + 8
      ensures Bit(next, q) == ByteBit(bytes, 8 * (i + 1) - 1 - q)
    {
      BitOfTake(value, bytes[i], 8, q);
      if q >= 8 { assert Bit(value, q - 8) == ByteBit(bytes, 8 * i - 1 - (q - 8)); }
    }
  }

  lemma TakeSymbol(value: nat, bits: nat, s: string, i: nat, next: nat)
    requires AllSymbols(s) && i < |s| && bits <= 5 * i && bits + 5 <= 32 && PendingSymbols(value, bits, s, i)
    requires next == Take(value, IndexOf(s[i]), 5)
    ensures PendingSymbols(next, bits + 5, s, i + 1)
  {
    SmallFits(IndexOf(s[i]));
    forall q: nat | q < bits + 5
      ensures Bit(next, q) == SymbolBit(s, 5 * (i + 1) - 1 - q)
    {
      BitOfTake(value, IndexOf(s[i]), 5, q);
      if q >= 5 { assert Bit(value, q - 5) == SymbolBit(s, 5 * i - 1 - (q - 5)); }
    }
  }

  lemma {:induction false} ZeroHasNoBits(t: nat)
    ensures !Bit(0, t)
  {
    if t > 0 { ZeroHasNoBits(t - 1); }
  }

  lemma {:induction false} ZeroFits(n: nat)
    ensures Fits(0, n)
  {
    if n > 0 { ZeroFits(n - 1); }
  }

  lemma BitsOfLastFive(value: nat, k: nat)
    requires 0 < k < 5
    ensures forall t: nat :: t < 5 ==> Bit(Five(Take(value, 0, k)), t) == (t >= k && Bit(value, t - k))
  {
    forall t: nat | t < 5
      ensures Bit(Five(Take(value, 0, k)), t) == (t >= k && Bit(value, t - k))
    {
      BitOfLow(Take(value, 0, k), 5, t);
      ZeroFits(k);
      BitOfTake(value, 0, k, t);
      ZeroHasNoBits(t);
    }
  }

  /** The decoder finds every symbol of the alphabet at its own place. */
  lemma SymbolsInvert(q: Quintet)
    ensures Symbol(q) == ALPHABET[q] && IsSymbol(Symbol(q)) && IndexOf(Symbol(q)) == q
  {
    SymbolIsFromAlphabet(q);
  }

  /** The symbols emitted so far carry the first bits of the input. */
  ghost predicate Emitted(s: string, bytes: seq<Byte>) {
    && AllSymbols(s) && 5 * |s| <= 8 * |bytes|
    && (forall p: nat :: p < 5 * |s| ==> SymbolBit(s, p) == ByteBit(bytes, p))
  }

  lemma EmitSymbol(s: string, q: Quintet, bytes: seq<Byte>)
    requires Emitted(s, bytes) && 5 * |s| + 5 <= 8 * |bytes|
    requires forall t: nat :: t < 5 ==> Bit(q, t) == ByteBit(bytes, 5 * |s| + 4 - t)
    ensures Emitted(s + [Symbol(q)], bytes)
  {
    SymbolsInvert(q);
    var s' := s + [Symbol(q)];
    forall p: nat | p < 5 * |s'|
      ensures SymbolBit(s', p) == ByteBit(bytes, p)
    {
      if p < 5 * |s| {
        assert SymbolBit(s', p) == SymbolBit(s, p);
      } else {
        var t: nat := 4 - p % 5;
        assert p == 5 * |s| + 4 - t;
      }
    }
  }

  /** The five bits on top of the pending ones are the next five of the input. */
  lemma EmitTopFive(value: nat, bits: nat, bytes: seq<Byte>, i: nat, s: string, q: Quintet)
    requires i <= |bytes| && 5 <= bits && 5 * |s| + bits == 8 * i && PendingBytes(value, bits, bytes, i)
    requires Emitted(s, bytes) && q == Five(Shr(value, bits - 5))
    ensures Emitted(s + [Symbol(q)], bytes)
  {
    forall t: nat | t < 5
      ensures Bit(q, t) == ByteBit(bytes, 5 * |s| + 4 - t)
    {
      BitOfLow(Shr(value, bits - 5), 5, t);
      BitOfShr(value, bits - 5, t);
      assert Bit(value, bits - 5 + t) == ByteBit(bytes, 8 * i - 1 - (bits - 5 + t));
    }
    EmitSymbol(s, q, bytes);
  }

  lemma EmitLastFive(value: nat, bits: nat, bytes: seq<Byte>, s: string, q: Quintet)
    requires 0 < bits < 5 && Emitted(s, bytes) && 5 * |s| + bits == 8 * |bytes|
    requires PendingBytes(value, bits, bytes, |bytes|) && q == Five(Take(value, 0, 5 - bits))
    ensures Encodes(bytes, s + [Symbol(q)])
  {
    BitsOfLastFive(value, 5 - bits);
    EmitLast(s, q, bits, value, bytes);
  }

  method Base32Encode(buffer: seq<Byte>) returns (output: string)
    ensures Encodes(buffer, output)
  {
    var bits: nat, value: nat := 0, 0;
    output := "";
    for i := 0 to |buffer|
      invariant bits < 5 && 5 * |output| + bits == 8 * i
      invariant Emitted(output, buffer) && PendingBytes(value, bits, buffer, i)
    {
      var next := Take(value, buffer[i], 8);
      TakeByte(value, bits, buffer, i, next);
      value := next;
      bits := bits + 8;
      while bits >= 5
        invariant bits <= 12 && 5 * |output| + bits == 8 * (i + 1)
        invariant Emitted(output, buffer) && PendingBytes(value, bits, buffer, i + 1)
      {
        var q := Five(Shr(value, bits - 5));
        EmitTopFive(value, bits, buffer, i + 1, output, q);
        output := output + [Symbol(q)];
        bits := bits - 5;
      }
    }
    if bits > 0 {
      var q := Five(Take(value, 0, 5 - bits));
      EmitLastFive(value, bits, buffer, output, q);
      output := output + [Symbol(q)];
    }
  }

  lemma EmitLast(s: string, q: Quintet, bits: nat, value: nat, bytes: seq<Byte>)
    requires 0 < bits < 5 && Emitted(s, bytes) && 5 * |s| + bits == 8 * |bytes|
    requires PendingBytes(value, bits, bytes, |bytes|)
    requires forall t: nat :: t < 5 ==> Bit(q, t) == (t >= 5 - bits && Bit(value, t - (5 - bits)))
    ensures Encodes(bytes, s + [Symbol(q)])
  {
    SymbolsInvert(q);
    var s' := s + [Symbol(q)];
    forall p: nat | p < 5 * |s'|
      ensures SymbolBit(s', p) == (p < 8 * |bytes| && ByteBit(bytes, p))
    {
      if p < 5 * |s| {
        assert SymbolBit(s', p) == SymbolBit(s, p);
      } else {
        var t: nat := 4 - p % 5;
        assert p == 5 * |s| + 4 - t;
        if t >= 5 - bits { assert p == 8 * |bytes| - 1 - (t - (5 - bits)); }
      }
    }
  }

  /** The bytes emitted so far carry the first bits of the symbols. */
  ghost predicate Restored(bytes: seq<Byte>, s: string)
    requires AllSymbols(s)
  {
    && 8 * |bytes| <= 5 * |s|
    && (forall p: nat :: p < 8 * |bytes| ==> ByteBit(bytes, p) == SymbolBit(s, p))
  }

  lemma EmitByte(bytes: seq<Byte>, b: Byte, s: string)
    requires AllSymbols(s) && Restored(bytes, s) && 8 * |bytes| + 8 <= 5 * |s|
    requires forall t: nat :: t < 8 ==> Bit(b, t) == SymbolBit(s, 8 * |bytes| + 7 - t)
    ensures Restored(bytes + [b], s)
  {
    var bytes' := bytes + [b];
    forall p: nat | p < 8 * |bytes'|
      ensures ByteBit(bytes', p) == SymbolBit(s, p)
    {
      if p < 8 * |bytes| {
        assert ByteBit(bytes', p) == ByteBit(bytes, p);
      } else {
        var t: nat := 7 - p % 8;
        assert p == 8 * |bytes| + 7 - t;
      }
    }
  }

  lemma EmitTopEight(value: nat, bits: nat, s: string, i: nat, bytes: seq<Byte>, b: Byte)
    requires AllSymbols(s) && i <= |s| && 8 <= bits && 8 * |bytes| + bits == 5 * i
    requires PendingSymbols(value, bits, s, i) && Restored(bytes, s) && b == Eight(Shr(value, bits - 8))
    ensures Restored(bytes + [b], s)
  {
    forall t: nat | t < 8
      ensures Bit(b, t) == SymbolBit(s, 8 * |bytes| + 7 - t)
    {
      BitOfLow(Shr(value, bits - 8), 8, t);
      BitOfShr(value, bits - 8, t);
      assert Bit(value, bits - 8 + t) == SymbolBit(s, 5 * i - 1 - (bits - 8 + t));
    }
    EmitByte(bytes, b, s);
  }

  method Base32Decode(encoded: string) returns (output: seq<Byte>)
    ensures Decodes(encoded, output)
  {
    var cleaned := Cleaned(encoded);
    output := DecodeSymbols(cleaned);
  }

  method DecodeSymbols(cleaned: string) returns (output: seq<Byte>)
    requires AllSymbols(cleaned)
    ensures |output| == 5 * |cleaned| / 8 && Restored(output, cleaned)
  {
    var bits: nat, value: nat := 0, 0;
    output := [];
    for i := 0 to |cleaned|
      invariant bits < 8 && 8 * |output| + bits == 5 * i
      invariant Restored(output, cleaned) && PendingSymbols(value, bits, cleaned, i)
    {
      var next := Take(value, IndexOf(cleaned[i]), 5);
      TakeSymbol(value, bits, cleaned, i, next);
      value := next;
      bits := bits + 5;
      if bits >= 8 {
        var b := Eight(Shr(value, bits - 8));
        EmitTopEight(value, bits, cleaned, i + 1, output, b);
        output := output + [b];
        bits := bits - 8;
      }
    }
  }

  // ---------------------------------------------------------------- the promises

  lemma {:induction false} CleanedSymbols(s: string)
    requires AllSymbols(s)
    ensures Cleaned(s) == s
  {
    if s != "" { CleanedSymbols(s[1..]); }
  }

  lemma SameByte(bytes: seq<Byte>, s: string, back: seq<Byte>, k: nat)
    requires Encodes(bytes, s) && Decodes(s, back) && Cleaned(s) == s && k < |bytes| == |back|
    ensures back[k] == bytes[k]
  {
    forall t: nat | t < 8
      ensures Bit(back[k], t) == Bit(bytes[k], t)
    {
      assert ByteBit(back, 8 * k + (7 - t)) == SymbolBit(s, 8 * k + (7 - t));
    }
    SmallFits(back[k]);
    SmallFits(bytes[k]);
    SameBitsSameNumber(back[k], bytes[k], 8);
  }

  /** Decoding undoes encoding for every byte string, however long. */
  lemma RoundTrip(bytes: seq<Byte>, s: string, back: seq<Byte>)
    requires Encodes(bytes, s) && Decodes(s, back)
    ensures back == bytes
  {
    CleanedSymbols(s);
    forall k | 0 <= k < |bytes|
      ensures back[k] == bytes[k]
    {
      SameByte(bytes, s, back, k);
    }
  }

  /** The specification leaves the encoder no choice. */
  lemma EncodingIsUnique(bytes: seq<Byte>, s: string, s': string)
    requires Encodes(bytes, s) && Encodes(bytes, s')
    ensures s == s'
  {
    forall j | 0 <= j < |s|
      ensures s[j] == s'[j]
    {
      var x, y := IndexOf(s[j]), IndexOf(s'[j]);
      forall t | 0 <= t < 5
        ensures Bit(x, t) == Bit(y, t)
      {
        var p := 5 * j + (4 - t);
        assert SymbolBit(s, p) == SymbolBit(s', p);
      }
      SmallFits(x);
      SmallFits(y);
      SameBitsSameNumber(x, y, 5);
    }
  }

  lemma {:induction false} CleanedAppend(s: string, t: string)
    ensures Cleaned(s + t) == Cleaned(s) + Cleaned(t)
  {
    if s == "" {
      assert s + t == t;
    } else {
      assert (s + t)[1..] == s[1..] + t;
      CleanedAppend(s[1..], t);
    }
  }

  lemma OtherAsciiVanishes(c: char)
    requires c < 128 as char && !IsSymbol(c) && !('a' <= c <= 'z')
    ensures Cleaned([c]) == ""
  {
    assert UpperSymbols(c) == "";
    assert [c][1..] == "";
  }

  /** Spaces, dashes, padding and any other ASCII character outside the alphabet, inserted
      anywhere, do not change what is decoded. */
  lemma DecodingIgnoresInsertions(s: string, c: char, t: string)
    requires c < 128 as char && !IsSymbol(c) && !('a' <= c <= 'z')
    ensures forall bytes :: Decodes(s + [c] + t, bytes) <==> Decodes(s + t, bytes)
  {
    OtherAsciiVanishes(c);
    CleanedAppend(s + [c], t);
    CleanedAppend(s, [c]);
    CleanedAppend(s, t);
    assert Cleaned(s) + "" == Cleaned(s);
  }

  predicate SameButCase(c: char, d: char) {
    c == d
    || ('a' <= c <= 'z' && d as int == c as int - 32)
    || ('a' <= d <= 'z' && c as int == d as int - 32)
  }

  lemma CaseOfOneChar(c: char, d: char)
    requires SameButCase(c, d)
    ensures UpperSymbols(c) == UpperSymbols(d)
  {
  }

  lemma {:induction false} CleanedIgnoresCase(s: string, t: string)
    requires |s| == |t| && forall i :: 0 <= i < |s| ==> SameButCase(s[i], t[i])
    ensures Cleaned(s) == Cleaned(t)
  {
    if s != "" {
      CaseOfOneChar(s[0], t[0]);
      CleanedIgnoresCase(s[1..], t[1..]);
    }
  }

  lemma DecodingIgnoresCase(s: string, t: string)
    requires |s| == |t| && forall i :: 0 <= i < |s| ==> SameButCase(s[i], t[i])
    ensures forall bytes :: Decodes(s, bytes) <==> Decodes(t, bytes)
  {
    CleanedIgnoresCase(s, t);
  }

  // ---------------------------------------------------------------- TOTP numbers

  /** A byte string read as a big-endian number. */
  function BigEndian(bytes: seq<Byte>): nat
    decreases |bytes|
  {
    if bytes == [] then 0 else 256 * BigEndian(bytes[..|bytes| - 1]) + bytes[|bytes| - 1]
  }

  function Pow256(n: nat): (p: nat)
    ensures p >= 1
  {
    if n == 0 then 1 else 256 * Pow256(n - 1)
  }

  lemma {:induction false} BigEndianCons(b: Byte, rest: seq<Byte>)
    ensures BigEndian([b] + rest) == b * Pow256(|rest|) + BigEndian(rest)
    decreases |rest|
  {
    var all := [b] + rest;
    if rest == [] {
      assert all[..0] == [];
    } else {
      assert all[..|all| - 1] == [b] + rest[..|rest| - 1];
      BigEndianCons(b, rest[..|rest| - 1]);
      assert b * Pow256(|rest|) == 256 * (b * Pow256(|rest| - 1));
    }
  }

  /** The counter is written into the buffer from its last byte backwards: eight bytes, most
      significant first, exactly as section 5.1 of RFC 4226 asks. */
  method PackCounter(counter: nat, buffer: array<Byte>)
    requires buffer.Length == 8
    modifies buffer
    ensures BigEndian(buffer[..]) == counter % Pow256(buffer.Length)
  {
    var tmp := counter;
    var i := buffer.Length - 1;
    while i >= 0
      invariant -1 <= i < buffer.Length
      invariant Packed(counter, tmp, buffer[i + 1..])
    {
      ghost var low := buffer[i + 1..];
      buffer[i] := tmp % 256;
      assert buffer[i..] == [buffer[i]] + low;
      PackOne(counter, tmp, low);
      tmp := tmp / 256;
      i := i - 1;
    }
    assert buffer[0..] == buffer[..];
    Remainder(counter, Pow256(buffer.Length), tmp, BigEndian(buffer[..]));
  }

  /** `low` holds the bytes of `counter` below those still in `tmp`. */
  ghost predicate Packed(counter: nat, tmp: nat, low: seq<Byte>) {
    counter == Pow256(|low|) * tmp + BigEndian(low) && BigEndian(low) < Pow256(|low|)
  }

  lemma PackOne(counter: nat, tmp: nat, low: seq<Byte>)
    requires Packed(counter, tmp, low)
    ensures Packed(counter, tmp / 256, [tmp % 256] + low)
  {
    BigEndianCons(tmp % 256, low);
    PackStep(tmp, Pow256(|low|), BigEndian(low));
  }

  lemma Remainder(x: nat, d: nat, q: nat, r: nat)
    requires d > 0 && x == d * q + r && r < d
    ensures x % d == r
  {
    var q', r' := x / d, x % d;
    assert d * q' + r' == d * q + r;
    assert q' > q ==> d * q' >= d * (q + 1);
    assert q' < q ==> d * q >= d * (q' + 1);
  }

  lemma Distribute(a: nat, b: nat, c: nat)
    ensures (a + b) * c == a * c + b * c
  {
  }

  lemma PackStep(tmp: nat, p: nat, low: nat)
    requires low < p
    ensures tmp * p + low == (tmp / 256) * (256 * p) + ((tmp % 256) * p + low)
    ensures (tmp % 256) * p + low < 256 * p
  {
    var q, r := tmp / 256, tmp % 256;
    Distribute(256 * q, r, p);
    Distribute(r, 255 - r, p);
  }

  function Pow2(n: nat): (p: nat)
    ensures p >= 1
  {
    if n == 0 then 1 else 2 * Pow2(n - 1)
  }

  lemma {:induction false} Pow2Add(m: nat, n: nat)
    ensures Pow2(m + n) == Pow2(m) * Pow2(n)
    decreases n
  {
    if n > 0 { Pow2Add(m, n - 1); }
  }

  lemma Pow2Values()
    ensures Pow2(4) == 16 && Pow2(7) == 128 && Pow2(8) == 256 && Pow2(16) == 0x1_0000 && Pow2(24) == 0x100_0000
  {
    assert Pow2(1) == 2 && Pow2(2) == 4 && Pow2(3) == 8 && Pow2(4) == 16;
    Pow2Add(4, 3);
    Pow2Add(4, 4);
    Pow2Add(8, 8);
    Pow2Add(16, 8);
  }

  lemma {:induction false} ShlTimes(x: nat, n: nat)
    ensures Shl(x, n) == x * Pow2(n)
    decreases n
  {
    if n > 0 { ShlTimes(x, n - 1); }
  }

  lemma {:induction false} FitsIff(x: nat, n: nat)
    ensures Fits(x, n) <==> x < Pow2(n)
    decreases n
  {
    if n > 0 { FitsIff(x / 2, n - 1); }
  }

  lemma {:induction false} LowAndRest(x: nat, n: nat)
    ensures x == Shl(Shr(x, n), n) + Low(x, n)
    decreases n
  {
    if n > 0 { LowAndRest(x / 2, n - 1); }
  }

  /** Masking the low bits is the remainder by a power of two. */
  lemma LowIsRemainder(x: nat, n: nat)
    ensures Low(x, n) == x % Pow2(n)
  {
    LowAndRest(x, n);
    ShlTimes(Shr(x, n), n);
    LowFits(x, n);
    FitsIff(Low(x, n), n);
    Remainder(x, Pow2(n), Shr(x, n), Low(x, n));
  }

  /** Filling freed bits with `|`, read as numbers. */
  lemma OrIsSum(x: nat, y: nat, w: nat, p: nat)
    requires p == Pow2(w) && y < p
    ensures Or(x * p, y) == x * p + y
  {
    ShlTimes(x, w);
    FitsIff(y, w);
    OrIntoShifted(x, y, w);
  }

  lemma ShiftedLow(x: nat, n: nat, m: nat, w: nat, p: nat)
    requires m == Pow2(n) && p == Pow2(w)
    ensures Shl(Low(x, n), w) == (x % m) * p
  {
    LowIsRemainder(x, n);
    ShlTimes(Low(x, n), w);
  }

  /** The 31-bit word put together from four bytes: the sign bit masked off, each byte shifted to
      its place. */
  function Word(a: Byte, b: Byte, c: Byte, d: Byte): nat {
    Or(Or(Or(Shl(Low(a, 7), 24), Shl(Low(b, 8), 16)), Shl(Low(c, 8), 8)), Low(d, 8))
  }

  lemma PlacedTop(a: Byte)
    ensures Shl(Low(a, 7), 24) == (a % 128) * 0x100_0000
  {
    Pow2Values();
    ShiftedLow(a, 7, 128, 24, 0x100_0000);
  }

  lemma LowOfByte(b: Byte)
    ensures Low(b, 8) == b
  {
    SmallFits(b);
    LowOfFits(b, 8);
  }

  lemma {:induction false} LowOfFits(x: nat, n: nat)
    requires Fits(x, n)
    ensures Low(x, n) == x
    decreases n
  {
    if n > 0 { LowOfFits(x / 2, n - 1); }
  }

  lemma PlacedByte(b: Byte, w: nat, p: nat)
    requires p == Pow2(w)
    ensures Shl(Low(b, 8), w) == b * p
  {
    LowOfByte(b);
    ShlTimes(b, w);
  }

  lemma PlacedBytes(a: Byte, b: Byte, c: Byte, d: Byte)
    ensures Shl(Low(a, 7), 24) == (a % 128) * 0x100_0000 && Shl(Low(b, 8), 16) == b * 0x1_0000
    ensures Shl(Low(c, 8), 8) == c * 0x100 && Low(d, 8) == d
  {
    Pow2Values();
    PlacedTop(a);
    PlacedByte(b, 16, 0x1_0000);
    PlacedByte(c, 8, 0x100);
    LowOfByte(d);
  }

  lemma OredBytes(a: nat, b: Byte, c: Byte, d: Byte)
    ensures Or(a * 0x100_0000, b * 0x1_0000) == (a * 0x100 + b) * 0x1_0000
    ensures Or((a * 0x100 + b) * 0x1_0000, c * 0x100) == ((a * 0x100 + b) * 0x100 + c) * 0x100
    ensures Or(((a * 0x100 + b) * 0x100 + c) * 0x100, d) == ((a * 0x100 + b) * 0x100 + c) * 0x100 + d
  {
    Pow2Values();
    OrIsSum(a, b * 0x1_0000, 24, 0x100_0000);
    OrIsSum(a * 0x100 + b, c * 0x100, 16, 0x1_0000);
    OrIsSum((a * 0x100 + b) * 0x100 + c, d, 8, 0x100);
  }

  lemma WordIsSum(a: Byte, b: Byte, c: Byte, d: Byte)
    ensures Word(a, b, c, d) == (a % 128) * 0x100_0000 + b * 0x1_0000 + c * 0x100 + d
  {
    PlacedBytes(a, b, c, d);
    OredBytes(a % 128, b, c, d);
  }

  /** Section 5.3 of RFC 4226: four bytes from the offset named by the last nibble, sign bit
      cleared, as a number below a million. */
  function Truncated(hmac: seq<Byte>): (code: nat)
    requires |hmac| == 20
    ensures code < 1_000_000
    ensures var o := hmac[19] % 16;
      o + 4 <= 20 && code == (BigEndian(hmac[o..o + 4]) % 0x8000_0000) % 1_000_000
  {
    Pow2Values();
    LowIsRemainder(hmac[|hmac| - 1], 4);
    var o := Low(hmac[|hmac| - 1], 4);
    WordIsSum(hmac[o], hmac[o + 1], hmac[o + 2], hmac[o + 3]);
    FourBytes(hmac[o], hmac[o + 1], hmac[o + 2], hmac[o + 3]);
    assert hmac[o..o + 4] == [hmac[o], hmac[o + 1], hmac[o + 2], hmac[o + 3]];
    Word(hmac[o], hmac[o + 1], hmac[o + 2], hmac[o + 3]) % 1_000_000
  }

  lemma FourBytes(a: Byte, b: Byte, c: Byte, d: Byte)
    ensures BigEndian([a, b, c, d]) % 0x8000_0000 == (a % 128) * 0x100_0000 + b * 0x1_0000 + c * 0x100 + d
  {
    BigEndianLast([], a);
    BigEndianLast([a], b);
    BigEndianLast([a, b], c);
    BigEndianLast([a, b, c], d);
    assert [] + [a] == [a] && [a] + [b] == [a, b] && [a, b] + [c] == [a, b, c] && [a, b, c] + [d] == [a, b, c, d];
  }

  lemma BigEndianLast(bytes: seq<Byte>, b: Byte)
    ensures BigEndian(bytes + [b]) == 256 * BigEndian(bytes) + b
  {
    assert (bytes + [b])[..|bytes|] == bytes;
  }
}
