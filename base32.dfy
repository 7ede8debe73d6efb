/**
 * Base 32 encoding with the standard alphabet of RFC 4648, section 6, and
 * no padding (`base32.StdEncoding.WithPadding(base32.NoPadding)`): the bytes
 * are read as one bit stream, most significant bit first, which is cut into
 * 5-bit groups; a last group shorter than 5 bits is filled with zero bits,
 * and each group value selects one character of the alphabet.
 * A decoder is defined beside it so that the encoding can be shown lossless.
 */
module Base32 {
  import opened Wrappers
  import opened Text

  /**
   * The symbol of a 5-bit value, table 3 of RFC 4648, section 6: `A` to `Z`
   * for 0 to 25, then `2` to `7` for 26 to 31.
   */
  function Symbol(v: nat): (c: char)
    requires v < 32
    ensures 'A' <= c <= 'Z' || '2' <= c <= '7'
  {
    if v < 26 then ('A' as int + v) as char else ('2' as int + v - 26) as char
  }

  /** The value of a symbol, or `None` for a character outside the alphabet. */
  function SymbolValue(c: char): (v: Option<nat>)
    ensures v.Some? <==> 'A' <= c <= 'Z' || '2' <= c <= '7'
    ensures v.Some? ==> v.value < 32 && Symbol(v.value) == c
  {
    if 'A' <= c <= 'Z' then Some(c as int - 'A' as int)
    else if '2' <= c <= '7' then Some(c as int - '2' as int + 26)
    else None
  }

  /** Reading back the symbol of every 5-bit value gives the value. */
  lemma SymbolOfValue(v: nat)
    requires v < 32
    ensures SymbolValue(Symbol(v)) == Some(v)
  {
  }

  function Pow2(n: nat): (p: nat)
    ensures p >= 1
  {
    if n == 0 then 1 else 2 * Pow2(n - 1)
  }

  /** The unsigned value of a bit string, most significant bit first. */
  function BitsValue(bits: seq<bool>): (v: nat)
    ensures v < Pow2(|bits|)
    decreases |bits|
  {
    if bits == [] then 0
    else 2 * BitsValue(bits[..|bits| - 1]) + (if bits[|bits| - 1] then 1 else 0)
  }

  /** The `width` low bits of `n`, most significant first. */
  function NatBits(n: nat, width: nat): (bits: seq<bool>)
    ensures |bits| == width
    decreases width
  {
    if width == 0 then [] else NatBits(n / 2, width - 1) + [n % 2 == 1]
  }

  lemma {:induction false} ValueOfNatBits(n: nat, width: nat)
    requires n < Pow2(width)
    ensures BitsValue(NatBits(n, width)) == n
    decreases width
  {
    if width > 0 {
      ValueOfNatBits(n / 2, width - 1);
      var bits := NatBits(n, width);
      assert bits[..|bits| - 1] == NatBits(n / 2, width - 1);
    }
  }

  lemma {:induction false} NatBitsOfValue(bits: seq<bool>)
    ensures NatBits(BitsValue(bits), |bits|) == bits
    decreases |bits|
  {
    if bits != [] {
      var init := bits[..|bits| - 1];
      NatBitsOfValue(init);
      assert bits == init + [bits[|bits| - 1]];
    }
  }

  /** The bit stream of a byte string: eight bits per byte, most significant first. */
  function Bits(bytes: seq<Byte>): (bits: seq<bool>)
    ensures |bits| == 8 * |bytes|
  {
    if bytes == [] then [] else NatBits(bytes[0], 8) + Bits(bytes[1..])
  }

  /** The first `k` bytes of a bit stream, eight bits each. */
  function BytesOf(bits: seq<bool>, k: nat): (bytes: seq<Byte>)
    requires 8 * k <= |bits|
    ensures |bytes| == k
  {
    if k == 0 then []
    else
      assert Pow2(8) == 256;
      [BitsValue(bits[..8])] + BytesOf(bits[8..], k - 1)
  }

  lemma {:induction false} BytesOfBits(bytes: seq<Byte>)
    ensures BytesOf(Bits(bytes), |bytes|) == bytes
  {
    if bytes != [] {
      assert Pow2(8) == 256;
      ValueOfNatBits(bytes[0], 8);
      BytesOfBits(bytes[1..]);
      var bits := Bits(bytes);
      assert bits[..8] == NatBits(bytes[0], 8);
      assert bits[8..] == Bits(bytes[1..]);
    }
  }

  /** Bits past the first `k` bytes do not change them. */
  lemma {:induction false} BytesOfPrefix(bits: seq<bool>, more: seq<bool>, k: nat)
    requires 8 * k <= |bits|
    ensures BytesOf(bits + more, k) == BytesOf(bits, k)
  {
    if k > 0 {
      BytesOfPrefix(bits[8..], more, k - 1);
      assert (bits + more)[..8] == bits[..8];
      assert (bits + more)[8..] == bits[8..] + more;
    }
  }

  /** The number of whole bytes in `n` bits. */
  function Whole(n: nat): (k: nat)
    ensures 8 * k <= n < 8 * k + 8
  {
    if n < 8 then 0 else 1 + Whole(n - 8)
  }

  function Zeros(n: nat): (z: seq<bool>)
    ensures |z| == n && forall i :: 0 <= i < n ==> !z[i]
  {
    if n == 0 then [] else [false] + Zeros(n - 1)
  }

  /** The symbols of a bit stream, five bits each, the last group filled with zero bits. */
  function EncodeBits(bits: seq<bool>): (s: string)
    ensures |bits| <= 5 * |s| < |bits| + 5
    decreases |bits|
  {
    if bits == [] then ""
    else if |bits| >= 5 then [Symbol(BitsValue(bits[..5]))] + EncodeBits(bits[5..])
    else [Symbol(BitsValue(bits + Zeros(5 - |bits|)))]
  }

  /** Every character of an encoding is a symbol of the alphabet. */
  lemma {:induction false} EncodedSymbols(bits: seq<bool>)
    ensures forall i :: 0 <= i < |EncodeBits(bits)| ==> 'A' <= EncodeBits(bits)[i] <= 'Z' || '2' <= EncodeBits(bits)[i] <= '7'
    decreases |bits|
  {
    var s := EncodeBits(bits);
    if |bits| > 5 {
      EncodedSymbols(bits[5..]);
      assert s[1..] == EncodeBits(bits[5..]);
    }
  }

  /**
   * `EncodeToString`: the base 32 text of `bytes`, without padding, one
   * character for every started group of five bits.
   */
  function Encode(bytes: seq<Byte>): (s: string)
    ensures 8 * |bytes| <= 5 * |s| < 8 * |bytes| + 5
    ensures forall i :: 0 <= i < |s| ==> 'A' <= s[i] <= 'Z' || '2' <= s[i] <= '7'
  {
    EncodedSymbols(Bits(bytes));
    EncodeBits(Bits(bytes))
  }

  /** The test vector of RFC 4648, section 10: "f" (0x66) encodes as `MY` once the padding is dropped. */
  lemma EncodeVector()
    ensures Encode([0x66]) == "MY"
  {
    var bits := [false, true, true, false, false, true, true, false];
    assert NatBits(0x66, 8) == bits;
    assert Bits([0x66]) == bits;
    ValueOfNatBits(12, 5);
    assert bits[..5] == NatBits(12, 5);
    ValueOfNatBits(24, 5);
    assert bits[5..] + Zeros(2) == NatBits(24, 5);
    assert EncodeBits(bits[5..]) == [Symbol(24)];
  }

  /** The bit stream of a string of symbols, five bits per symbol; `None` when a character is not a symbol. */
  function DecodeBits(s: string): (r: Option<seq<bool>>)
    ensures r.Some? ==> |r.value| == 5 * |s|
  {
    if s == [] then Some([])
    else
      match SymbolValue(s[0])
      case None => None
      case Some(v) =>
        match DecodeBits(s[1..])
        case None => None
        case Some(rest) => Some(NatBits(v, 5) + rest)
  }

  /** The decoder: symbols to bits, dropping the fill bits that do not make a whole byte. */
  function Decode(s: string): (r: Option<seq<Byte>>)
    ensures r.Some? ==> 8 * |r.value| <= 5 * |s| < 8 * |r.value| + 8
  {
    match DecodeBits(s)
    case None => None
    case Some(bits) => Some(BytesOf(bits, Whole(|bits|)))
  }

  /** The number of zero bits that fill the last 5-bit group of an `n`-bit stream. */
  function Fill(n: nat): (f: nat)
    ensures f < 5 && (n + f) % 5 == 0
  {
    if n == 0 then 0 else if n < 5 then 5 - n else Fill(n - 5)
  }

  /** Decoding one symbol: its five bits. */
  lemma DecodeSingle(c: char, v: nat)
    requires SymbolValue(c) == Some(v)
    ensures DecodeBits([c]).Some? && DecodeBits([c]).value == NatBits(v, 5)
  {
    assert [c][1..] == "";
    assert NatBits(v, 5) + [] == NatBits(v, 5);
  }

  /** Decoding a symbol followed by more text: the symbol's five bits, then the rest. */
  lemma DecodeCons(c: char, s: string, v: nat, rest: seq<bool>)
    requires SymbolValue(c) == Some(v)
    requires DecodeBits(s).Some? && DecodeBits(s).value == rest
    ensures DecodeBits([c] + s).Some? && DecodeBits([c] + s).value == NatBits(v, 5) + rest
  {
    assert ([c] + s)[1..] == s;
  }

  /** The symbol of one 5-bit group decodes to the group. */
  lemma DecodeGroup(chunk: seq<bool>)
    requires |chunk| == 5
    ensures var v := BitsValue(chunk); v < 32 && SymbolValue(Symbol(v)) == Some(v) && NatBits(v, 5) == chunk
  {
    assert Pow2(5) == 32;
    SymbolOfValue(BitsValue(chunk));
    NatBitsOfValue(chunk);
  }

  /** Decoding the symbols of a bit stream gives the stream back, followed by the fill bits. */
  lemma {:induction false} DecodeEncodeBits(bits: seq<bool>)
    ensures DecodeBits(EncodeBits(bits)).Some?
    ensures DecodeBits(EncodeBits(bits)).value == bits + Zeros(Fill(|bits|))
    decreases |bits|
  {
    if bits == [] {
    } else if |bits| >= 5 {
      var chunk, rest := bits[..5], bits[5..];
      DecodeGroup(chunk);
      DecodeEncodeBits(rest);
      var c := Symbol(BitsValue(chunk));
      var tail := rest + Zeros(Fill(|rest|));
      assert EncodeBits(bits) == [c] + EncodeBits(rest);
      DecodeCons(c, EncodeBits(rest), BitsValue(chunk), tail);
      var z := Zeros(Fill(|bits|));
      assert bits == chunk + rest;
      assert (chunk + rest) + z == chunk + (rest + z);
    } else {
      var chunk := bits + Zeros(5 - |bits|);
      DecodeGroup(chunk);
      var c := Symbol(BitsValue(chunk));
      assert EncodeBits(bits) == [c];
      DecodeSingle(c, BitsValue(chunk));
    }
  }

  /** Round trip: decoding the encoding of any byte string gives it back. */
  lemma DecodeEncode(bytes: seq<Byte>)
    ensures Decode(Encode(bytes)) == Some(bytes)
  {
    var bits := Bits(bytes);
    var s := EncodeBits(bits);
    assert Encode(bytes) == s;
    DecodeEncodeBits(bits);
    var fill := Zeros(Fill(|bits|));
    var padded := DecodeBits(s).value;
    assert padded == bits + fill;
    var k := |bytes|;
    assert Whole(|padded|) == k;
    BytesOfPrefix(bits, fill, k);
    BytesOfBits(bytes);
    assert Decode(s) == Some(BytesOf(padded, k));
  }
}
