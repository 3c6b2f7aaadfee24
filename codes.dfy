/**
 * Generation of class codes and QR tokens. The random source is an input: the sequence of
 * values the generator would draw.
 */
module Codes {

  /** Class-code alphabet: upper-case letters and digits without I, O, 0 and 1. */
  const ClassCodeAlphabet: string := "ABCDEFGHJKLMNPQRSTUVWXYZ23456789"

  /** Alphabet of the Spring QR token. */
  const TokenAlphabet: string := "abcdefghijklmnopqrstuvwxyzABCDEFGHIJKLMNOPQRSTUVWXYZ0123456789"

  const ClassCodeLength: nat := 6

  predicate IsClassCode(s: string)
  {
    forall i :: 0 <= i < |s| ==> s[i] in ClassCodeAlphabet
  }

  /** An upper-case letter other than I and O, or a digit from 2 to 9. */
  predicate IsCodeSymbol(c: char)
  {
    ('A' <= c <= 'Z' && c != 'I' && c != 'O') || ('2' <= c <= '9')
  }

  /** The alphabet has 32 symbols, all readable ones: the look-alikes I, O, 0 and 1 are left out. */
  lemma ClassCodeAlphabetShape()
    ensures |ClassCodeAlphabet| == 32 && |TokenAlphabet| == 62
    ensures forall c :: c in ClassCodeAlphabet ==> IsCodeSymbol(c)
    ensures 'I' !in ClassCodeAlphabet && 'O' !in ClassCodeAlphabet
    ensures '0' !in ClassCodeAlphabet && '1' !in ClassCodeAlphabet
  {
    forall c | c in ClassCodeAlphabet ensures IsCodeSymbol(c) {
      var i :| 0 <= i < |ClassCodeAlphabet| && ClassCodeAlphabet[i] == c;
    }
  }

  /**
   * `CodeUtil.generateClassCode`: six symbols, the i-th being the alphabet entry at the i-th draw
   * of `nextInt(32)`.
   */
  method GenerateClassCode(draws: seq<int>) returns (code: string)
    requires |draws| >= ClassCodeLength
    requires forall i :: 0 <= i < |draws| ==> 0 <= draws[i] < |ClassCodeAlphabet|
    ensures |code| == ClassCodeLength
    ensures forall i :: 0 <= i < |code| ==> code[i] == ClassCodeAlphabet[draws[i]]
    ensures IsClassCode(code)
  {
    code := "";
    var i := 0;
    while i < ClassCodeLength
      invariant 0 <= i <= ClassCodeLength
      invariant |code| == i
      invariant forall k :: 0 <= k < i ==> code[k] == ClassCodeAlphabet[draws[k]]
    {
      code := code + [ClassCodeAlphabet[draws[i]]];
      i := i + 1;
    }
  }

  /** `Math.floor(r * chars.length)` for a draw `r` of `Math.random()` in [0, 1). */
  function ScaledIndex(r: real, n: nat): (k: int)
    requires 0.0 <= r < 1.0 && n > 0
    ensures 0 <= k < n
  {
    var x := r * n as real;
    assert 0.0 <= x < n as real by {
      assert r * n as real < 1.0 * n as real;
    }
    x.Floor
  }

  /** `generateClassCode(length)` of the Express backend, fed with the draws of `Math.random()`. */
  method NodeGenerateClassCode(length: int, draws: seq<real>) returns (code: string)
    requires |draws| >= length
    requires forall i :: 0 <= i < |draws| ==> 0.0 <= draws[i] < 1.0
    ensures |code| == if length < 0 then 0 else length
    ensures forall i :: 0 <= i < |code| ==> code[i] == ClassCodeAlphabet[ScaledIndex(draws[i], |ClassCodeAlphabet|)]
    ensures IsClassCode(code)
  {
    code := "";
    var i := 0;
    while i < length
      invariant 0 <= i <= (if length < 0 then 0 else length)
      invariant |code| == i
      invariant forall k :: 0 <= k < i ==> code[k] == ClassCodeAlphabet[ScaledIndex(draws[k], |ClassCodeAlphabet|)]
    {
      code := code + [ClassCodeAlphabet[ScaledIndex(draws[i], |ClassCodeAlphabet|)]];
      i := i + 1;
    }
  }

  /** `CodeUtil.randomToken(length)`: `length` symbols of the 62-symbol alphabet. */
  method RandomToken(length: int, draws: seq<int>) returns (token: string)
    requires |draws| >= length
    requires forall i :: 0 <= i < |draws| ==> 0 <= draws[i] < |TokenAlphabet|
    ensures |token| == if length < 0 then 0 else length
    ensures forall i :: 0 <= i < |token| ==> token[i] == TokenAlphabet[draws[i]]
    ensures forall i :: 0 <= i < |token| ==> token[i] in TokenAlphabet
  {
    token := "";
    var i := 0;
    while i < length
      invariant 0 <= i <= (if length < 0 then 0 else length)
      invariant |token| == i
      invariant forall k :: 0 <= k < i ==> token[k] == TokenAlphabet[draws[k]]
    {
      token := token + [TokenAlphabet[draws[i]]];
      i := i + 1;
    }
  }

  // -----------------------------------------------------------------------
  // crypto.randomBytes(n).toString('hex')
  // -----------------------------------------------------------------------

  predicate IsByte(b: int) { 0 <= b < 256 }

  predicate IsHexDigit(c: char) { '0' <= c <= '9' || 'a' <= c <= 'f' }

  predicate IsLowerHex(s: string)
  {
    forall i :: 0 <= i < |s| ==> IsHexDigit(s[i])
  }

  /** The lower-case hex digit of a value below 16. */
  function HexDigit(v: int): (c: char)
    requires 0 <= v < 16
    ensures IsHexDigit(c)
  {
    if v < 10 then ('0' as int + v) as char else ('a' as int + v - 10) as char
  }

  function HexOfByte(b: int): (r: string)
    requires IsByte(b)
    ensures |r| == 2 && IsLowerHex(r)
  {
    [HexDigit(b / 16), HexDigit(b % 16)]
  }

  /** `Buffer.toString('hex')`: two lower-case hex digits per byte, high nibble first. */
  function HexToken(bytes: seq<int>): (r: string)
    requires forall i :: 0 <= i < |bytes| ==> IsByte(bytes[i])
    ensures |r| == 2 * |bytes|
    ensures IsLowerHex(r)
  {
    if bytes == [] then "" else HexOfByte(bytes[0]) + HexToken(bytes[1..])
  }

  /** The value of a hex digit; every digit reads back as the value it was written from. */
  function DigitValue(c: char): (v: int)
    ensures 0 <= v < 16
    ensures forall k :: 0 <= k < 16 && c == HexDigit(k) ==> v == k
  {
    if '0' <= c <= '9' then c as int - '0' as int
    else if 'a' <= c <= 'f' then c as int - 'a' as int + 10
    else 0
  }

  /** Reads back the bytes of a hex string (inverse of `HexToken`). */
  function HexDecode(s: string): (bytes: seq<int>)
    requires |s| % 2 == 0
    ensures |bytes| == |s| / 2
    ensures forall i :: 0 <= i < |bytes| ==> IsByte(bytes[i])
  {
    if s == [] then [] else [16 * DigitValue(s[0]) + DigitValue(s[1])] + HexDecode(s[2..])
  }

  /** Decoding the hex token gives back the random bytes. */
  lemma {:induction false} HexRoundTrip(bytes: seq<int>)
    requires forall i :: 0 <= i < |bytes| ==> IsByte(bytes[i])
    ensures HexDecode(HexToken(bytes)) == bytes
  {
    if bytes != [] {
      var b := bytes[0];
      var h := HexToken(bytes);
      assert h == HexOfByte(b) + HexToken(bytes[1..]);
      assert h[2..] == HexToken(bytes[1..]);
      assert DigitValue(h[0]) == b / 16 && DigitValue(h[1]) == b % 16;
      HexRoundTrip(bytes[1..]);
    }
  }

  /** Distinct random bytes give distinct tokens. */
  lemma HexTokenInjective(a: seq<int>, b: seq<int>)
    requires forall i :: 0 <= i < |a| ==> IsByte(a[i])
    requires forall i :: 0 <= i < |b| ==> IsByte(b[i])
    requires HexToken(a) == HexToken(b)
    ensures a == b
  {
    HexRoundTrip(a);
    HexRoundTrip(b);
  }
}
