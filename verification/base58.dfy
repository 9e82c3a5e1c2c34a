/**
 * Base58 encoding with the Bitcoin alphabet (the IETF draft "The Base58
 * Encoding Scheme", section 2 for the alphabet and section 3 for encoding):
 * every leading zero byte becomes one '1', the remaining bytes are read as a
 * big-endian integer and written in base 58, most significant digit first.
 */
module Base58 {
  import opened JsText

  newtype byte = x: int | 0 <= x < 256

  /** "123456789ABCDEFGHJKLMNPQRSTUVWXYZabcdefghijkmnopqrstuvwxyz", written in runs between the left-out letters. */
  const Alphabet: string := "123456789" + "ABCDEFGH" + "JKLMN" + "PQRSTUVWXYZ" + "abcdefghijk" + "mnopqrstuvwxyz"

  /** Position of `c` in the alphabet, or 58 when it is not a Base58 character. */
  function AlphabetIndex(c: char): (d: nat)
    ensures d <= 58
  {
    if '1' <= c <= '9' then (c as int) - ('1' as int)
    else if 'A' <= c <= 'H' then (c as int) - ('A' as int) + 9
    else if 'J' <= c <= 'N' then (c as int) - ('J' as int) + 17
    else if 'P' <= c <= 'Z' then (c as int) - ('P' as int) + 22
    else if 'a' <= c <= 'k' then (c as int) - ('a' as int) + 33
    else if 'm' <= c <= 'z' then (c as int) - ('m' as int) + 44
    else 58
  }

  lemma AlphabetAt(d: nat)
    requires d < 58
    ensures |Alphabet| == 58
    ensures AlphabetIndex(Alphabet[d]) == d
  {
    if d < 22 {
      AlphabetDigitsAndUpper(d);
    } else if d < 44 {
      AlphabetUpperAndLower(d);
    } else {
      assert Alphabet[d] == "mnopqrstuvwxyz"[d - 44];
    }
  }

  /** The first three runs: the digits, "A" to "H" and "J" to "N". */
  lemma AlphabetDigitsAndUpper(d: nat)
    requires d < 22
    ensures AlphabetIndex(Alphabet[d]) == d
  {
    if d < 9 {
      assert Alphabet[d] == "123456789"[d];
    } else if d < 17 {
      assert Alphabet[d] == "ABCDEFGH"[d - 9];
    } else {
      assert Alphabet[d] == "JKLMN"[d - 17];
    }
  }

  /** The next two runs: "P" to "Z" and "a" to "k". */
  lemma AlphabetUpperAndLower(d: nat)
    requires 22 <= d < 44
    ensures AlphabetIndex(Alphabet[d]) == d
  {
    if d < 33 {
      assert Alphabet[d] == "PQRSTUVWXYZ"[d - 22];
    } else {
      assert Alphabet[d] == "abcdefghijk"[d - 33];
    }
  }

  /** The alphabet has 58 distinct characters and leaves out '0', 'O', 'I' and 'l'. */
  lemma AlphabetShape()
    ensures |Alphabet| == 58
    ensures '0' !in Alphabet && 'O' !in Alphabet && 'I' !in Alphabet && 'l' !in Alphabet
    ensures forall d :: 0 <= d < 58 ==> AlphabetIndex(Alphabet[d]) == d
  {
    forall d | 0 <= d < 58
      ensures AlphabetIndex(Alphabet[d]) == d
      ensures Alphabet[d] != '0' && Alphabet[d] != 'O' && Alphabet[d] != 'I' && Alphabet[d] != 'l'
    {
      AlphabetAt(d);
    }
  }

  predicate InAlphabet(c: char) { AlphabetIndex(c) < 58 }

  lemma InAlphabetIsMember(c: char)
    ensures InAlphabet(c) <==> c in Alphabet
  {
    if InAlphabet(c) {
      var d := AlphabetIndex(c);
      AlphabetAt(d);
      AlphabetIndexInjective(Alphabet[d], c);
    }
    if c in Alphabet {
      var d :| 0 <= d < |Alphabet| && Alphabet[d] == c;
      AlphabetAt(d);
    }
  }

  /** Two characters at the same position of the alphabet are the same character. */
  lemma AlphabetIndexInjective(c: char, c': char)
    requires AlphabetIndex(c) == AlphabetIndex(c') < 58
    ensures c == c'
  {
  }

  /** Number of zero bytes at the front of `b`. */
  function LeadingZeros(b: seq<byte>): (n: nat)
    ensures n <= |b|
    ensures forall i :: 0 <= i < n ==> b[i] == 0
    ensures n < |b| ==> b[n] != 0
  {
    if b == [] || b[0] != 0 then 0 else 1 + LeadingZeros(b[1..])
  }

  /** The big-endian integer value of `b`. */
  function BytesToNat(b: seq<byte>): nat {
    if b == [] then 0 else BytesToNat(b[..|b| - 1]) * 256 + b[|b| - 1] as nat
  }

  /** `n` in base 58, most significant digit first; the empty string for zero. */
  function NatToBase58(n: nat): string {
    if n == 0 then "" else NatToBase58(n / 58) + [Alphabet[n % 58]]
  }

  /** The Base58 encoding of `b`. */
  function Encode(b: seq<byte>): string {
    Repeat('1', LeadingZeros(b)) + NatToBase58(BytesToNat(b))
  }

  /** `base58Encode`: the three loops count the zeros, build the integer and emit the digits. */
  method Base58Encode(bytes: array<byte>) returns (s: string)
    ensures s == Encode(bytes[..])
  {
    var zeros := 0;
    while zeros < bytes.Length && bytes[zeros] == 0
      invariant zeros <= bytes.Length
      invariant zeros + LeadingZeros(bytes[zeros..]) == LeadingZeros(bytes[..])
    {
      LeadingZerosStep(bytes[..], zeros);
      zeros := zeros + 1;
    }
    assert zeros == LeadingZeros(bytes[..]);

    var num: nat := 0;
    for i := 0 to bytes.Length
      invariant num == BytesToNat(bytes[..i])
    {
      BytesToNatPrefix(bytes[..], i);
      num := num * 256 + bytes[i] as nat;
    }
    assert bytes[..bytes.Length] == bytes[..];

    var encoded := "";
    ghost var total := num;
    while num > 0
      invariant NatToBase58(total) == NatToBase58(num) + encoded
    {
      var remainder := num % 58;
      NatToBase58Step(num, encoded);
      encoded := [Alphabet[remainder]] + encoded;
      num := num / 58;
    }
    s := Repeat('1', zeros) + encoded;
  }

  /** A zero byte at `i` adds one to the zeros counted from `i + 1`. */
  lemma LeadingZerosStep(b: seq<byte>, i: nat)
    requires i < |b| && b[i] == 0
    ensures LeadingZeros(b[i..]) == 1 + LeadingZeros(b[i + 1..])
  {
    assert b[i..][1..] == b[i + 1..];
  }

  /** One more byte shifts the value of the bytes before it by one place. */
  lemma BytesToNatPrefix(b: seq<byte>, i: nat)
    requires i < |b|
    ensures BytesToNat(b[..i + 1]) == BytesToNat(b[..i]) * 256 + b[i] as nat
  {
    assert b[..i + 1][..i] == b[..i];
  }

  /** Emitting the last digit of `n` in front of what has been emitted. */
  lemma NatToBase58Step(n: nat, encoded: string)
    requires n > 0
    ensures NatToBase58(n) + encoded == NatToBase58(n / 58) + ([Alphabet[n % 58]] + encoded)
  {
    ConcatAssoc(NatToBase58(n / 58), [Alphabet[n % 58]], encoded);
  }

  /** Every output character is a Base58 character. */
  lemma {:induction false} NatToBase58InAlphabet(n: nat)
    ensures forall i :: 0 <= i < |NatToBase58(n)| ==> NatToBase58(n)[i] in Alphabet
  {
    if n > 0 {
      NatToBase58InAlphabet(n / 58);
    }
  }

  lemma EncodeInAlphabet(b: seq<byte>)
    ensures forall i :: 0 <= i < |Encode(b)| ==> Encode(b)[i] in Alphabet
  {
    NatToBase58InAlphabet(BytesToNat(b));
    forall i | 0 <= i < |Encode(b)| ensures Encode(b)[i] in Alphabet {
      if i < LeadingZeros(b) {
        assert Encode(b)[i] == Repeat('1', LeadingZeros(b))[i] == '1';
        assert Alphabet[0] == '1';
      } else {
        assert Encode(b)[i] == NatToBase58(BytesToNat(b))[i - LeadingZeros(b)];
      }
    }
  }

  /** The digits of a positive number never start with the zero digit '1'. */
  lemma {:induction false} NatToBase58NoLeadingOne(n: nat)
    ensures NatToBase58(n) == "" <==> n == 0
    ensures n > 0 ==> NatToBase58(n)[0] != '1'
  {
    if n > 0 {
      NatToBase58NoLeadingOne(n / 58);
      if n / 58 == 0 {
        AlphabetShape();
        assert NatToBase58(n) == [Alphabet[n]];
        assert AlphabetIndex(Alphabet[n]) == n != 0;
      }
    }
  }

  /** A sequence of zero bytes is worth zero, and only such a sequence is. */
  lemma {:induction false} BytesToNatZero(b: seq<byte>)
    ensures BytesToNat(b) == 0 <==> forall i :: 0 <= i < |b| ==> b[i] == 0
  {
    if b != [] {
      var p := b[..|b| - 1];
      BytesToNatZero(p);
      assert forall i :: 0 <= i < |p| ==> p[i] == b[i];
    }
  }

  /** The output begins with exactly one '1' per leading zero byte. */
  lemma EncodeLeadingOnes(b: seq<byte>)
    ensures |Encode(b)| >= LeadingZeros(b)
    ensures forall i :: 0 <= i < LeadingZeros(b) ==> Encode(b)[i] == '1'
    ensures |Encode(b)| > LeadingZeros(b) ==> Encode(b)[LeadingZeros(b)] != '1'
  {
    NatToBase58NoLeadingOne(BytesToNat(b));
  }

  /** The empty input encodes to "", and `n` zero bytes to `n` '1's. */
  lemma EncodeZeros(b: seq<byte>)
    requires forall i :: 0 <= i < |b| ==> b[i] == 0
    ensures Encode(b) == Repeat('1', |b|)
  {
    BytesToNatZero(b);
    assert Repeat('1', |b|) + "" == Repeat('1', |b|);
  }

  // Decoding, the partner of `Encode`.

  /** Number of '1' characters at the front of `s`. */
  function LeadingOnes(s: string): (n: nat)
    ensures n <= |s|
  {
    if s == [] || s[0] != '1' then 0 else 1 + LeadingOnes(s[1..])
  }

  /** The integer a string of Base58 digits stands for, most significant first. */
  function ParseBase58(s: string): nat {
    if s == [] then 0 else ParseBase58(s[..|s| - 1]) * 58 + AlphabetIndex(s[|s| - 1])
  }

  /** The big-endian bytes of `n` without leading zero bytes; empty for zero. */
  function NatToBytes(n: nat): seq<byte> {
    if n == 0 then [] else NatToBytes(n / 256) + [(n % 256) as byte]
  }

  function Zeros(n: nat): (r: seq<byte>)
    ensures |r| == n && forall i :: 0 <= i < n ==> r[i] == 0
  {
    if n == 0 then [] else [0 as byte] + Zeros(n - 1)
  }

  /** The bytes a Base58 string stands for. */
  function Decode(s: string): seq<byte> {
    Zeros(LeadingOnes(s)) + NatToBytes(ParseBase58(s[LeadingOnes(s)..]))
  }

  lemma {:induction false} ParseNatToBase58(n: nat)
    ensures ParseBase58(NatToBase58(n)) == n
  {
    if n > 0 {
      ParseNatToBase58(n / 58);
      AlphabetShape();
      var p := NatToBase58(n / 58);
      assert (p + [Alphabet[n % 58]])[..|p|] == p;
    }
  }

  /** Bytes without a leading zero come back from their value unchanged. */
  lemma {:induction false} NatToBytesOfBytes(b: seq<byte>)
    requires b == [] || b[0] != 0
    ensures NatToBytes(BytesToNat(b)) == b
  {
    if b != [] {
      var p := b[..|b| - 1];
      var n := BytesToNat(b);
      assert n == BytesToNat(p) * 256 + b[|b| - 1] as nat;
      if p == [] {
        assert n == b[0] as nat && n != 0;
        assert NatToBytes(n) == NatToBytes(0) + [b[0]];
      } else {
        assert p[0] == b[0];
        BytesToNatZero(p);
        NatToBytesOfBytes(p);
        assert n / 256 == BytesToNat(p) && n % 256 == b[|b| - 1] as nat;
        assert b == p + [b[|b| - 1]];
      }
    }
  }

  /** Leading zero bytes do not change the value. */
  lemma {:induction false} BytesToNatSkipZeros(b: seq<byte>, k: nat)
    requires k <= |b| && forall i :: 0 <= i < k ==> b[i] == 0
    ensures BytesToNat(b) == BytesToNat(b[k..])
    decreases |b|
  {
    if |b| == k {
      BytesToNatZero(b);
    } else {
      var p := b[..|b| - 1];
      BytesToNatSkipZeros(p, k);
      assert b[k..][..|b[k..]| - 1] == p[k..];
    }
  }

  lemma {:induction false} LeadingOnesOfEncoding(k: nat, t: string)
    requires t == "" || t[0] != '1'
    ensures LeadingOnes(Repeat('1', k) + t) == k
  {
    if k > 0 {
      assert (Repeat('1', k) + t)[1..] == Repeat('1', k - 1) + t;
      LeadingOnesOfEncoding(k - 1, t);
    } else {
      assert Repeat('1', k) + t == t;
    }
  }

  /** Decoding an encoding gives back the input: the zeros and then the remaining bytes. */
  lemma DecodeEncode(b: seq<byte>)
    ensures Decode(Encode(b)) == b
  {
    var k := LeadingZeros(b);
    var n := BytesToNat(b);
    NatToBase58NoLeadingOne(n);
    LeadingOnesOfEncoding(k, NatToBase58(n));
    assert Encode(b)[k..] == NatToBase58(n);
    ParseNatToBase58(n);
    BytesToNatSkipZeros(b, k);
    NatToBytesOfBytes(b[k..]);
    assert b == Zeros(k) + b[k..];
  }
}
