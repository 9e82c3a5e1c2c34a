/**
 * `publicKeyToAddress`: the Base58Check pay-to-public-key-hash address of an
 * identity key. The key parser and the two hash functions belong to the
 * wallet SDK; they are parameters here, and a parser that rejects the key
 * stands for the exception that makes the function return its input.
 */
module Address {
  import opened Wrappers
  import opened Base58

  /** The SDK primitives: key parsing with DER output, HASH160 and SHA-256. */
  datatype Crypto = Crypto(
    parseKey: string -> Option<seq<byte>>,
    hash160: seq<byte> -> seq<byte>,
    sha256: seq<byte> -> seq<byte>)

  /** The hash functions return digests of their standard sizes. */
  ghost predicate StandardDigests(c: Crypto) {
    (forall x :: |c.hash160(x)| == 20) && (forall x :: |c.sha256(x)| == 32)
  }

  /** Version byte for mainnet pay-to-public-key-hash addresses. */
  const Version: byte := 0

  /** `version ‖ hash160(der)`. */
  function Payload(c: Crypto, der: seq<byte>): seq<byte> {
    [Version] + c.hash160(der)
  }

  /** The first four bytes (or fewer, if the digest is shorter) of the double SHA-256. */
  function Checksum(c: Crypto, payload: seq<byte>): (r: seq<byte>)
    ensures var h := c.sha256(c.sha256(payload));
      && |r| == (if |h| < 4 then |h| else 4)
      && r == h[..|r|]
  {
    var h := c.sha256(c.sha256(payload));
    if |h| <= 4 then h else h[..4]
  }

  /** The address string for a key, or the key itself when the SDK rejects it. */
  function AddressOf(c: Crypto, publicKeyHex: string): string {
    match c.parseKey(publicKeyHex)
    case None => publicKeyHex
    case Some(der) => Encode(Payload(c, der) + Checksum(c, Payload(c, der)))
  }

  /** `Uint8Array.prototype.set`: copies `src` into `a` from `offset` on and leaves the rest. */
  method SetAt(a: array<byte>, src: seq<byte>, offset: nat)
    requires offset + |src| <= a.Length
    modifies a
    ensures a[..] == old(a[..offset]) + src + old(a[offset + |src|..])
  {
    for k := 0 to |src|
      invariant a[..offset] == old(a[..offset])
      invariant a[offset..offset + k] == src[..k]
      invariant a[offset + |src|..] == old(a[offset + |src|..])
      invariant forall j :: offset + k <= j < offset + |src| ==> a[j] == old(a[j])
    {
      a[offset + k] := src[k];
      assert a[offset..offset + k + 1] == a[offset..offset + k] + [src[k]];
      assert src[..k + 1] == src[..k] + [src[k]];
    }
    assert a[..] == a[..offset] + a[offset..offset + |src|] + a[offset + |src|..];
  }

  /** Copying `src` over the end of `old` leaves its first `offset` elements followed by `src`. */
  lemma SpliceToEnd(before: seq<byte>, src: seq<byte>, offset: nat, now: seq<byte>)
    requires offset + |src| == |before|
    requires now == before[..offset] + src + before[offset + |src|..]
    ensures now == before[..offset] + src
  {
    assert before[offset + |src|..] == [];
  }

  /** The address assembly with its two freshly allocated byte buffers. */
  method PublicKeyToAddress(c: Crypto, publicKeyHex: string) returns (address: string)
    ensures address == AddressOf(c, publicKeyHex)
  {
    var der := c.parseKey(publicKeyHex);
    if der.None? {
      return publicKeyHex;
    }
    var pubKeyHash := c.hash160(der.value);
    var versionByte := [Version];
    var payload := new byte[|versionByte| + |pubKeyHash|](_ => 0);
    SetAt(payload, versionByte, 0);
    ghost var p1 := payload[..];
    assert |p1| == 1 + |pubKeyHash| && p1[..1] == versionByte;
    SetAt(payload, pubKeyHash, |versionByte|);
    SpliceToEnd(p1, pubKeyHash, 1, payload[..]);

    var hash1 := c.sha256(payload[..]);
    var hash2 := c.sha256(hash1);
    var checksum := if |hash2| <= 4 then hash2 else hash2[..4];

    var addressBytes := new byte[payload.Length + |checksum|](_ => 0);
    var p := payload[..];
    assert checksum == Checksum(c, p);
    SetAt(addressBytes, p, 0);
    ghost var a1 := addressBytes[..];
    assert |a1| == |p| + |checksum| && a1[..|p|] == p;
    SetAt(addressBytes, checksum, |p|);
    SpliceToEnd(a1, checksum, |p|, addressBytes[..]);
    address := Base58Encode(addressBytes);
  }

  /**
   * With standard digests an accepted key gives the 25 bytes
   * `0x00 ‖ hash160 ‖ checksum`, whose Base58 form starts with '1' and
   * decodes back to those bytes.
   */
  lemma AddressLayout(c: Crypto, publicKeyHex: string)
    requires StandardDigests(c)
    requires c.parseKey(publicKeyHex).Some?
    ensures var der := c.parseKey(publicKeyHex).value;
      var bytes := Payload(c, der) + Checksum(c, Payload(c, der));
      && |bytes| == 25
      && bytes[0] == 0
      && bytes[1..21] == c.hash160(der)
      && bytes[21..] == c.sha256(c.sha256(bytes[..21]))[..4]
      && AddressOf(c, publicKeyHex) == Encode(bytes)
      && |AddressOf(c, publicKeyHex)| >= 1 && AddressOf(c, publicKeyHex)[0] == '1'
      && Decode(AddressOf(c, publicKeyHex)) == bytes
  {
    var der := c.parseKey(publicKeyHex).value;
    var payload := Payload(c, der);
    var bytes := payload + Checksum(c, payload);
    assert bytes[..21] == payload;
    assert LeadingZeros(bytes) >= 1;
    EncodeLeadingOnes(bytes);
    DecodeEncode(bytes);
  }
}
