/** The framing of encrypted blobs: a 12-byte nonce, the ciphertext length in 32-bit little-endian,
    the ciphertext. */
module Blob {
  import opened Arith

  type Byte = x: nat | x < 256
  type Bytes = seq<Byte>
  type Nonce = n: Bytes | |n| == 12 witness [0, 0, 0, 0, 0, 0, 0, 0, 0, 0, 0, 0]

  datatype Error = TooShort | LengthMismatch | CipherFailed
  datatype Result<T> = Ok(value: T) | Err(error: Error)

  datatype EncryptedData = EncryptedData(ciphertext: Bytes, nonce: Nonce)

  /** `(n as u32).to_le_bytes()` */
  function LittleEndian(n: nat): (b: Bytes)
    ensures |b| == 4
  {
    [n % 256, n / 0x100 % 256, n / 0x1_0000 % 256, n / 0x100_0000 % 256]
  }

  function FromLittleEndian(b: Bytes): nat
    requires |b| == 4
  {
    b[0] as nat + 0x100 * (b[1] as nat) + 0x1_0000 * (b[2] as nat) + 0x100_0000 * (b[3] as nat)
  }

  function Encode(e: EncryptedData): Bytes {
    e.nonce + LittleEndian(|e.ciphertext|) + e.ciphertext
  }

  function Decode(bytes: Bytes): Result<EncryptedData> {
    if |bytes| < 16 then Err(TooShort)
    else if |bytes| != 16 + FromLittleEndian(bytes[12..16]) then Err(LengthMismatch)
    else Ok(EncryptedData(bytes[16..], bytes[..12]))
  }

  method ToBytes(e: EncryptedData) returns (bytes: Bytes)
    ensures bytes == Encode(e)
  {
    bytes := [];
    bytes := bytes + e.nonce;
    bytes := bytes + LittleEndian(|e.ciphertext|);
    bytes := bytes + e.ciphertext;
  }

  method FromBytes(bytes: Bytes) returns (r: Result<EncryptedData>)
    ensures r == Decode(bytes)
  {
    if |bytes| < 16 {
      return Err(TooShort);
    }
    var nonce := bytes[0..12];
    var length := FromLittleEndian(bytes[12..16]);
    if |bytes| != 16 + length {
      return Err(LengthMismatch);
    }
    var ciphertext := bytes[16..16 + length];
    assert ciphertext == bytes[16..] && nonce == bytes[..12];
    r := Ok(EncryptedData(ciphertext, nonce));
  }

  lemma LengthRoundTrip(n: nat)
    ensures FromLittleEndian(LittleEndian(n)) == n % 0x1_0000_0000
  {
    var a := n / 0x100;
    var b := a / 0x100;
    var c := b / 0x100;
    assert n / 0x1_0000 == b && n / 0x100_0000 == c;
    FourDigits(n, a, b, c);
  }

  lemma FourDigits(n: nat, a: nat, b: nat, c: nat)
    requires a == n / 0x100 && b == a / 0x100 && c == b / 0x100
    ensures n % 256 + 0x100 * (a % 256) + 0x1_0000 * (b % 256) + 0x100_0000 * (c % 256) == n % 0x1_0000_0000
  {
    var d := c / 256;
    var x := n % 256 + 0x100 * (a % 256) + 0x1_0000 * (b % 256) + 0x100_0000 * (c % 256);
    assert n == d * 0x1_0000_0000 + x && x < 0x1_0000_0000;
    DivUnique(n, 0x1_0000_0000, d, x);
  }

  lemma LengthOnto(b: Bytes)
    requires |b| == 4
    ensures LittleEndian(FromLittleEndian(b)) == b
  {
    var n, b0, b1, b2, b3 := FromLittleEndian(b), b[0] as nat, b[1] as nat, b[2] as nat, b[3] as nat;
    assert n / 0x100 == b1 + 0x100 * b2 + 0x1_0000 * b3;
    assert n / 0x1_0000 == b2 + 0x100 * b3;
    assert n / 0x100_0000 == b3;
  }

  /** `from_bytes` inverts `to_bytes` exactly for ciphertexts below 2^32 bytes; a longer one is refused. */
  lemma DecodeInvertsEncode(e: EncryptedData)
    ensures Decode(Encode(e)) == if |e.ciphertext| < 0x1_0000_0000 then Ok(e) else Err(LengthMismatch)
  {
    var bytes := Encode(e);
    LengthRoundTrip(|e.ciphertext|);
    assert bytes[12..16] == LittleEndian(|e.ciphertext|);
    assert bytes[..12] == e.nonce;
    assert bytes[16..] == e.ciphertext;
  }

  /** Only byte strings that `to_bytes` produces are accepted, and they determine what was encoded. */
  lemma AcceptsOnlyEncodings(bytes: Bytes)
    ensures Decode(bytes).Ok? <==> exists e: EncryptedData :: |e.ciphertext| < 0x1_0000_0000 && Encode(e) == bytes
    ensures Decode(bytes).Ok? ==> Encode(Decode(bytes).value) == bytes
  {
    if Decode(bytes).Ok? {
      var e := Decode(bytes).value;
      LengthOnto(bytes[12..16]);
      assert bytes == bytes[..12] + bytes[12..16] + bytes[16..];
      assert Encode(e) == bytes;
      assert FromLittleEndian(bytes[12..16]) < 0x1_0000_0000;
    }
    if e: EncryptedData :| |e.ciphertext| < 0x1_0000_0000 && Encode(e) == bytes {
      DecodeInvertsEncode(e);
    }
  }
}
