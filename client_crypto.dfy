/**
  The browser-side helpers for firmware files: AES-GCM encryption with the
  authentication tag split off, the hex SHA-256 fingerprint, and the
  byte-to-character loop that prepares base64 encoding. The Web Crypto
  primitives (key generation, AES-GCM, SHA-256) and the random source are
  parameters.
 */
module ClientCrypto {
  import opened Basics
  import opened HexEncoding

  /** The IV length the code draws: 96 bits, the length section 5.2.1.1 of NIST SP 800-38D recommends. */
  const GCM_IV_LENGTH := 12
  /** The tag length Web Crypto's AES-GCM appends by default: 128 bits. */
  const GCM_TAG_LENGTH := 16
  const SHA256_LENGTH := 32

  /** An index argument of `slice`: negative counts from the end; both clamp to `[0, len]`. */
  function RelativeIndex(k: int, len: nat): (r: nat)
    ensures r <= len
    ensures 0 <= k <= len ==> r == k
    ensures k < 0 <= len + k ==> r == len + k
    ensures k > len ==> r == len
    ensures len + k < 0 ==> r == 0
  {
    if k < 0 then (if len + k < 0 then 0 else len + k)
    else if k > len then len
    else k
  }

  /**
    `s.slice(start, end)`, with `end` omitted as `None`: an in-range pair
    of indices gives that range, a negative index counts from the end, and
    an empty or inverted range gives nothing.
   */
  function Slice<T>(s: seq<T>, start: int, end: Option<int>): (r: seq<T>)
    ensures |r| <= |s|
    ensures 0 <= start <= |s| && end.None? ==> r == s[start..]
    ensures start < 0 <= |s| + start && end.None? ==> r == s[|s| + start..]
    ensures end.Some? && 0 <= start <= end.value <= |s| ==> r == s[start..end.value]
    ensures end.Some? && 0 <= start && end.value < 0 <= |s| + end.value && start <= |s| + end.value ==>
      r == s[start..|s| + end.value]
    ensures end.Some? && RelativeIndex(end.value, |s|) <= RelativeIndex(start, |s|) ==> r == []
  {
    var from, to := RelativeIndex(start, |s|), RelativeIndex(end.GetOr(|s|), |s|);
    if from < to then s[from..to] else []
  }

  /** `slice(-16)` and `slice(0, -16)`: the tag and the ciphertext before it. */
  function AuthTag(encrypted: seq<uint8>): seq<uint8> {
    Slice(encrypted, -GCM_TAG_LENGTH, None)
  }

  function Ciphertext(encrypted: seq<uint8>): seq<uint8> {
    Slice(encrypted, 0, Some(-GCM_TAG_LENGTH))
  }

  /**
    The split loses nothing: the ciphertext followed by the tag is the
    encryption output, and for any output of at least 16 bytes the tag is
    exactly its last 16 bytes. A shorter output would all be taken for the
    tag.
   */
  lemma TagSplit(encrypted: seq<uint8>)
    ensures Ciphertext(encrypted) + AuthTag(encrypted) == encrypted
    ensures |encrypted| >= GCM_TAG_LENGTH ==>
      && |AuthTag(encrypted)| == GCM_TAG_LENGTH
      && AuthTag(encrypted) == encrypted[|encrypted| - GCM_TAG_LENGTH..]
      && Ciphertext(encrypted) == encrypted[..|encrypted| - GCM_TAG_LENGTH]
    ensures |encrypted| < GCM_TAG_LENGTH ==> Ciphertext(encrypted) == [] && AuthTag(encrypted) == encrypted
  {
    var n := |encrypted|;
    if n >= GCM_TAG_LENGTH {
      assert encrypted[..n - GCM_TAG_LENGTH] + encrypted[n - GCM_TAG_LENGTH..] == encrypted;
    } else {
      assert encrypted[0..n] == encrypted;
    }
  }

  /** What `encryptFile` returns. */
  datatype Encrypted = Encrypted(encryptedData: seq<uint8>, iv: seq<uint8>, authTag: seq<uint8>)

  /** `getRandomValues(new Uint8Array(n))`: `n` bytes from the random source. */
  function RandomBytes(n: nat, entropy: nat -> uint8): (r: seq<uint8>)
    ensures |r| == n
  {
    seq(n, i requires 0 <= i < n => entropy(i))
  }

  /**
    `encryptFile`: a fresh 12-byte IV, AES-GCM under the generated key, and
    the output split into ciphertext and tag; putting them back together
    gives the AES-GCM output for that key, IV and file.
   */
  function EncryptFile(file: seq<uint8>, key: seq<uint8>, entropy: nat -> uint8,
                       gcmEncrypt: (seq<uint8>, seq<uint8>, seq<uint8>) -> seq<uint8>): (r: Encrypted)
    ensures |r.iv| == GCM_IV_LENGTH
    ensures r.encryptedData + r.authTag == gcmEncrypt(key, r.iv, file)
    ensures |gcmEncrypt(key, r.iv, file)| >= GCM_TAG_LENGTH ==> |r.authTag| == GCM_TAG_LENGTH
  {
    var iv := RandomBytes(GCM_IV_LENGTH, entropy);
    var encrypted := gcmEncrypt(key, iv, file);
    TagSplit(encrypted);
    Encrypted(Ciphertext(encrypted), iv, AuthTag(encrypted))
  }

  /**
    `generateSHA256`: the digest in lowercase hex. A 32-byte SHA-256 digest
    gives 64 characters, and the digest can be read back from them.
   */
  function GenerateSha256(buffer: seq<uint8>, digest: seq<uint8> -> seq<uint8>): (r: string)
    ensures |r| == 2 * |digest(buffer)|
    ensures |digest(buffer)| == SHA256_LENGTH ==> |r| == 64
    ensures IsHexString(r) && Unhex(r) == digest(buffer)
  {
    UnhexHex(digest(buffer));
    Hex(digest(buffer))
  }

  /**
    The loop of `arrayBufferToBase64` before `btoa`: one character per
    byte, with the byte as its code.
   */
  method BinaryString(bytes: seq<uint8>) returns (binary: string)
    ensures |binary| == |bytes|
    ensures forall i :: 0 <= i < |bytes| ==> binary[i] as int == bytes[i]
  {
    binary := "";
    var i := 0;
    while i < |bytes|
      invariant 0 <= i <= |bytes|
      invariant |binary| == i
      invariant forall k :: 0 <= k < i ==> binary[k] as int == bytes[k]
    {
      binary := binary + [bytes[i] as char];
      i := i + 1;
    }
  }
}
