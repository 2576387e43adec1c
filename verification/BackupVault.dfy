/** The encrypted local backup vault: blob framing around an abstract authenticated cipher. */
module BackupVault {
  import opened Wrappers
  import opened ChangeTypes

  /** AES-GCM and SHA-256 as the vault uses them. */
  datatype Crypto = Crypto(
    encrypt: (Bytes, Bytes, Bytes) -> Bytes,
    decrypt: (Bytes, Bytes, Bytes) -> Option<Bytes>,
    sha256: Bytes -> string)

  /** Decryption inverts encryption, and every ciphertext carries its 16-byte tag. */
  ghost predicate Sound(c: Crypto) {
    forall nonce, plain, aad ::
      c.decrypt(nonce, c.encrypt(nonce, plain, aad), aad) == Some(plain) && |c.encrypt(nonce, plain, aad)| >= 16
  }

  const NONCE_LENGTH := 12
  const MINIMUM_BLOB := 32
  const LENGTH_LIMIT := 0x1_0000_0000

  /** `struct.pack("!I", n)`. */
  function PackLength(n: nat): (r: Bytes)
    requires n < LENGTH_LIMIT
    ensures |r| == 4
  {
    [(n / 0x100_0000) as Byte, (n / 0x1_0000 % 0x100) as Byte, (n / 0x100 % 0x100) as Byte, (n % 0x100) as Byte]
  }

  function UnpackLength(b: Bytes): nat
    requires |b| == 4
  {
    b[0] as nat * 0x100_0000 + b[1] as nat * 0x1_0000 + b[2] as nat * 0x100 + b[3] as nat
  }

  lemma {:induction false} UnpackInvertsPack(n: nat)
    requires n < LENGTH_LIMIT
    ensures UnpackLength(PackLength(n)) == n
  {
    var a, b, c := n / 0x100, n / 0x1_0000, n / 0x100_0000;
    assert a / 0x100 == b && b / 0x100 == c;
  }

  function Blob(c: Crypto, aad: Bytes, nonce: Bytes, content: Bytes): Bytes
    requires |aad| < LENGTH_LIMIT
  {
    PackLength(|aad|) + aad + nonce + c.encrypt(nonce, content, aad)
  }

  /** A file in the vault and the digest its reference carries. */
  datatype Reference = Reference(name: string, sha: string)

  function Open(c: Crypto, blob: Bytes, sha: string): Option<Bytes> {
    if |blob| < MINIMUM_BLOB then None
    else
      var aadLength := UnpackLength(blob[..4]);
      if |blob| < 4 + aadLength + NONCE_LENGTH then None
      else
        var aad := blob[4..4 + aadLength];
        var nonce := blob[4 + aadLength..4 + aadLength + NONCE_LENGTH];
        var plain := c.decrypt(nonce, blob[4 + aadLength + NONCE_LENGTH..], aad);
        if plain.Some? && c.sha256(plain.value) == sha then plain else None
  }

  /** What the vault stores it can read back, whatever the metadata and the nonce. */
  lemma {:induction false} OpenInvertsBlob(c: Crypto, aad: Bytes, nonce: Bytes, content: Bytes)
    requires Sound(c) && |aad| < LENGTH_LIMIT && |nonce| == NONCE_LENGTH
    ensures Open(c, Blob(c, aad, nonce, content), c.sha256(content)) == Some(content)
  {
    var blob, n := Blob(c, aad, nonce, content), |aad|;
    UnpackInvertsPack(n);
    assert |c.encrypt(nonce, content, aad)| >= 16;
    assert blob[..4] == PackLength(n);
    assert blob[4..4 + n] == aad;
    assert blob[4 + n..4 + n + NONCE_LENGTH] == nonce;
    assert blob[4 + n + NONCE_LENGTH..] == c.encrypt(nonce, content, aad);
  }

  class Vault {
    const crypto: Crypto
    /** Whether the disk never fails. */
    const reliable: bool
    /** Vault files of one changeset directory, by file name. */
    var blobs: map<string, Bytes>

    constructor (crypto: Crypto, reliable: bool)
      ensures this.crypto == crypto && blobs == map[] && this.reliable == reliable
    {
      this.crypto, blobs, this.reliable := crypto, map[], reliable;
    }

    /** Encrypt and write; the nonce is random. `None` when the disk fails. */
    method Store(name: string, aad: Bytes, content: Bytes) returns (r: Option<Reference>)
      modifies this
      ensures r.None? ==> blobs == old(blobs)
      ensures r.Some? ==> r.value == Reference(name, crypto.sha256(content))
      ensures r.Some? ==> blobs.Keys == old(blobs).Keys + {name} && forall m :: m in old(blobs) && m != name ==>
                blobs[m] == old(blobs)[m]
      ensures r.Some? && Sound(crypto) ==> Open(crypto, blobs[name], crypto.sha256(content)) == Some(content)
      ensures reliable && |aad| < LENGTH_LIMIT ==> r.Some?
    {
      if |aad| >= LENGTH_LIMIT { return None; }
      if !reliable { if * { return None; } }
      var nonce: Bytes := *;
      if |nonce| != NONCE_LENGTH { nonce := seq(NONCE_LENGTH, i => 0 as Byte); }
      if Sound(crypto) { OpenInvertsBlob(crypto, aad, nonce, content); }
      blobs := blobs[name := Blob(crypto, aad, nonce, content)];
      r := Some(Reference(name, crypto.sha256(content)));
    }

    /** Read back and decrypt; `None` when the file is gone, unreadable or tampered with. */
    method Load(ref: Reference) returns (r: Option<Bytes>)
      ensures r.Some? ==> ref.name in blobs && r == Open(crypto, blobs[ref.name], ref.sha)
      ensures r.Some? ==> crypto.sha256(r.value) == ref.sha
      ensures reliable && ref.name in blobs ==> r == Open(crypto, blobs[ref.name], ref.sha)
    {
      if ref.name !in blobs { return None; }
      if !reliable { if * { return None; } }
      r := Open(crypto, blobs[ref.name], ref.sha);
    }
  }
}
