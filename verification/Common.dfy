/** Vocabulary shared by every part of the model. */
module Common {

  datatype Option<+T> = None | Some(value: T)

  /** A paste identifier. The service draws it from 256 random bits, so the model treats it as never reused. */
  type Id = string

  /** Stored paste content, opaque to the server. */
  type Ciphertext = string

  /** SHA-256 (section 6.2 of FIPS 180-4) as a free constructor: all that is used of it is injectivity. */
  datatype Hash = Sha256(preimage: string)

  /** What decoding a plaintext upload yields; encrypted uploads are never decoded. */
  datatype Upload = Encrypted | Undecodable | Plaintext(content: Option<string>)

  /** A rate limit; every key is always checked against the same one. Windows are nanoseconds. */
  datatype Policy = Policy(limit: int, window: int)

  predicate PolicyOk(p: Policy) {
    p.limit > 0 && p.window > 0
  }

  /** Nanoseconds in a second. */
  const SECOND: int := 1_000_000_000

  lemma TimesKeepsOrder(a: int, b: int, n: int)
    requires a <= b && n >= 0
    ensures a * n <= b * n && n * a <= n * b
  {
    assert 0 <= (b - a) * n == b * n - a * n;
  }
}
