/**
 * The JWT settings of the Spring backend: the HMAC secret is padded to the 32 characters HS256
 * needs, and the token lifetime falls back to seven days. Signing itself is not modelled.
 */
module Jwt {
  import opened Common

  const DefaultSecret: string := "CHANGE_ME_CHANGE_ME_CHANGE_ME_CHANGE_ME_32CHARS"

  /** HS256 needs a key of at least 256 bits: 32 one-byte characters. */
  const MinSecretLength: nat := 32

  /** Seven days in milliseconds. */
  const DefaultExpirationMs: int := 604800000

  /** A positive multiple of a positive number is at least that number. */
  lemma {:induction false} MulAtLeast(e: int, n: int)
    requires e >= 1 && n > 0
    ensures e * n >= n
  {
    if e > 1 {
      MulAtLeast(e - 1, n);
      assert e * n == (e - 1) * n + n;
    }
  }

  /** Adding the divisor keeps the remainder. */
  lemma ModShift(k: int, n: int)
    requires n > 0
    ensures (k + n) % n == k % n
  {
    var d1, m1 := k / n, k % n;
    var d2, m2 := (k + n) / n, (k + n) % n;
    var e := d2 - d1 - 1;
    assert e * n == d2 * n - d1 * n - n;
    assert e * n == m1 - m2;
    if e >= 1 {
      MulAtLeast(e, n);
    } else if e <= -1 {
      MulAtLeast(-e, n);
    }
    assert e == 0;
  }

  /** If `k` lies in the `q`-th block of length `n`, its remainder is its offset in that block. */
  lemma {:induction false} ModInBlock(k: int, q: nat, n: int)
    requires n > 0 && q * n <= k < q * n + n
    ensures k % n == k - q * n
  {
    if q > 0 {
      assert (q - 1) * n == q * n - n;
      ModInBlock(k - n, q - 1, n);
      ModShift(k - n, n);
    }
  }

  /** The configured secret as the service first reads it: a missing one as "", trimmed. */
  function TrimmedSecret(secret: Option<string>): string
  {
    if secret.None? then "" else JavaTrim(secret.value)
  }

  /** The `StringBuilder` loop: appends `s` until at least 32 characters are there. */
  method RepeatSecret(s: string) returns (sb: string)
    requires s != []
    ensures |sb| >= MinSecretLength
    ensures forall i :: 0 <= i < |sb| ==> sb[i] == s[i % |s|]
  {
    sb := "";
    ghost var reps: nat := 0;
    while |sb| < MinSecretLength
      invariant |sb| == reps * |s|
      invariant forall i :: 0 <= i < |sb| ==> sb[i] == s[i % |s|]
      decreases MinSecretLength - |sb|
    {
      forall i | |sb| <= i < |sb| + |s| ensures (sb + s)[i] == s[i % |s|] {
        ModInBlock(i, reps, |s|);
      }
      sb := sb + s;
      reps := reps + 1;
    }
  }

  /**
   * `normalizeSecret`: a missing secret reads as "", which is then trimmed; an empty result is
   * replaced by the default; a secret shorter than 32 characters is repeated until it reaches 32
   * and cut there, so that character `i` is the secret's character `i mod |s|`; a longer one is
   * kept. The key always begins with the trimmed secret, or is the default when that is empty.
   */
  method NormalizeSecret(secret: Option<string>) returns (key: string)
    ensures |key| >= MinSecretLength
    ensures TrimmedSecret(secret) == "" ==> key == DefaultSecret
    ensures |TrimmedSecret(secret)| >= MinSecretLength ==> key == TrimmedSecret(secret)
    ensures var s := TrimmedSecret(secret);
      0 < |s| < MinSecretLength ==>
        |key| == MinSecretLength && StartsWith(key, s) &&
        forall i :: 0 <= i < |key| ==> key[i] == s[i % |s|]
  {
    var s := TrimmedSecret(secret);
    if s == "" {
      // the default has 47 characters, so the padding below never applies to it
      key := DefaultSecret;
    } else if |s| < MinSecretLength {
      var sb := RepeatSecret(s);
      key := sb[..MinSecretLength];
      forall i | 0 <= i < |s| ensures key[i] == s[i] {
        ModInBlock(i, 0, |s|);
      }
    } else {
      key := s;
    }
  }

  /** `app.jwt.expiration-ms` when positive, otherwise seven days: the lifetime is always positive. */
  function ExpirationMs(configured: int): (r: int)
    ensures r > 0
    ensures configured > 0 ==> r == configured
    ensures configured <= 0 ==> r == DefaultExpirationMs
  {
    if configured > 0 then configured else DefaultExpirationMs
  }

  /** `generateToken`: the token expires one lifetime after it is issued, strictly later. */
  function TokenExpiry(issuedAt: int, configured: int): (r: int)
    ensures r > issuedAt
    ensures r - issuedAt == ExpirationMs(configured)
  {
    issuedAt + ExpirationMs(configured)
  }
}
