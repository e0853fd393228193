/** HKDF-SHA-256: the expand loop with its 8-bit block counter, against RFC 5869. */
module Hkdf {
  import opened ByteStrings
  import opened Primitives

  /** RFC 5869 section 2.3 asks for at most 255 blocks. */
  const RFC_MAX_BLOCKS := 255

  /** The loop gives up as soon as its counter wraps, which is one block earlier. */
  const LOOP_MAX_BYTES := 254 * HASH_BYTES

  /** Extract, section 2.2 of RFC 5869: an absent salt stands for a string of zeros. */
  function Extract(c: Suite, salt: Bytes, ikm: Bytes): (prk: Bytes)
    ensures |prk| == HASH_BYTES
  {
    Hmac(c, if salt == [] then Zeros(HASH_BYTES) else salt, ikm)
  }

  /** T(i) of section 2.3 of RFC 5869. */
  function T(c: Suite, prk: Bytes, info: Bytes, i: nat): (t: Bytes)
    requires prk != [] && i <= RFC_MAX_BLOCKS
    ensures |t| == if i == 0 then 0 else HASH_BYTES
  {
    if i == 0 then [] else Hmac(c, prk, T(c, prk, info, i - 1) + info + [i])
  }

  /** T(1) | T(2) | ... | T(n) */
  function Blocks(c: Suite, prk: Bytes, info: Bytes, n: nat): (r: Bytes)
    requires prk != [] && n <= RFC_MAX_BLOCKS
    ensures |r| == n * HASH_BYTES
  {
    if n == 0 then [] else Blocks(c, prk, info, n - 1) + T(c, prk, info, n)
  }

  function BlocksFor(len: nat): nat {
    (len + HASH_BYTES - 1) / HASH_BYTES
  }

  /** OKM of section 2.3 of RFC 5869. */
  function Okm(c: Suite, ikm: Bytes, salt: Bytes, info: Bytes, len: nat): (okm: Bytes)
    requires len <= RFC_MAX_BLOCKS * HASH_BYTES
    ensures |okm| == len
  {
    Blocks(c, Extract(c, salt, ikm), info, BlocksFor(len))[..len]
  }

  /** What the source computes: the standard's output up to the loop's own bound, and nothing
      for an empty input key, a non-positive length or a longer request. */
  function Derive(c: Suite, ikm: Bytes, salt: Bytes, info: Bytes, len: int): (r: Bytes)
    ensures |r| == if ikm == [] || len <= 0 || len > LOOP_MAX_BYTES then 0 else len
  {
    if ikm == [] || len <= 0 || len > LOOP_MAX_BYTES then [] else Okm(c, ikm, salt, info, len)
  }

  // HMAC under a non-empty key is never empty, so the source's two checks for an empty
  // intermediate key have no counterpart here.
  method HkdfSha256(c: Suite, ikm: Bytes, salt: Bytes, info: Bytes, outputLen: int) returns (out: Bytes)
    ensures out == Derive(c, ikm, salt, info, outputLen)
  {
    if outputLen <= 0 || ikm == [] {
      return [];
    }
    var normalizedSalt := salt;
    if salt == [] {
      normalizedSalt := Zeros(HASH_BYTES);
    }
    var prk := Hmac(c, normalizedSalt, ikm);
    out := [];
    var t: Bytes := [];
    var counter: byte := 1;
    while |out| < outputLen
      invariant 1 <= counter
      invariant t == T(c, prk, info, counter - 1)
      invariant out == Blocks(c, prk, info, counter - 1)
      invariant (counter - 2) * HASH_BYTES < outputLen
      decreases 256 - counter
    {
      t := Hmac(c, prk, t + info + [counter]);
      out := out + t;
      counter := (counter + 1) % 256;
      if counter == 0 {
        return [];
      }
    }
    assert counter - 1 == BlocksFor(outputLen);
    out := out[..outputLen];
  }

  lemma {:induction false} BlocksExtend(c: Suite, prk: Bytes, info: Bytes, m: nat, n: nat)
    requires prk != [] && m <= n <= RFC_MAX_BLOCKS
    ensures Blocks(c, prk, info, m) == Blocks(c, prk, info, n)[..m * HASH_BYTES]
    decreases n - m
  {
    if m < n {
      BlocksExtend(c, prk, info, m, n - 1);
    }
  }

  /** A shorter output is a prefix of a longer one. */
  lemma ShorterIsPrefix(c: Suite, ikm: Bytes, salt: Bytes, info: Bytes, short: nat, long: nat)
    requires short <= long <= LOOP_MAX_BYTES
    ensures Derive(c, ikm, salt, info, short) <= Derive(c, ikm, salt, info, long)
  {
    BlocksExtend(c, Extract(c, salt, ikm), info, BlocksFor(short), BlocksFor(long));
  }

  /** Over the lengths the standard allows, the code agrees with it exactly up to 254 blocks. */
  lemma AgreesWithRfc5869(c: Suite, ikm: Bytes, salt: Bytes, info: Bytes, len: int)
    requires ikm != [] && 1 <= len <= RFC_MAX_BLOCKS * HASH_BYTES
    ensures Derive(c, ikm, salt, info, len) == Okm(c, ikm, salt, info, len) <==> len <= 8128
  {
    assert |Okm(c, ikm, salt, info, len)| == len;
  }

  /** The output, by its own bytes: each block of 32 is the HMAC, under the HMAC of the input key
      under the salt, of the block before it, the info and the block's number. */
  lemma BlocksChain(c: Suite, ikm: Bytes, salt: Bytes, info: Bytes, len: nat, i: nat)
    requires ikm != [] && 1 <= i && 32 * i <= len <= LOOP_MAX_BYTES
    ensures
      var out := Derive(c, ikm, salt, info, len);
      var prk := c.mac(if salt == [] then Zeros(32) else salt, ikm);
      var before := if i == 1 then [] else out[32 * (i - 2)..32 * (i - 1)];
      out[32 * (i - 1)..32 * i] == c.mac(prk, before + info + [i])
  {
    var prk, n := Extract(c, salt, ikm), BlocksFor(len);
    var out := Derive(c, ikm, salt, info, len);
    BlockAt(c, prk, info, n, i);
    assert out[32 * (i - 1)..32 * i] == Blocks(c, prk, info, n)[32 * (i - 1)..32 * i];
    if i > 1 {
      BlockAt(c, prk, info, n, i - 1);
      assert out[32 * (i - 2)..32 * (i - 1)] == Blocks(c, prk, info, n)[32 * (i - 2)..32 * (i - 1)];
    }
  }

  /** Block i of an output is T(i), by its position in the output. */
  lemma {:induction false} BlockAt(c: Suite, prk: Bytes, info: Bytes, n: nat, i: nat)
    requires prk != [] && 1 <= i <= n <= RFC_MAX_BLOCKS
    ensures Blocks(c, prk, info, n)[(i - 1) * HASH_BYTES .. i * HASH_BYTES] == T(c, prk, info, i)
  {
    BlocksExtend(c, prk, info, i, n);
  }
}
