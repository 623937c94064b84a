/** The pseudorandom function of TLS 1.2 and the keys cut out of its output. HMAC-SHA256 is
    any function from a key and a message to 32 bytes. */
module TlsPrf {
  import opened Bytes

  type Digest = s: seq<byte> | |s| == 32 witness seq(32, i => 0)

  type Hmac = (seq<byte>, seq<byte>) -> Digest

  function Ascii(s: string): (b: seq<byte>)
    ensures |b| == |s|
  {
    if s == [] then [] else [s[0] as int % 256] + Ascii(s[1..])
  }

  // ------------------------------------------------------------------
  // P_hash of section 5 of RFC 5246

  /** A(i). */
  function A(h: Hmac, secret: seq<byte>, seed: seq<byte>, i: nat): seq<byte> {
    if i == 0 then seed else h(secret, A(h, secret, seed, i - 1))
  }

  /** The first `k` blocks of the stream P_hash(secret, seed). */
  function Blocks(h: Hmac, secret: seq<byte>, seed: seq<byte>, k: nat): (s: seq<byte>)
    ensures |s| == 32 * k
  {
    if k == 0 then []
    else Blocks(h, secret, seed, k - 1) + h(secret, A(h, secret, seed, k) + seed)
  }

  /** The first `n` bytes of the stream. */
  function PHash(h: Hmac, secret: seq<byte>, seed: seq<byte>, n: nat): (s: seq<byte>)
    ensures |s| == n
  {
    Blocks(h, secret, seed, n / 32 + 1)[..n]
  }

  lemma {:induction false} BlocksExtend(h: Hmac, secret: seq<byte>, seed: seq<byte>, j: nat, k: nat)
    requires j <= k
    ensures Blocks(h, secret, seed, j) <= Blocks(h, secret, seed, k)
    decreases k
  {
    if j < k {
      BlocksExtend(h, secret, seed, j, k - 1);
    }
  }

  /** The bytes do not depend on how many blocks are computed, as long as there are enough. */
  lemma AnyEnoughBlocks(h: Hmac, secret: seq<byte>, seed: seq<byte>, n: nat, k: nat)
    requires n <= 32 * k
    ensures PHash(h, secret, seed, n) == Blocks(h, secret, seed, k)[..n]
  {
    var m := n / 32 + 1;
    if m <= k {
      BlocksExtend(h, secret, seed, m, k);
    } else {
      BlocksExtend(h, secret, seed, k, m);
    }
  }

  /** A shorter output is a prefix of a longer one. */
  lemma ShorterIsPrefix(h: Hmac, secret: seq<byte>, seed: seq<byte>, n: nat, m: nat)
    requires n <= m
    ensures PHash(h, secret, seed, n) == PHash(h, secret, seed, m)[..n]
  {
    AnyEnoughBlocks(h, secret, seed, n, m / 32 + 1);
  }

  /** The first two blocks, written out as in section 5 of RFC 5246. */
  lemma TwoBlocks(h: Hmac, secret: seq<byte>, seed: seq<byte>)
    ensures var a1 := h(secret, seed);
            var a2 := h(secret, a1);
            PHash(h, secret, seed, 64) == h(secret, a1 + seed) + h(secret, a2 + seed)
  {
    assert A(h, secret, seed, 1) == h(secret, A(h, secret, seed, 0));
    assert A(h, secret, seed, 2) == h(secret, A(h, secret, seed, 1));
    assert Blocks(h, secret, seed, 0) == [];
    assert Blocks(h, secret, seed, 1) == [] + h(secret, A(h, secret, seed, 1) + seed);
    AnyEnoughBlocks(h, secret, seed, 64, 2);
    var two := Blocks(h, secret, seed, 2);
    assert two[..64] == two;
  }

  /** The loop: `chain` is A(i) and is replaced by A(i + 1) in every round. */
  method Prf(h: Hmac, secret: seq<byte>, lbl: seq<byte>, seed: seq<byte>, need: nat) returns (r: seq<byte>)
    ensures r == PHash(h, secret, lbl + seed, need)
  {
    var out: seq<byte> := [];
    var chain := lbl + seed;
    ghost var i := 0;
    while |out| < need
      invariant chain == A(h, secret, lbl + seed, i)
      invariant out == Blocks(h, secret, lbl + seed, i)
      decreases need - |out|
    {
      var next := h(secret, chain);
      var message := next + lbl + seed;
      assert message == next + (lbl + seed);
      out := out + h(secret, message);
      chain := next;
      i := i + 1;
    }
    AnyEnoughBlocks(h, secret, lbl + seed, need, i);
    r := out[..need];
  }

  // ------------------------------------------------------------------
  // The key block of section 6.3 of RFC 5246

  const MAC_KEY_LENGTH := 20
  const ENC_KEY_LENGTH := 16
  const RECORD_IV_LENGTH := 16

  function KeyBlock(h: Hmac, master: seq<byte>, clientRandom: seq<byte>, serverRandom: seq<byte>): (s: seq<byte>)
    ensures |s| == 104
  {
    PHash(h, master, Ascii("key expansion") + (serverRandom + clientRandom), 104)
  }

  /** The cipher suite RSA_AES128_SHA1. */
  class CipherSuite {
    var clientMacKey: seq<byte>
    var serverMacKey: seq<byte>
    var clientKey: seq<byte>
    var serverKey: seq<byte>
    var clientIv: seq<byte>
    var serverIv: seq<byte>

    ghost function Block(): seq<byte>
      reads this
    {
      clientMacKey + serverMacKey + clientKey + serverKey + clientIv + serverIv
    }

    constructor ()
      ensures clientMacKey == [] && serverMacKey == [] && clientKey == []
      ensures serverKey == [] && clientIv == [] && serverIv == []
    {
      clientMacKey, serverMacKey, clientKey := [], [], [];
      serverKey, clientIv, serverIv := [], [], [];
    }

    /** Six adjacent slices that cover the key block, with no gap and no overlap. */
    method Init(h: Hmac, master: seq<byte>, clientRandom: seq<byte>, serverRandom: seq<byte>)
      requires |clientRandom| == 32 && |serverRandom| == 32
      modifies this
      ensures Block() == KeyBlock(h, master, clientRandom, serverRandom)
      ensures |clientMacKey| == 20 && |serverMacKey| == 20
      ensures |clientKey| == 16 && |serverKey| == 16 && |clientIv| == 16 && |serverIv| == 16
    {
      hide PHash, Ascii, A, Blocks;
      var seed := serverRandom + clientRandom;
      var size := 2 * (MAC_KEY_LENGTH + ENC_KEY_LENGTH + RECORD_IV_LENGTH);
      var block := Prf(h, master, Ascii("key expansion"), seed, size);
      var off := 0;
      clientMacKey := block[off..off + MAC_KEY_LENGTH];
      off := off + MAC_KEY_LENGTH;
      serverMacKey := block[off..off + MAC_KEY_LENGTH];
      off := off + MAC_KEY_LENGTH;
      clientKey := block[off..off + ENC_KEY_LENGTH];
      off := off + ENC_KEY_LENGTH;
      serverKey := block[off..off + ENC_KEY_LENGTH];
      off := off + ENC_KEY_LENGTH;
      clientIv := block[off..off + RECORD_IV_LENGTH];
      off := off + RECORD_IV_LENGTH;
      serverIv := block[off..off + RECORD_IV_LENGTH];
      SixSlices(block);
    }
  }

  lemma SixSlices(b: seq<byte>)
    requires |b| == 104
    ensures b[0..20] + b[20..40] + b[40..56] + b[56..72] + b[72..88] + b[88..104] == b
  {
  }

  // ------------------------------------------------------------------
  // SRTP keys of section 4.2 of RFC 5764

  datatype SrtpKeys = SrtpKeys(recv: seq<byte>, send: seq<byte>)

  function SrtpBlock(h: Hmac, master: seq<byte>, clientRandom: seq<byte>, serverRandom: seq<byte>): (s: seq<byte>)
    ensures |s| == 60
  {
    PHash(h, master, Ascii("EXTRACTOR-dtls_srtp") + (clientRandom + serverRandom), 60)
  }

  /** The two keys come first and the two salts after them; each side's key is followed by
      its own salt. */
  function SplitSrtp(block: seq<byte>): (k: SrtpKeys)
    requires |block| == 60
    ensures |k.recv| == 30 && |k.send| == 30
    ensures k.recv[..16] + k.send[..16] + k.recv[16..] + k.send[16..] == block
  {
    var clientKey, serverKey := block[..16], block[16..32];
    var clientSalt, serverSalt := block[32..46], block[46..60];
    SrtpKeys(clientKey + clientSalt, serverKey + serverSalt)
  }
}
