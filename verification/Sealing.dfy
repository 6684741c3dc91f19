/**
 Sealing of credentials (src/gp_export.c, rust/gssapi-sys/src/seal.rs): the loop that
 probes the cipher for its block boundary, the padding it adds, and the padding the
 decryption strips.  The cipher is abstract, as section 5.3 of RFC 3961 allows it to
 be: its output is a constant longer than the input rounded up to the block, and
 decryption may append filler up to the block.
 */
module Sealing {
  import opened SeqLib
  import opened Wire

  const ENC_MIN_PAD_LEN := 8
  const MAX_LEN := 0xFFFF_FFFF

  datatype Cipher = Cipher(block: nat, overhead: nat,
                           encrypt: seq<byte> -> seq<byte>, decrypt: seq<byte> -> Option<seq<byte>>)

  /** How far a length is from the next block boundary. */
  function Gap(n: nat, block: nat): (g: nat)
    requires block >= 1
    ensures g < block
  {
    if n % block == 0 then 0 else block - n % block
  }

  /** krb5_c_encrypt_length. */
  function Length(c: Cipher, n: nat): nat
    requires c.block >= 1
  {
    c.overhead + n + Gap(n, c.block)
  }

  predicate LawfulOn(c: Cipher, p: seq<byte>)
    requires c.block >= 1
  {
    && |c.encrypt(p)| == Length(c, |p|)
    && var d := c.decrypt(c.encrypt(p));
       d.Some? && p <= d.value && |d.value| == |p| + Gap(|p|, c.block)
  }

  ghost predicate Lawful(c: Cipher) {
    c.block >= 1 && forall p: seq<byte> :: LawfulOn(c, p)
  }

  // ----- block arithmetic -----

  lemma {:induction false} ModUnique(q: int, r: nat, b: nat)
    requires r < b
    ensures (q * b + r) % b == r
  {
    var n := q * b + r;
    assert n == n / b * b + n % b;
    var d := q - n / b;
    assert d * b == n % b - r;
    assert d >= 1 ==> d * b >= b;
    assert d <= -1 ==> d * b <= -(b as int);
  }

  lemma {:induction false} ModNext(n: nat, b: nat)
    requires b >= 1
    ensures (n + 1) % b == if n % b == b - 1 then 0 else n % b + 1
  {
    var q := n / b;
    assert n == q * b + n % b;
    if n % b == b - 1 {
      assert n + 1 == (q + 1) * b + 0;
      ModUnique(q + 1, 0, b);
    } else {
      ModUnique(q, n % b + 1, b);
    }
  }

  lemma {:induction false} GapNext(n: nat, b: nat)
    requires b >= 1
    ensures Gap(n, b) > 0 ==> Gap(n + 1, b) == Gap(n, b) - 1
    ensures Gap(n, b) == 0 ==> Gap(n + 1, b) == b - 1
  {
    ModNext(n, b);
  }

  /** Inside a block every step closes the gap by one, and the step past it opens a new block. */
  lemma {:induction false} GapCloses(n: nat, i: nat, b: nat)
    requires b >= 1 && i <= Gap(n, b)
    ensures Gap(n + i, b) == Gap(n, b) - i
    decreases i
  {
    if i > 0 {
      GapCloses(n, i - 1, b);
      GapNext(n + i - 1, b);
    }
  }

  // ----- sealing -----

  function Repeat(x: byte, n: nat): (r: seq<byte>)
    ensures |r| == n
  {
    seq(n, _ => x)
  }

  /**
   The padding for a plaintext of `len` bytes: none on a boundary, else at least 8 up to the boundary if the
   probe reaches it.
   */
  function PadFor(len: nat, block: nat): (pad: byte)
    requires block >= 1
  {
    if len % block == 0 then 0
    else if Gap(len + ENC_MIN_PAD_LEN, block) < 15 then ENC_MIN_PAD_LEN + Gap(len + ENC_MIN_PAD_LEN, block)
    else ENC_MIN_PAD_LEN
  }

  function Padded(p: seq<byte>, block: nat): seq<byte>
    requires block >= 1
  {
    p + Repeat(PadFor(|p|, block), PadFor(|p|, block))
  }

  /** The probing part of gp_encrypt_buffer and seal_inner. */
  method Probe(c: Cipher, len: nat) returns (pad: byte, cipherlen: nat)
    requires c.block >= 1
    ensures pad == PadFor(len, c.block) && cipherlen == Length(c, len + pad)
  {
    pad := 0;
    cipherlen := Length(c, len);
    var padcheck := Length(c, len + 1);
    GapNext(len, c.block);
    if padcheck == cipherlen {
      pad := ENC_MIN_PAD_LEN;
      cipherlen := Length(c, len + pad);
      var i := 0;
      while i < 15
        invariant 0 <= i <= 15 && i <= Gap(len + pad, c.block)
      {
        padcheck := Length(c, len + pad + i + 1);
        GapCloses(len + pad, i, c.block);
        GapNext(len + pad + i, c.block);
        if padcheck > cipherlen {
          pad := pad + i;
          break;
        }
        i := i + 1;
      }
    }
  }

  /** What can go wrong around the probe: the length query, the two allocations, the cipher, the copy of its output. */
  datatype Faults = Faults(lengths: bool, padded: bool, buffer: bool, cipher: bool, copy: bool)

  /**
   gp_encrypt_buffer, seal_inner: `blob` is the ciphertext, `cipherlen` the size of the buffer allocated for it.
   The buffer is always exactly as long as the ciphertext, whichever way the probe ended; there is no blob
   exactly when the plaintext is too long or something on the way fails.
   */
  method Seal(c: Cipher, p: seq<byte>, faults: Faults) returns (blob: Option<seq<byte>>, cipherlen: nat)
    requires Lawful(c)
    ensures blob.None? <==>
            || |p| > MAX_LEN || faults.lengths || faults.buffer || faults.cipher || faults.copy
            || (faults.padded && |p| % c.block != 0)
    ensures blob.Some? ==> blob.value == c.encrypt(Padded(p, c.block)) && cipherlen == |blob.value|
  {
    if |p| > MAX_LEN {
      return None, 0;
    }
    if faults.lengths {
      return None, 0;
    }
    var pad: byte;
    pad, cipherlen := Probe(c, |p|);
    var padded := p;
    if pad != 0 {
      if faults.padded {
        return None, cipherlen;
      }
      padded := p + Repeat(pad, pad);
    }
    assert padded == Padded(p, c.block) && LawfulOn(c, padded);
    if faults.buffer || faults.cipher || faults.copy {
      return None, cipherlen;
    }
    blob := Some(c.encrypt(padded));
  }

  /** When the probe reaches the boundary, the pad is the least of at least 8 bytes that aligns the plaintext. */
  lemma {:induction false} PadIsLeast(len: nat, block: nat, q: nat)
    requires block >= 1 && len % block != 0 && Gap(len + ENC_MIN_PAD_LEN, block) < 15
    ensures (len + PadFor(len, block)) % block == 0 && PadFor(len, block) >= ENC_MIN_PAD_LEN
    ensures ENC_MIN_PAD_LEN <= q && (len + q) % block == 0 ==> PadFor(len, block) <= q
  {
    var n := len + ENC_MIN_PAD_LEN;
    GapCloses(n, Gap(n, block), block);
    if ENC_MIN_PAD_LEN <= q < PadFor(len, block) { GapCloses(n, q - ENC_MIN_PAD_LEN, block); }
  }

  // ----- unsealing -----

  /** The text ends in `pad` bytes of value `pad`, at least 8 of them and not all but one of the text. */
  predicate PadShaped(d: seq<byte>) {
    && d != []
    && var pad := d[|d| - 1];
       ENC_MIN_PAD_LEN <= pad < |d| - 1 && forall k :: |d| - pad <= k < |d| ==> d[k] == pad
  }

  function Depadded(d: seq<byte>): seq<byte> {
    if PadShaped(d) then d[..|d| - d[|d| - 1]] else d
  }

  /** `d` is `r` followed by a pad that says its own length. */
  predicate PaddedBy(d: seq<byte>, r: seq<byte>, pad: byte) {
    8 <= pad && |r| >= 2 && d == r + Repeat(pad, pad)
  }

  /** What stripping gives: the text before such a pad, or the text unchanged when it does not end in one. */
  lemma {:induction false} DepadExact(d: seq<byte>, r: seq<byte>, pad: byte)
    ensures PaddedBy(d, r, pad) ==> Depadded(d) == r
    ensures PadShaped(d) <==> PaddedBy(d, Depadded(d), if d == [] then 0 else d[|d| - 1])
    ensures !PadShaped(d) ==> Depadded(d) == d
  {
    if PadShaped(d) {
      var n := d[|d| - 1];
      assert d[|d| - n..] == Repeat(n, n);
    }
  }

  /** The end of gp_decrypt_buffer and unseal_inner. */
  method Depad(d: seq<byte>) returns (r: seq<byte>)
    ensures r == Depadded(d)
  {
    r := d;
    if |d| >= 1 {
      var i := |d| - 1;
      var pad := d[i];
      if pad >= ENC_MIN_PAD_LEN && pad < i {
        var j: nat := pad;
        while j > 0
          invariant 0 <= j <= pad
          invariant forall k :: i - pad < k <= i - j ==> d[k] == pad
        {
          if pad != d[i - (j - 1)] { break; }
          j := j - 1;
        }
        if j == 0 {
          r := d[..|d| - pad];
        }
      }
    }
  }

  function Unsealed(c: Cipher, blob: seq<byte>): Option<seq<byte>> {
    match c.decrypt(blob)
    case None => None
    case Some(d) => Some(Depadded(d))
  }

  /** gp_decrypt_buffer, unseal_inner. */
  method Unseal(c: Cipher, blob: seq<byte>) returns (r: Option<seq<byte>>)
    ensures r == Unsealed(c, blob)
  {
    match c.decrypt(blob)
    case None => r := None;
    case Some(d) =>
      var text := Depad(d);
      r := Some(text);
  }

  // ----- the round trip -----

  /** Padding that ends the text on a boundary is stripped exactly, if two bytes or more precede it. */
  lemma {:induction false} DepadPadded(p: seq<byte>, pad: byte)
    requires pad >= ENC_MIN_PAD_LEN
    ensures Depadded(p + Repeat(pad, pad)) == p <==> |p| >= 2
  {
  }

  /** Padding followed by filler is never stripped exactly. */
  lemma {:induction false} DepadMissed(p: seq<byte>, filler: seq<byte>)
    requires filler != []
    ensures Depadded(p + Repeat(ENC_MIN_PAD_LEN, ENC_MIN_PAD_LEN) + filler) != p
  {
    var d := p + Repeat(ENC_MIN_PAD_LEN, ENC_MIN_PAD_LEN) + filler;
    assert d[|p|] == ENC_MIN_PAD_LEN;
  }

  /**
   Exactly when sealing and unsealing give the credential back, for every block size and every
   plaintext: on a block boundary, when the plaintext is not itself pad-shaped; elsewhere, when it
   has two bytes or more and the boundary is within the fifteen lengths that the loop probes.
   */
  lemma {:induction false} SealRoundTrip(c: Cipher, p: seq<byte>)
    requires Lawful(c)
    ensures Unsealed(c, c.encrypt(Padded(p, c.block))) == Some(p) <==>
            if |p| % c.block == 0 then !PadShaped(p)
            else |p| >= 2 && Gap(|p| + ENC_MIN_PAD_LEN, c.block) < 15
  {
    var text := Padded(p, c.block);
    assert LawfulOn(c, text);
    var d := c.decrypt(c.encrypt(text)).value;
    if |p| % c.block == 0 {
      assert text == p && d == p;
    } else {
      var pad := PadFor(|p|, c.block);
      if Gap(|p| + ENC_MIN_PAD_LEN, c.block) < 15 {
        PadIsLeast(|p|, c.block, 0);
        assert d == text;
        DepadPadded(p, pad);
      } else {
        assert d == text + d[|text|..];
        DepadMissed(p, d[|text|..]);
      }
    }
  }

  /** Up to block size 15 the loop always finds the boundary. */
  lemma {:induction false} SmallBlocks(c: Cipher, p: seq<byte>)
    requires Lawful(c) && c.block <= 15 && |p| >= 2
    ensures Unsealed(c, c.encrypt(Padded(p, c.block))) == Some(p) <==> |p| % c.block != 0 || !PadShaped(p)
  {
    SealRoundTrip(c, p);
  }

  /** At block size 16 it misses exactly the lengths with (len + 8) mod 16 = 1. */
  lemma {:induction false} BlockSixteen(c: Cipher, p: seq<byte>)
    requires Lawful(c) && c.block == 16 && |p| >= 2 && |p| % 16 != 0
    ensures Unsealed(c, c.encrypt(Padded(p, c.block))) == Some(p) <==> (|p| + 8) % 16 != 1
  {
    SealRoundTrip(c, p);
  }

  // ----- inputs on which the round trip fails -----

  /** A cipher of block size 16 that does nothing but append zero filler. */
  function Fill(p: seq<byte>): seq<byte> { p + Repeat(0, Gap(|p|, 16)) }
  function Open(d: seq<byte>): Option<seq<byte>> { Some(d) }
  const SIXTEEN := Cipher(16, 0, Fill, Open)

  /** Nine zero bytes: the boundary is fifteen bytes past the probe's start and is missed. */
  lemma {:induction false} BoundaryMissed()
    ensures Lawful(SIXTEEN)
    ensures Unsealed(SIXTEEN, SIXTEEN.encrypt(Padded(Repeat(0, 9), 16))) != Some(Repeat(0, 9))
  {
  }

  /** Sixteen bytes of value 8: already aligned, but they end like padding. */
  lemma {:induction false} PlaintextStripped()
    ensures Lawful(SIXTEEN)
    ensures Unsealed(SIXTEEN, SIXTEEN.encrypt(Padded(Repeat(8, 16), 16))) != Some(Repeat(8, 16))
  {
  }
}
