/** Message signatures (MS-SMB2 section 3.1.4.1): a 16-byte MAC over the message with the signature field
    read as zero, stored in that field. The MAC itself is an arbitrary function. */
module Signing {
  import opened Bytes
  import opened Header

  datatype Algo = HmacSha256 | AesCmac

  type Key = Sig

  /** MAC(algorithm, key, message), already cut to 16 bytes. */
  type MacFn = (Algo, Key, bytes) -> Sig

  function Blanked(msg: bytes): (r: bytes)
    requires HEADER_LEN <= |msg|
    ensures |r| == |msg|
  {
    msg[..SIGNATURE_AT] + Zeros(16) + msg[HEADER_LEN..]
  }

  /** `compute_mac_zeroed_signature`. */
  function MacOf(msg: bytes, key: Key, algo: Algo, mac: MacFn): Sig
    requires HEADER_LEN <= |msg|
  {
    mac(algo, key, Blanked(msg))
  }

  /** The message with its signature field filled in. */
  function Signed(msg: bytes, key: Key, algo: Algo, mac: MacFn): (r: bytes)
    requires HEADER_LEN <= |msg|
    ensures |r| == |msg|
  {
    Patch(msg, SIGNATURE_AT, MacOf(msg, key, algo, mac))
  }

  /** What the receiver demands. */
  predicate Authentic(msg: bytes, key: Key, algo: Algo, mac: MacFn) {
    HEADER_LEN <= |msg| && msg[SIGNATURE_AT..HEADER_LEN] == MacOf(msg, key, algo, mac)
  }

  /** `sign`, in place on bytes `lo..hi` of a buffer; too short a message is left alone. */
  method Sign(buf: array<byte>, lo: nat, hi: nat, key: Key, algo: Algo, mac: MacFn) returns (ok: bool)
    requires lo <= hi <= buf.Length
    modifies buf
    ensures ok == (hi - lo >= HEADER_LEN)
    ensures buf[..lo] == old(buf[..lo]) && buf[hi..] == old(buf[hi..])
    ensures buf[lo..hi] == if ok then Signed(old(buf[lo..hi]), key, algo, mac) else old(buf[lo..hi])
  {
    if hi - lo < HEADER_LEN {
      return false;
    }
    var m := MacOf(buf[lo..hi], key, algo, mac);
    ghost var was := buf[..];
    for i := 0 to 16
      invariant forall k :: 0 <= k < buf.Length ==>
        buf[k] == if lo + SIGNATURE_AT <= k < lo + SIGNATURE_AT + i then m[k - lo - SIGNATURE_AT] else was[k]
    {
      buf[lo + SIGNATURE_AT + i] := m[i];
    }
    assert buf[lo..hi] == Patch(was[lo..hi], SIGNATURE_AT, m);
    return true;
  }

  /** Bitwise OR and XOR of `bits`-bit words, bit by bit. */
  function Or(x: nat, y: nat, bits: nat): nat {
    if bits == 0 then 0 else (if x % 2 == 1 || y % 2 == 1 then 1 else 0) + 2 * Or(x / 2, y / 2, bits - 1)
  }

  function Xor(x: nat, y: nat, bits: nat): nat {
    if bits == 0 then 0 else (if x % 2 != y % 2 then 1 else 0) + 2 * Xor(x / 2, y / 2, bits - 1)
  }

  function Pow2(bits: nat): nat {
    if bits == 0 then 1 else 2 * Pow2(bits - 1)
  }

  lemma {:induction false} XorZero(x: nat, y: nat, bits: nat)
    requires x < Pow2(bits) && y < Pow2(bits)
    ensures Xor(x, y, bits) == 0 <==> x == y
    ensures Xor(x, y, bits) < Pow2(bits)
  {
    if bits > 0 {
      XorZero(x / 2, y / 2, bits - 1);
    }
  }

  lemma {:induction false} OrZero(x: nat, y: nat, bits: nat)
    requires x < Pow2(bits) && y < Pow2(bits)
    ensures Or(x, y, bits) == 0 <==> x == 0 && y == 0
    ensures Or(x, y, bits) < Pow2(bits)
  {
    if bits > 0 {
      OrZero(x / 2, y / 2, bits - 1);
    }
  }

  lemma ByteWidth()
    ensures Pow2(8) == 0x100
  {
    assert Pow2(4) == 16 && Pow2(6) == 64;
  }

  /** The OR-of-XORs loop is array equality. */
  method ConstantTimeEq(a: Sig, b: Sig) returns (equal: bool)
    ensures equal <==> a == b
  {
    hide Or, Xor, Pow2;
    ByteWidth();
    var diff: byte := 0;
    for i := 0 to 16
      invariant diff == 0 <==> a[..i] == b[..i]
    {
      XorZero(a[i], b[i], 8);
      OrZero(diff, Xor(a[i], b[i], 8), 8);
      assert a[..i + 1] == a[..i] + [a[i]] && b[..i + 1] == b[..i] + [b[i]];
      diff := Or(diff, Xor(a[i], b[i], 8), 8);
    }
    assert a[..16] == a && b[..16] == b;
    equal := diff == 0;
  }

  /** `verify` reads and never writes. */
  method Verify(msg: bytes, key: Key, algo: Algo, mac: MacFn) returns (ok: bool)
    ensures ok <==> Authentic(msg, key, algo, mac)
  {
    if |msg| < HEADER_LEN {
      return false;
    }
    ok := ConstantTimeEq(msg[SIGNATURE_AT..HEADER_LEN], MacOf(msg, key, algo, mac));
  }

  /** The MAC does not see the signature field. */
  lemma MacIgnoresSignature(msg: bytes, sig: Sig, key: Key, algo: Algo, mac: MacFn)
    requires HEADER_LEN <= |msg|
    ensures MacOf(Patch(msg, SIGNATURE_AT, sig), key, algo, mac) == MacOf(msg, key, algo, mac)
  {
    assert Blanked(Patch(msg, SIGNATURE_AT, sig)) == Blanked(msg);
  }

  /** A signed message is authentic, whatever its old signature field held, and differs from the original
      only there. */
  lemma SignedIsAuthentic(msg: bytes, key: Key, algo: Algo, mac: MacFn)
    requires HEADER_LEN <= |msg|
    ensures Authentic(Signed(msg, key, algo, mac), key, algo, mac)
    ensures Signed(msg, key, algo, mac)[..SIGNATURE_AT] == msg[..SIGNATURE_AT]
    ensures Signed(msg, key, algo, mac)[HEADER_LEN..] == msg[HEADER_LEN..]
  {
    MacIgnoresSignature(msg, MacOf(msg, key, algo, mac), key, algo, mac);
  }

  /** Signing again, after anything was done to the signature field, gives the same bytes. */
  lemma SigningIsIdempotent(msg: bytes, sig: Sig, key: Key, algo: Algo, mac: MacFn)
    requires HEADER_LEN <= |msg|
    ensures Signed(Patch(msg, SIGNATURE_AT, sig), key, algo, mac) == Signed(msg, key, algo, mac)
  {
    MacIgnoresSignature(msg, sig, key, algo, mac);
  }

  /** The MAC covers everything but the signature field: two messages of one length have the same MAC under every
      MAC function exactly when they agree outside bytes 48 to 64. */
  lemma MacCoversTheRest(a: bytes, b: bytes, key: Key, algo: Algo)
    requires |a| == |b| >= HEADER_LEN
    ensures (forall mac: MacFn :: MacOf(a, key, algo, mac) == MacOf(b, key, algo, mac))
            <==> a[..48] == b[..48] && a[64..] == b[64..]
  {
    if Blanked(a) != Blanked(b) {
      var mac: MacFn := (x, y, m) => if m == Blanked(a) then Zeros(16) else seq(16, i => 1);
      assert MacOf(a, key, algo, mac)[0] == 0 && MacOf(b, key, algo, mac)[0] == 1;
    } else {
      assert Blanked(a)[..48] == a[..48] && Blanked(b)[..48] == b[..48];
      assert Blanked(a)[64..] == a[64..] && Blanked(b)[64..] == b[64..];
    }
  }
}
