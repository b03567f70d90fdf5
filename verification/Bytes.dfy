/** Byte strings, fixed-width little-endian integers, and in-place patches. */
module Bytes {
  type byte = x: int | 0 <= x < 0x100
  type bytes = seq<byte>

  type u16 = x: int | 0 <= x < 0x1_0000
  type u32 = x: int | 0 <= x < 0x1_0000_0000
  type u64 = x: int | 0 <= x < 0x1_0000_0000_0000_0000

  const U16: nat := 0x1_0000
  const U32: nat := 0x1_0000_0000
  const U64: nat := 0x1_0000_0000_0000_0000

  datatype Option<+T> = None | Some(value: T)

  datatype Result<+T> = Ok(value: T) | Err(reason: string)

  /** What a loop has read so far, put in front of what remains. */
  function Prepend<T>(done: seq<T>, r: Result<seq<T>>): Result<seq<T>> {
    match r
    case Err(e) => Err(e)
    case Ok(more) => Ok(done + more)
  }

  lemma PrependLaws<T>(a: seq<T>, b: seq<T>, r: Result<seq<T>>)
    ensures Prepend([], r) == r && Prepend(a, Prepend(b, r)) == Prepend(a + b, r)
    ensures Prepend(a, Ok([])) == Ok(a)
  {
    assert a + [] == a;
    if r.Ok? {
      assert [] + r.value == r.value && a + (b + r.value) == a + b + r.value;
    }
  }

  function Pow256(k: nat): (r: nat)
    ensures r > 0
  {
    if k == 0 then 1 else 0x100 * Pow256(k - 1)
  }

  lemma Widths()
    ensures Pow256(2) == U16 && Pow256(4) == U32 && Pow256(8) == U64
  {
    assert Pow256(3) == 0x100_0000 && Pow256(4) == 0x100 * Pow256(3);
    assert Pow256(6) == 0x100 * Pow256(5) && Pow256(5) == 0x100 * Pow256(4);
    assert Pow256(8) == 0x100 * Pow256(7) && Pow256(7) == 0x100 * Pow256(6);
  }

  function ToLe(n: nat, k: nat): (s: bytes)
    ensures |s| == k
  {
    if k == 0 then [] else [n % 0x100] + ToLe(n / 0x100, k - 1)
  }

  function FromLe(s: bytes): (n: nat)
    ensures n < Pow256(|s|)
  {
    if s == [] then 0 else s[0] + 0x100 * FromLe(s[1..])
  }

  lemma {:induction false} FromToLe(n: nat, k: nat)
    requires n < Pow256(k)
    ensures FromLe(ToLe(n, k)) == n
  {
    if k > 0 {
      FromToLe(n / 0x100, k - 1);
      assert ToLe(n, k)[1..] == ToLe(n / 0x100, k - 1);
    }
  }

  lemma {:induction false} ToFromLe(s: bytes)
    ensures ToLe(FromLe(s), |s|) == s
  {
    if s != [] {
      ToFromLe(s[1..]);
      var m := FromLe(s[1..]);
      assert (s[0] + 0x100 * m) % 0x100 == s[0] && (s[0] + 0x100 * m) / 0x100 == m;
      assert s == [s[0]] + s[1..];
    }
  }

  // The program's `as u16`/`as u32` casts truncate; its `to_le_bytes` then cannot overflow.

  function Put16(n: nat): (s: bytes) ensures |s| == 2 { ToLe(n % U16, 2) }
  function Put32(n: nat): (s: bytes) ensures |s| == 4 { ToLe(n % U32, 4) }
  function Put64(n: nat): (s: bytes) ensures |s| == 8 { ToLe(n % U64, 8) }

  function Get16(s: bytes, at: nat): (n: nat)
    requires at + 2 <= |s|
    ensures n < U16
  {
    Widths(); FromLe(s[at..at + 2])
  }

  function Get32(s: bytes, at: nat): (n: nat)
    requires at + 4 <= |s|
    ensures n < U32
  {
    Widths(); FromLe(s[at..at + 4])
  }

  function Get64(s: bytes, at: nat): (n: nat)
    requires at + 8 <= |s|
    ensures n < U64
  {
    Widths(); FromLe(s[at..at + 8])
  }

  lemma LittleEndian(n: u16)
    ensures Put16(n) == [n % 0x100, n / 0x100]
  {
    assert ToLe(n, 2) == [n % 0x100] + ToLe(n / 0x100, 1);
    assert ToLe(n / 0x100, 1) == [n / 0x100 % 0x100] + ToLe(n / 0x100 / 0x100, 0);
  }

  /** A field holding `Put16(n)` reads back as `n` truncated; likewise for the wider ones. */
  lemma GetPut16(s: bytes, at: nat, n: nat)
    requires at + 2 <= |s| && s[at..at + 2] == Put16(n)
    ensures Get16(s, at) == n % U16
  {
    hide ToLe, FromLe, Pow256;
    Widths();
    FromToLe(n % U16, 2);
  }

  lemma GetPut32(s: bytes, at: nat, n: nat)
    requires at + 4 <= |s| && s[at..at + 4] == Put32(n)
    ensures Get32(s, at) == n % U32
  {
    hide ToLe, FromLe, Pow256;
    Widths();
    FromToLe(n % U32, 4);
  }

  lemma GetPut64(s: bytes, at: nat, n: nat)
    requires at + 8 <= |s| && s[at..at + 8] == Put64(n)
    ensures Get64(s, at) == n % U64
  {
    hide ToLe, FromLe, Pow256;
    Widths();
    FromToLe(n % U64, 8);
  }

  lemma FourDigits(s: bytes)
    requires |s| >= 4
    ensures FromLe(s) == s[0] + 0x100 * s[1] + 0x1_0000 * s[2] + 0x100_0000 * s[3] + U32 * FromLe(s[4..])
  {
    var t := s[1..];
    var u := t[1..];
    var v := u[1..];
    assert s[4..] == v[1..];
    assert t[0] == s[1] && u[0] == s[2] && v[0] == s[3];
    assert FromLe(v) == v[0] + 0x100 * FromLe(v[1..]) && FromLe(u) == u[0] + 0x100 * FromLe(v);
  }

  /** A 64-bit field is two 32-bit ones. */
  lemma Halves(s: bytes, at: nat)
    requires at + 8 <= |s|
    ensures Get64(s, at) == Get32(s, at) + U32 * Get32(s, at + 4)
  {
    hide FromLe;
    var w, low := s[at..at + 8], s[at..at + 4];
    FourDigits(w);
    FourDigits(low);
    SubSlice(s, at, at + 8, 4, 8);
    assert w[4..] == s[at + 4..at + 8] && low[4..] == [];
    assert FromLe([]) == 0 by { NoBytes(); }
  }

  lemma TwoDigits(s: bytes)
    requires |s| >= 2
    ensures FromLe(s) == s[0] + 0x100 * s[1] + U16 * FromLe(s[2..])
  {
    var t := s[1..];
    assert s[2..] == t[1..] && t[0] == s[1];
  }

  /** A 32-bit field is two 16-bit ones. */
  lemma Quarters(s: bytes, at: nat)
    requires at + 4 <= |s|
    ensures Get32(s, at) == Get16(s, at) + U16 * Get16(s, at + 2)
  {
    hide FromLe;
    var w, low := s[at..at + 4], s[at..at + 2];
    TwoDigits(w);
    TwoDigits(low);
    SubSlice(s, at, at + 4, 2, 4);
    assert w[2..] == s[at + 2..at + 4] && low[2..] == [];
    assert FromLe([]) == 0 by { NoBytes(); }
  }

  lemma {:induction false} ZeroBytes(s: bytes)
    ensures FromLe(s) == 0 <==> forall i :: 0 <= i < |s| ==> s[i] == 0
  {
    if s != [] {
      ZeroBytes(s[1..]);
      assert forall i :: 0 < i < |s| ==> s[i] == s[1..][i - 1];
    }
  }

  lemma NoBytes()
    ensures FromLe([]) == 0
  {
  }

  lemma PutGet32(s: bytes, at: nat)
    requires at + 4 <= |s|
    ensures Put32(Get32(s, at)) == s[at..at + 4]
  {
    hide ToLe, FromLe, Pow256;
    Widths();
    ToFromLe(s[at..at + 4]);
  }

  lemma PutGet64(s: bytes, at: nat)
    requires at + 8 <= |s|
    ensures Put64(Get64(s, at)) == s[at..at + 8]
  {
    hide ToLe, FromLe, Pow256;
    Widths();
    ToFromLe(s[at..at + 8]);
  }

  lemma PutGet16(s: bytes, at: nat)
    requires at + 2 <= |s|
    ensures Put16(Get16(s, at)) == s[at..at + 2]
  {
    hide ToLe, FromLe, Pow256;
    Widths();
    ToFromLe(s[at..at + 2]);
  }

  function Zeros(n: nat): (s: bytes)
    ensures |s| == n && forall i :: 0 <= i < n ==> s[i] == 0
  {
    seq(n, i => 0)
  }

  /** `s[at..at + |v|].copy_from_slice(v)`. */
  function Patch(s: bytes, at: nat, v: bytes): (r: bytes)
    requires at + |v| <= |s|
    ensures |r| == |s| && r[at..at + |v|] == v
    ensures r[..at] == s[..at] && r[at + |v|..] == s[at + |v|..]
  {
    s[..at] + v + s[at + |v|..]
  }

  lemma DropAppend(a: bytes, b: bytes, k: nat)
    requires k <= |a|
    ensures (a + b)[k..] == a[k..] + b
  {
  }

  lemma DropFirst(a: bytes, b: bytes)
    ensures (a + b)[|a|..] == b && (a + b)[..|a|] == a
  {
  }

  lemma Nil(a: bytes)
    ensures [] + a == a && a + [] == a
  {
  }

  lemma Assoc(a: bytes, b: bytes, c: bytes)
    ensures a + b + c == a + (b + c)
  {
  }

  lemma SliceSecond(a: bytes, b: bytes, i: nat, j: nat)
    requires i <= j <= |b|
    ensures (a + b)[|a| + i..|a| + j] == b[i..j]
  {
    assert (a + b)[|a| + i..|a| + j] == b[i..j];
  }

  lemma SubSlice(s: bytes, a: nat, b: nat, i: nat, j: nat)
    requires a <= b <= |s| && i <= j <= b - a
    ensures s[a + i..a + j] == s[a..b][i..j]
  {
    forall k | 0 <= k < j - i
      ensures s[a + i..a + j][k] == s[a..b][i..j][k]
    {
    }
    assert s[a + i..a + j] == s[a..b][i..j];
  }

  /** A patch that falls in the first or the second part of a concatenation. */
  lemma PatchFirst(a: bytes, b: bytes, at: nat, v: bytes)
    requires at + |v| <= |a|
    ensures Patch(a + b, at, v) == Patch(a, at, v) + b
  {
  }

  lemma PatchSecond(a: bytes, b: bytes, at: nat, v: bytes)
    requires at + |v| <= |b|
    ensures Patch(a + b, |a| + at, v) == a + Patch(b, at, v)
  {
  }

  /** Overwriting a leading field. */
  lemma PatchHead(old_: bytes, v: bytes, rest: bytes)
    requires |old_| == |v|
    ensures Patch(old_ + rest, 0, v) == v + rest
  {
  }

  lemma SliceFirst(a: bytes, b: bytes, i: nat, j: nat)
    requires i <= j <= |a|
    ensures (a + b)[i..j] == a[i..j]
  {
    assert (a + b)[i..j] == a[i..j];
  }

  /** A field outside a patch keeps its bytes. */
  lemma SliceOfPatch(s: bytes, at: nat, v: bytes, i: nat, j: nat)
    requires at + |v| <= |s| && i <= j <= |s| && (j <= at || at + |v| <= i)
    ensures Patch(s, at, v)[i..j] == s[i..j]
  {
    var p := Patch(s, at, v);
    assert p == s[..at] + v + s[at + |v|..];
    assert p[i..j] == s[i..j];
  }

  function Flatten(parts: seq<bytes>): bytes {
    if parts == [] then [] else parts[0] + Flatten(parts[1..])
  }

  lemma {:induction false} FlattenAppend(a: seq<bytes>, b: seq<bytes>)
    ensures Flatten(a + b) == Flatten(a) + Flatten(b)
  {
    if a == [] {
      assert a + b == b && Flatten(a) + Flatten(b) == Flatten(b);
    } else {
      FlattenAppend(a[1..], b);
      assert (a + b)[1..] == a[1..] + b;
      Assoc(a[0], Flatten(a[1..]), Flatten(b));
    }
  }

  lemma FlattenOne(p: bytes)
    ensures Flatten([p]) == p
  {
    assert [p][1..] == [] && p + [] == p;
  }

  lemma CutAt(parts: seq<bytes>, k: nat)
    requires k < |parts|
    ensures parts == parts[..k] + ([parts[k]] + parts[k + 1..])
  {
  }

  /** The parts before, at and after position `k`. */
  lemma FlattenAt(parts: seq<bytes>, k: nat)
    requires k < |parts|
    ensures Flatten(parts) == Flatten(parts[..k]) + (parts[k] + Flatten(parts[k + 1..]))
  {
    hide Flatten;
    CutAt(parts, k);
    FlattenAppend(parts[..k], [parts[k]] + parts[k + 1..]);
    FlattenAppend([parts[k]], parts[k + 1..]);
    FlattenOne(parts[k]);
  }

  /** Replacing a part by one of the same length is a patch at that part's start. */
  lemma FlattenUpdate(parts: seq<bytes>, k: nat, p: bytes)
    requires k < |parts| && |p| == |parts[k]|
    ensures var at := |Flatten(parts[..k])|;
            at + |p| <= |Flatten(parts)| && Flatten(parts[k := p]) == Patch(Flatten(parts), at, p)
  {
    hide Flatten, Patch;
    FlattenAt(parts, k);
    FlattenAt(parts[k := p], k);
    assert parts[k := p][..k] == parts[..k] && parts[k := p][k + 1..] == parts[k + 1..];
    PatchHead(parts[k], p, Flatten(parts[k + 1..]));
    PatchSecond(Flatten(parts[..k]), parts[k] + Flatten(parts[k + 1..]), 0, p);
  }

  /** Rounding up to a multiple of eight, `(n + 7) & !7`. */
  function Align8(n: nat): (r: nat)
    ensures r % 8 == 0 && n <= r < n + 8
  {
    (n + 7) / 8 * 8
  }

  /** Zeros pushed until the length past `from` is a multiple of eight. */
  function Padded(s: bytes, from: nat): (r: bytes)
    requires from <= |s|
  {
    s + Zeros(Align8(|s| - from) - (|s| - from))
  }

  lemma PaddedAlready(s: bytes)
    requires |s| % 8 == 0
    ensures Padded(s, 0) == s
  {
  }

  lemma AlignedSum(a: nat, b: nat)
    requires a % 8 == 0
    ensures (a + b) % 8 == b % 8 && Align8(a + b) == a + Align8(b)
  {
    assert a == 8 * (a / 8);
  }

  /** `flags & mask != 0` for a mask that is a power of two. */
  predicate HasBit(flags: nat, mask: nat) {
    if mask <= 1 then flags % 2 == 1 else HasBit(flags / 2, mask / 2)
  }
}
