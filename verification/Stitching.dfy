/** Compound responses: pad every response but the last to eight bytes, write its NextCommand, and sign
    again over the unpadded range. */
module Stitching {
  import opened Bytes
  import opened Header
  import opened Signing

  datatype SessionKey = SessionKey(anonymous: bool, key: Key)

  /** What the connection holds when the responses are signed. */
  datatype Signer = Signer(sessions: map<u64, SessionKey>, algo: Algo, mac: MacFn)

  /** A response as `build_response_bytes` leaves it. */
  predicate IsResponse(r: bytes) {
    HEADER_LEN <= |r| && Get32(r, NEXT_AT) == 0
  }

  predicate Responses(rs: seq<bytes>) {
    rs != [] && forall i :: 0 <= i < |rs| ==> IsResponse(rs[i])
  }

  predicate NeedsSignature(r: bytes, g: Signer)
    requires HEADER_LEN <= |r|
  {
    && HasBit(Get32(r, FLAGS_AT), FLAG_SIGNED)
    && Get64(r, SESSION_AT) in g.sessions
    && !g.sessions[Get64(r, SESSION_AT)].anonymous
  }

  function Finish(r: bytes, g: Signer): (s: bytes)
    requires HEADER_LEN <= |r|
    ensures |s| == |r|
  {
    if NeedsSignature(r, g) then Signed(r, g.sessions[Get64(r, SESSION_AT)].key, g.algo, g.mac) else r
  }

  /** Response `i` with its NextCommand, unless it is the last. */
  function Chained(rs: seq<bytes>, i: nat): (s: bytes)
    requires Responses(rs) && i < |rs|
    ensures |s| == |rs[i]|
  {
    if i + 1 < |rs| then Patch(rs[i], NEXT_AT, Put32(Align8(|rs[i]|))) else rs[i]
  }

  function Piece(rs: seq<bytes>, i: nat, g: Signer, signed: bool): (s: bytes)
    requires Responses(rs) && i < |rs|
    ensures |s| == |rs[i]|
  {
    if signed then Finish(Chained(rs, i), g) else Chained(rs, i)
  }

  function Padding(rs: seq<bytes>, i: nat): (z: bytes)
    requires i < |rs|
    ensures i + 1 < |rs| ==> |rs[i]| + |z| == Align8(|rs[i]|)
  {
    if i + 1 < |rs| then Zeros(Align8(|rs[i]|) - |rs[i]|) else []
  }

  function Segment(rs: seq<bytes>, i: nat, g: Signer, signed: bool): (s: bytes)
    requires Responses(rs) && i < |rs|
    ensures |s| == |rs[i]| + |Padding(rs, i)|
  {
    Piece(rs, i, g, signed) + Padding(rs, i)
  }

  /** All segments, the first `k` signed. */
  function Segments(rs: seq<bytes>, g: Signer, k: nat): (s: seq<bytes>)
    requires Responses(rs)
    ensures |s| == |rs| && forall i :: 0 <= i < |rs| ==> s[i] == Segment(rs, i, g, i < k)
  {
    seq(|rs|, i requires 0 <= i < |rs| => Segment(rs, i, g, i < k))
  }

  function Stitched(rs: seq<bytes>, g: Signer): bytes
    requires Responses(rs)
  {
    Flatten(Segments(rs, g, |rs|))
  }

  // ---- the loops ----

  /** First loop of `stitch_responses`: chain, concatenate, remember the unpadded ranges. */
  method Join(rs: seq<bytes>, ghost g: Signer) returns (out: bytes, starts: seq<nat>)
    requires Responses(rs)
    ensures out == Flatten(Segments(rs, g, 0))
    ensures |starts| == |rs|
    ensures forall i :: 0 <= i < |rs| ==> starts[i] == |Flatten(Segments(rs, g, 0)[..i])|
  {
    hide *;
    ghost var segs := Segments(rs, g, 0);
    out, starts := [], [];
    NothingYet(segs);
    for i := 0 to |rs|
      invariant out == Flatten(segs[..i]) && |starts| == i
      invariant forall k :: 0 <= k < i ==> starts[k] == |Flatten(segs[..k])|
    {
      starts := starts + [|out|];
      var response := rs[i];
      var size := |response|;
      if i + 1 < |rs| {
        LongEnough(rs, i);
        response := Patch(response, NEXT_AT, Put32(Align8(size)));
      }
      out := out + response;
      if i + 1 < |rs| {
        out := out + Zeros(Align8(size) - size);
      }
      OneMore(rs, g, i, out);
    }
    assert segs[..|rs|] == segs;
  }

  lemma NothingYet(segs: seq<bytes>)
    ensures Flatten(segs[..0]) == []
  {
  }

  lemma LongEnough(rs: seq<bytes>, i: nat)
    requires Responses(rs) && i < |rs|
    ensures NEXT_AT + 4 <= |rs[i]|
  {
  }

  lemma OneMore(rs: seq<bytes>, g: Signer, i: nat, out: bytes)
    requires Responses(rs) && i < |rs|
    requires var segs := Segments(rs, g, 0);
             out == if i + 1 < |rs|
                    then Flatten(segs[..i]) + Patch(rs[i], NEXT_AT, Put32(Align8(|rs[i]|)))
                         + Zeros(Align8(|rs[i]|) - |rs[i]|)
                    else Flatten(segs[..i]) + rs[i]
    ensures out == Flatten(Segments(rs, g, 0)[..i + 1])
  {
    hide Flatten, Patch, Put32, Align8, IsResponse;
    var segs := Segments(rs, g, 0);
    assert segs[..i + 1] == segs[..i] + [segs[i]];
    FlattenAppend(segs[..i], [segs[i]]);
    FlattenOne(segs[i]);
    Assoc(Flatten(segs[..i]), Chained(rs, i), Padding(rs, i));
  }

  /** `stitch_responses`: join, then sign in place, range by range. */
  method Stitch(rs: seq<bytes>, g: Signer) returns (out: bytes)
    requires Responses(rs)
    ensures out == Stitched(rs, g)
  {
    hide Flatten, IsResponse, Segment, Align8, Signed, Put32, Get32, Get64;
    var joined, starts := Join(rs, g);
    var buf := new byte[|joined|](i requires 0 <= i < |joined| => joined[i]);
    assert buf[..] == joined;
    for i := 0 to |rs|
      invariant buf[..] == Flatten(Segments(rs, g, i))
    {
      var lo, hi := starts[i], starts[i] + |rs[i]|;
      RangeOf(rs, g, i);
      assert buf[lo..hi] == buf[..][lo..hi];
      ghost var was := buf[..];
      if NeedsSignature(buf[lo..hi], g) {
        var key := g.sessions[Get64(buf[lo..hi], SESSION_AT)].key;
        var _ := Sign(buf, lo, hi, key, g.algo, g.mac);
      }
      SignedRange(rs, g, i, was, buf[..]);
    }
    out := buf[..];
  }

  /** Signing never moves a segment. */
  lemma SameStarts(rs: seq<bytes>, g: Signer, k: nat, i: nat)
    requires Responses(rs) && i <= |rs|
    ensures |Flatten(Segments(rs, g, k)[..i])| == |Flatten(Segments(rs, g, 0)[..i])|
    decreases i
  {
    hide Segment, IsResponse;
    if i > 0 {
      var a, b := Segments(rs, g, k), Segments(rs, g, 0);
      SameStarts(rs, g, k, i - 1);
      assert a[..i] == a[..i - 1] + [a[i - 1]] && b[..i] == b[..i - 1] + [b[i - 1]];
      FlattenAppend(a[..i - 1], [a[i - 1]]);
      FlattenAppend(b[..i - 1], [b[i - 1]]);
      FlattenOne(a[i - 1]);
      FlattenOne(b[i - 1]);
    }
  }

  /** Where response `i` sits before it is signed. */
  lemma RangeOf(rs: seq<bytes>, g: Signer, i: nat)
    requires Responses(rs) && i < |rs|
    ensures var at, s := |Flatten(Segments(rs, g, 0)[..i])|, Flatten(Segments(rs, g, i));
            at + |rs[i]| <= |s| && s[at..at + |rs[i]|] == Chained(rs, i) && HEADER_LEN <= |rs[i]|
  {
    hide Flatten, Chained, Padding;
    var segs := Segments(rs, g, i);
    SameStarts(rs, g, i, i);
    FlattenAt(segs, i);
    var front, c := Flatten(segs[..i]), Chained(rs, i);
    var rest := Flatten(segs[i + 1..]);
    Assoc(c, Padding(rs, i), rest);
    SliceSecond(front, c + (Padding(rs, i) + rest), 0, |c|);
    SliceFirst(c, Padding(rs, i) + rest, 0, |c|);
  }

  lemma SignedRange(rs: seq<bytes>, g: Signer, i: nat, was: bytes, now: bytes)
    requires Responses(rs) && i < |rs| && was == Flatten(Segments(rs, g, i)) && |now| == |was|
    requires var lo := |Flatten(Segments(rs, g, 0)[..i])|;
             && lo + |rs[i]| <= |was|
             && now[..lo] == was[..lo] && now[lo + |rs[i]|..] == was[lo + |rs[i]|..]
             && now[lo..lo + |rs[i]|] == Finish(Chained(rs, i), g)
    ensures now == Flatten(Segments(rs, g, i + 1))
  {
    hide Flatten, Chained, Padding, Finish, IsResponse;
    var segs := Segments(rs, g, i);
    var p := Segment(rs, i, g, true);
    var lo, n := |Flatten(segs[..i])|, |rs[i]|;
    SameStarts(rs, g, i, i);
    assert Segments(rs, g, i + 1) == segs[i := p];
    FlattenUpdate(segs, i, p);
    FlattenAt(segs, i);
    var rest := Flatten(segs[i + 1..]);
    SliceSecond(Flatten(segs[..i]), segs[i] + rest, n, |segs[i]|);
    SliceFirst(segs[i], rest, n, |segs[i]|);
    assert was[lo + n..lo + |p|] == Padding(rs, i);
    assert now[lo + n..lo + |p|] == now[lo + n..][..|p| - n];
    assert was[lo + n..lo + |p|] == was[lo + n..][..|p| - n];
    assert now[lo..lo + |p|] == now[lo..lo + n] + now[lo + n..lo + |p|];
    assert now == now[..lo] + now[lo..lo + |p|] + now[lo + |p|..];
    assert now[lo + |p|..] == now[lo + n..][|p| - n..];
    assert was[lo + |p|..] == was[lo + n..][|p| - n..];
  }

  // ---- walking back ----

  /** The dispatcher's rule for cutting a frame at NextCommand: None where it drops the frame. */
  function CutLength(available: bytes): Option<nat> {
    if |available| < HEADER_LEN then None
    else
      var next := Get32(available, NEXT_AT);
      if next == 0 then Some(|available|)
      else if next < HEADER_LEN || next > |available| then None
      else Some(next)
  }

  function Walk(buf: bytes): Option<seq<bytes>> {
    if buf == [] then Some([])
    else match CutLength(buf)
      case None => None
      case Some(n) =>
        if Get32(buf, NEXT_AT) == 0 then Some([buf])
        else match Walk(buf[n..])
          case None => None
          case Some(rest) => Some([buf[..n]] + rest)
  }

  /** Outside NextCommand and the signature, a piece is the response; NextCommand is the padded length. */
  lemma PieceKeepsResponse(rs: seq<bytes>, i: nat, g: Signer)
    requires Responses(rs) && i < |rs|
    ensures var r, p := rs[i], Piece(rs, i, g, true);
            && p[..NEXT_AT] == r[..NEXT_AT]
            && p[NEXT_AT + 4..SIGNATURE_AT] == r[NEXT_AT + 4..SIGNATURE_AT]
            && p[HEADER_LEN..] == r[HEADER_LEN..]
            && Get32(p, NEXT_AT) == if i + 1 < |rs| then Align8(|r|) % U32 else 0
  {
    hide Put32, Align8, MacOf, HasBit, FromLe;
    var r, c := rs[i], Chained(rs, i);
    var p := Piece(rs, i, g, true);
    var v := Put32(Align8(|r|));
    if i + 1 < |rs| {
      SliceOfPatch(r, NEXT_AT, v, 0, NEXT_AT);
      SliceOfPatch(r, NEXT_AT, v, NEXT_AT + 4, SIGNATURE_AT);
      SliceOfPatch(r, NEXT_AT, v, HEADER_LEN, |r|);
      GetPut32(c, NEXT_AT, Align8(|r|));
    }
    FinishKeeps(c, g, 0, NEXT_AT);
    FinishKeeps(c, g, NEXT_AT, NEXT_AT + 4);
    FinishKeeps(c, g, NEXT_AT + 4, SIGNATURE_AT);
    FinishKeeps(c, g, HEADER_LEN, |r|);
    assert r[HEADER_LEN..|r|] == r[HEADER_LEN..] && p[HEADER_LEN..|r|] == p[HEADER_LEN..];
  }

  lemma FinishKeeps(c: bytes, g: Signer, i: nat, j: nat)
    requires HEADER_LEN <= |c| && i <= j <= |c| && (j <= SIGNATURE_AT || HEADER_LEN <= i)
    ensures Finish(c, g)[i..j] == c[i..j]
  {
    hide Get32, Get64, MacOf, HasBit, Patch;
    if NeedsSignature(c, g) {
      SliceOfPatch(c, SIGNATURE_AT, MacOf(c, g.sessions[Get64(c, SESSION_AT)].key, g.algo, g.mac), i, j);
    }
  }

  predicate LengthsFit(rs: seq<bytes>) {
    forall i :: 0 <= i && i + 1 < |rs| ==> Align8(|rs[i]|) < U32
  }

  /** Segments of the tail are the tail of the segments. */
  lemma SegmentsTail(rs: seq<bytes>, g: Signer)
    requires Responses(rs) && |rs| > 1
    ensures Responses(rs[1..]) && Segments(rs, g, |rs|)[1..] == Segments(rs[1..], g, |rs| - 1)
  {
    hide Patch, Align8, Put32, Finish, IsResponse;
  }

  lemma HeadSegment(rs: seq<bytes>, g: Signer)
    requires Responses(rs) && |rs| > 1
    ensures var s0, buf := Segments(rs, g, |rs|)[0], Stitched(rs, g);
            && |s0| == Align8(|rs[0]|) < |buf|
            && buf == s0 + Stitched(rs[1..], g)
            && buf[..|s0|] == s0 && buf[|s0|..] == Stitched(rs[1..], g)
            && Get32(buf, NEXT_AT) == Align8(|rs[0]|) % U32
  {
    hide Piece, Put32, Align8, FromLe, NeedsSignature;
    var s0 := Segments(rs, g, |rs|)[0];
    SegmentsTail(rs, g);
    var rest := Stitched(rs[1..], g);
    DropFirst(s0, rest);
    PieceKeepsResponse(rs, 0, g);
    var p := Piece(rs, 0, g, true);
    SliceFirst(p, Padding(rs, 0), NEXT_AT, NEXT_AT + 4);
    SliceFirst(s0, rest, NEXT_AT, NEXT_AT + 4);
    var s1 := Segments(rs[1..], g, |rs| - 1);
    assert Flatten(s1) == s1[0] + Flatten(s1[1..]);
  }

  /** Cutting the stitched bytes at NextCommand gives back exactly the segments, if and only if every
      padded length but the last fits the 32-bit field. */
  lemma {:induction false} WalkInvertsStitchIff(rs: seq<bytes>, g: Signer)
    requires Responses(rs)
    ensures Walk(Stitched(rs, g)) == Some(Segments(rs, g, |rs|)) <==> LengthsFit(rs)
    decreases |rs|
  {
    hide Flatten, Segment, Align8, Get32, IsResponse;
    var segs, buf := Segments(rs, g, |rs|), Stitched(rs, g);
    if |rs| == 1 {
      SingleSegment(rs, g);
    } else {
      HeadSegment(rs, g);
      SegmentsTail(rs, g);
      assert segs == [segs[0]] + segs[1..];
      WalkInvertsStitchIff(rs[1..], g);
      FitsTail(rs);
      LongHead(rs);
      if Align8(|rs[0]|) < U32 {
        assert CutLength(buf) == Some(|segs[0]|);
      } else if Walk(buf).Some? {
        assert Walk(buf).value[0] != segs[0];
      }
    }
  }

  lemma LongHead(rs: seq<bytes>)
    requires Responses(rs)
    ensures HEADER_LEN <= |rs[0]| <= Align8(|rs[0]|)
  {
  }

  lemma FitsTail(rs: seq<bytes>)
    requires |rs| > 1
    ensures LengthsFit(rs) <==> Align8(|rs[0]|) < U32 && LengthsFit(rs[1..])
  {
    if Align8(|rs[0]|) < U32 && LengthsFit(rs[1..]) {
      forall i | 0 <= i && i + 1 < |rs|
        ensures Align8(|rs[i]|) < U32
      {
        if i > 0 {
          assert rs[i] == rs[1..][i - 1];
        }
      }
    }
    if LengthsFit(rs) {
      assert forall i :: 0 <= i && i + 1 < |rs[1..]| ==> rs[1..][i] == rs[i + 1];
    }
  }

  lemma SingleSegment(rs: seq<bytes>, g: Signer)
    requires Responses(rs) && |rs| == 1
    ensures Walk(Stitched(rs, g)) == Some(Segments(rs, g, 1))
  {
    hide Flatten, Get32, Align8, Piece;
    var segs := Segments(rs, g, 1);
    PieceKeepsResponse(rs, 0, g);
    assert Piece(rs, 0, g, true) + [] == Piece(rs, 0, g, true);
    assert segs == [Piece(rs, 0, g, true)];
    FlattenOne(Piece(rs, 0, g, true));
  }

  // ---- signatures survive the patching ----

  /** Padding apart, a segment is the response's own length, and is authentic whenever the response was
      marked signed and its session still holds a key that is not anonymous. */
  lemma SegmentAuthentic(rs: seq<bytes>, g: Signer, i: nat)
    requires Responses(rs) && i < |rs| && NeedsSignature(rs[i], g)
    ensures var s := Segments(rs, g, |rs|)[i];
            && |rs[i]| <= |s|
            && Authentic(s[..|rs[i]|], g.sessions[Get64(rs[i], SESSION_AT)].key, g.algo, g.mac)
            && (forall k :: |rs[i]| <= k < |s| ==> s[k] == 0)
            && (i + 1 < |rs| ==> |s| % 8 == 0)
  {
    hide Signed, Put32, Align8, FromLe, HasBit;
    var r, c := rs[i], Chained(rs, i);
    if i + 1 < |rs| {
      var v := Put32(Align8(|r|));
      SliceOfPatch(r, NEXT_AT, v, FLAGS_AT, FLAGS_AT + 4);
      SliceOfPatch(r, NEXT_AT, v, SESSION_AT, SESSION_AT + 8);
    }
    SignedIsAuthentic(c, g.sessions[Get64(r, SESSION_AT)].key, g.algo, g.mac);
    var p := Piece(rs, i, g, true);
    SliceFirst(p, Padding(rs, i), 0, |r|);
    assert p[0..|r|] == p;
  }
}
