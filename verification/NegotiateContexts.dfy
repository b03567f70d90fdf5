/** The SMB 3.1.1 negotiate-context list (MS-SMB2 section 2.2.3.1): eight-aligned records counted by the
    parent message. */
module NegotiateContexts {
  import opened Bytes

  datatype Context = Context(kind: u16, dataLength: u16, reserved: u32, data: bytes)

  /** The declared length is the real one. */
  predicate Honest(c: Context) {
    c.dataLength == |c.data|
  }

  function Fields(c: Context): (s: bytes)
    ensures |s| == 8
  {
    Put16(c.kind) + Put16(c.dataLength) + Put32(c.reserved)
  }

  function Wire(c: Context): (s: bytes)
    ensures |s| == 8 + |c.data|
  {
    Fields(c) + c.data
  }

  /** Padding owed before the record that starts at `pos`. */
  function Pad(pos: nat): (n: nat)
    ensures (pos + n) % 8 == 0 && n < 8
  {
    (8 - pos % 8) % 8
  }

  /** The bytes of `list` when `pos` bytes of the list are already out. */
  function Layout(list: seq<Context>, pos: nat): bytes {
    if list == [] then []
    else Zeros(Pad(pos)) + Wire(list[0]) + Layout(list[1..], pos + Pad(pos) + |Wire(list[0])|)
  }

  method EncodeList(list: seq<Context>, out0: bytes) returns (out: bytes)
    ensures out == out0 + Layout(list, 0)
  {
    hide Wire, Pad;
    out := out0;
    for i := 0 to |list|
      invariant |out0| <= |out|
      invariant out + Layout(list[i..], |out| - |out0|) == out0 + Layout(list, 0)
      invariant i == 0 ==> out == out0
    {
      ghost var before := out;
      ghost var pos := |out| - |out0|;
      if i > 0 {
        out := out + Zeros(Pad(|out| - |out0|));
      } else {
        NoPadAtStart();
      }
      out := out + Wire(list[i]);
      assert list[i..][1..] == list[i + 1..];
      assert out == before + (Zeros(Pad(pos)) + Wire(list[i]));
      Extend(before, Zeros(Pad(pos)), Wire(list[i]), Layout(list[i + 1..], |out| - |out0|));
    }
  }

  lemma NoPadAtStart()
    ensures Pad(0) == 0 && Zeros(Pad(0)) == []
  {
  }

  lemma Extend(a: bytes, b: bytes, c: bytes, d: bytes)
    ensures a + (b + c + d) == a + (b + c) + d
  {
  }

  /** One record read from the front of `buf`: fields, then the declared number of bytes. */
  function ReadContext(buf: bytes): (r: Result<(Context, nat)>)
    ensures r.Ok? ==> Honest(r.value.0) && r.value.1 == 8 + |r.value.0.data| <= |buf|
  {
    if |buf| < 8 then Err("unexpected end")
    else
      var n := Get16(buf, 2);
      if |buf| < 8 + n then Err("unexpected end")
      else Ok((Context(Get16(buf, 0), n, Get32(buf, 4), buf[8..8 + n]), 8 + n))
  }

  function ParseFrom(buf: bytes, count: nat, consumed: nat): (r: Result<seq<Context>>)
  {
    if count == 0 then Ok([])
    else if |buf| < Pad(consumed) then Err("negotiate context alignment underflow")
    else
      var rest := buf[Pad(consumed)..];
      match ReadContext(rest)
      case Err(e) => Err(e)
      case Ok((c, used)) =>
        Prepend([c], ParseFrom(rest[used..], count - 1, consumed + Pad(consumed) + used))
  }

  method ParseList(buf0: bytes, count: u16) returns (r: Result<seq<Context>>)
    ensures r == ParseFrom(buf0, count, 0)
  {
    hide ReadContext, Pad, Prepend;
    var buf: bytes, consumed: nat, out: seq<Context> := buf0, 0, [];
    PrependLaws([], [], ParseFrom(buf0, count, 0));
    for i := 0 to count
      invariant ParseFrom(buf0, count, 0) == Prepend(out, ParseFrom(buf, count - i, consumed))
    {
      PrependErr(out);
      var pad := Pad(consumed);
      if pad > 0 && |buf| < pad {
        return Err("negotiate context alignment underflow");
      }
      buf := buf[pad..];
      match ReadContext(buf)
      case Err(e) =>
        return Err(e);
      case Ok((c, used)) =>
        PrependLaws(out, [c], ParseFrom(buf[used..], count - i - 1, consumed + pad + used));
        buf := buf[used..];
        consumed := consumed + pad + used;
        out := out + [c];
    }
    PrependLaws(out, [], Ok([]));
    r := Ok(out);
  }

  lemma PrependErr(done: seq<Context>)
    ensures forall e :: Prepend(done, Err(e)) == Err(e)
  {
  }

  // ---- round trip ----

  lemma ReadBack(c: Context, tail: bytes)
    requires Honest(c)
    ensures ReadContext(Wire(c) + tail) == Ok((c, |Wire(c)|))
  {
    hide Put16, Put32, Get16, Get32;
    var s := Wire(c) + tail;
    assert s[0..2] == Put16(c.kind) && s[2..4] == Put16(c.dataLength) && s[4..8] == Put32(c.reserved);
    assert s[8..8 + |c.data|] == c.data;
    GetPut16(s, 0, c.kind);
    GetPut16(s, 2, c.dataLength);
    GetPut32(s, 4, c.reserved);
  }

  /** What follows the first record. */
  function Following(list: seq<Context>, pos: nat): bytes
    requires list != []
  {
    Layout(list[1..], pos + Pad(pos) + |Wire(list[0])|)
  }

  lemma LayoutSplits(list: seq<Context>, pos: nat, suffix: bytes)
    requires list != []
    ensures var pad, w, s := Zeros(Pad(pos)), Wire(list[0]), Layout(list, pos) + suffix;
            s == pad + (w + (Following(list, pos) + suffix)) && s[|pad|..] == w + (Following(list, pos) + suffix)
  {
    hide Wire, Pad;
    var pad, w := Zeros(Pad(pos)), Wire(list[0]);
    Assoc(pad + w, Following(list, pos), suffix);
    Assoc(pad, w, Following(list, pos) + suffix);
    DropFirst(pad, w + (Following(list, pos) + suffix));
  }

  lemma {:induction false} ParseLayout(list: seq<Context>, pos: nat, suffix: bytes)
    requires forall i :: 0 <= i < |list| ==> Honest(list[i])
    ensures ParseFrom(Layout(list, pos) + suffix, |list|, pos) == Ok(list)
  {
    hide Wire, ReadContext, Pad, Layout;
    if list != [] {
      var c, tail := list[0], Following(list, pos) + suffix;
      LayoutSplits(list, pos, suffix);
      DropFirst(Wire(c), tail);
      ReadBack(c, tail);
      ParseLayout(list[1..], pos + Pad(pos) + |Wire(c)|, suffix);
      assert list == [c] + list[1..];
    }
  }

  lemma {:induction false} ParsedAreHonest(buf: bytes, count: nat, consumed: nat)
    ensures var r := ParseFrom(buf, count, consumed);
            r.Ok? ==> forall i :: 0 <= i < |r.value| ==> Honest(r.value[i])
    decreases count
  {
    hide ReadContext, Pad;
    if count > 0 && Pad(consumed) <= |buf| {
      var rest := buf[Pad(consumed)..];
      match ReadContext(rest)
      case Err(_) =>
      case Ok((c, used)) =>
        ParsedAreHonest(rest[used..], count - 1, consumed + Pad(consumed) + used);
    }
  }

  /** Parsing an encoded list, whatever follows it, returns the list exactly when every declared length
      is the real one. */
  lemma RoundTripIffHonest(list: seq<Context>, suffix: bytes)
    requires |list| < U16
    ensures ParseFrom(Layout(list, 0) + suffix, |list|, 0) == Ok(list)
            <==> forall i :: 0 <= i < |list| ==> Honest(list[i])
  {
    if forall i :: 0 <= i < |list| ==> Honest(list[i]) {
      ParseLayout(list, 0, suffix);
    }
    ParsedAreHonest(Layout(list, 0) + suffix, |list|, 0);
  }

  /** Where record `i` starts: past the records before it, each with the zeros that align it. */
  function At(list: seq<Context>, i: nat, pos: nat): nat
    requires i < |list|
  {
    if i == 0 then Pad(pos)
    else Pad(pos) + |Wire(list[0])| + At(list[1..], i - 1, pos + Pad(pos) + |Wire(list[0])|)
  }

  /** Record `i` sits whole at its own start, which is a multiple of eight. */
  lemma {:induction false} RecordAligned(list: seq<Context>, i: nat, pos: nat)
    requires i < |list|
    ensures var at := At(list, i, pos);
            && (pos + at) % 8 == 0 && at + |Wire(list[i])| <= |Layout(list, pos)|
            && Layout(list, pos)[at..at + |Wire(list[i])|] == Wire(list[i])
  {
    hide Wire, Pad, Layout;
    var pad, w, more := Zeros(Pad(pos)), Wire(list[0]), Following(list, pos);
    LayoutSplits(list, pos, []);
    assert Layout(list, pos) + [] == Layout(list, pos) && more + [] == more;
    if i == 0 {
      SliceSecond(pad, w + more, 0, |w|);
    } else {
      var at := At(list[1..], i - 1, pos + Pad(pos) + |w|);
      RecordAligned(list[1..], i - 1, pos + Pad(pos) + |w|);
      Assoc(pad, w, more);
      SliceSecond(pad + w, more, at, at + |Wire(list[i])|);
    }
  }

  /** The wire layout of a record (MS-SMB2 section 2.2.3.1), field by field. */
  lemma RecordLayout(c: Context)
    ensures var s := Wire(c);
            && s[0..2] == Put16(c.kind) && s[2..4] == Put16(c.dataLength) && s[4..8] == Put32(c.reserved)
            && s[8..] == c.data
  {
    hide Put16, Put32;
  }
}
