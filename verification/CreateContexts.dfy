/** The chained SMB2_CREATE_CONTEXT list (MS-SMB2 section 2.2.13.2): the encoder back-patches each
    entry's Next once the following entry's start is known; the parser follows Next. */
module CreateContexts {
  import opened Bytes

  datatype CreateContext = CreateContext(name: bytes, data: bytes)

  // ---- wire layout ----

  /** Offset of an entry's data from the entry's start, before the cast to u16. */
  function DataOffset(c: CreateContext): nat {
    16 + Align8(|c.name|)
  }

  /** The twelve header bytes after Next. */
  function Fields(c: CreateContext): (s: bytes)
    ensures |s| == 12
  {
    Put16(16) + Put16(|c.name|) + Put16(0) + Put16(DataOffset(c)) + Put32(|c.data|)
  }

  function Body(c: CreateContext): (s: bytes)
    ensures |s| == Align8(|c.name|) + |c.data|
  {
    c.name + Zeros(Align8(|c.name|) - |c.name|) + c.data
  }

  /** Bytes from one entry's start to the next entry's start. */
  function Stride(c: CreateContext): nat {
    Align8(DataOffset(c) + |c.data|)
  }

  /** Entry `i` after its Next field: padded to eight unless it is the last. */
  function Rest(list: seq<CreateContext>, i: nat): (s: bytes)
    requires i < |list|
    ensures i + 1 < |list| ==> 4 + |s| == Stride(list[i])
  {
    var c := list[i];
    Fields(c) + Body(c) + if i + 1 == |list| then [] else Zeros(Stride(c) - DataOffset(c) - |c.data|)
  }

  /** The Next that entry `i` ends up with. */
  function NextOf(list: seq<CreateContext>, i: nat): nat
    requires i < |list|
  {
    if i + 1 == |list| then 0 else Stride(list[i])
  }

  /** Entry `i`, its Next filled in when `patched`. */
  function Block(list: seq<CreateContext>, i: nat, patched: bool): (s: bytes)
    requires i < |list|
    ensures |s| == 4 + |Rest(list, i)|
  {
    Put32(if patched then NextOf(list, i) else 0) + Rest(list, i)
  }

  /** The first `upto` entries, the first `patched` of them with Next filled in. */
  function Built(list: seq<CreateContext>, patched: nat, upto: nat): (s: bytes)
    requires upto <= |list|
  {
    if upto == 0 then [] else Built(list, patched, upto - 1) + Block(list, upto - 1, upto - 1 < patched)
  }

  /** The finished chain. */
  function Chain(list: seq<CreateContext>): bytes {
    Built(list, |list|, |list|)
  }

  /** Where entry `i` starts. */
  function Start(list: seq<CreateContext>, i: nat): nat
    requires i <= |list|
  {
    |Built(list, |list|, i)|
  }

  lemma BuiltNone(list: seq<CreateContext>)
    ensures Built(list, 0, 0) == []
  {
  }

  lemma {:induction false} BuiltAgree(list: seq<CreateContext>, p: nat, q: nat, upto: nat)
    requires upto <= |list|
    ensures |Built(list, p, upto)| == |Built(list, q, upto)|
    ensures upto <= p && upto <= q ==> Built(list, p, upto) == Built(list, q, upto)
  {
    hide Block, Rest;
    if upto > 0 {
      BuiltAgree(list, p, q, upto - 1);
    }
  }

  /** Every entry starts eight-aligned. */
  lemma {:induction false} EntriesAligned(list: seq<CreateContext>, patched: nat, i: nat)
    requires i < |list|
    ensures |Built(list, patched, i)| % 8 == 0
  {
    hide Block, Rest, DataOffset, Align8;
    if i > 0 {
      EntriesAligned(list, patched, i - 1);
      AlignedSum(|Built(list, patched, i - 1)|, Stride(list[i - 1]));
    }
  }

  lemma PatchHere(list: seq<CreateContext>, j: nat)
    requires j < |list|
    ensures Patch(Built(list, j, j + 1), |Built(list, j, j)|, Put32(NextOf(list, j))) == Built(list, j + 1, j + 1)
  {
    hide Put32, Rest, NextOf, Patch, DataOffset, Align8;
    BuiltAgree(list, j, j + 1, j);
    PatchHead(Put32(0), Put32(NextOf(list, j)), Rest(list, j));
    PatchSecond(Built(list, j, j), Block(list, j, false), 0, Put32(NextOf(list, j)));
  }

  /** Filling in entry `j`'s Next turns "first j patched" into "first j + 1 patched". */
  lemma {:induction false} PatchOne(list: seq<CreateContext>, j: nat, upto: nat)
    requires j < upto <= |list|
    ensures var at := |Built(list, j, j)|;
            && at + 4 <= |Built(list, j, upto)|
            && Patch(Built(list, j, upto), at, Put32(NextOf(list, j))) == Built(list, j + 1, upto)
  {
    hide Put32, Rest, NextOf, Patch, Block;
    if upto - 1 == j {
      PatchHere(list, j);
    } else {
      PatchOne(list, j, upto - 1);
      PatchFirst(Built(list, j, upto - 1), Block(list, upto - 1, false), |Built(list, j, j)|, Put32(NextOf(list, j)));
    }
  }

  /** One entry appended to the scratch buffer, Next still zero. */
  method AppendEntry(c: CreateContext, scratch0: bytes) returns (scratch: bytes)
    ensures scratch == scratch0 + (Put32(0) + Fields(c) + Body(c))
  {
    hide Put32, Put16, Align8, Patch;
    scratch := scratch0 + Zeros(16);
    var nameOffset := |scratch| - |scratch0|;
    scratch := scratch + c.name;
    scratch := PadTo8(scratch, |scratch0|);
    var dataOffset := |scratch| - |scratch0|;
    AlignedSum(16, |c.name|);
    scratch := scratch + c.data;
    var head := Put32(0)
      + (Put16(nameOffset) + Put16(|c.name|) + Put16(0) + Put16(dataOffset) + Put32(|c.data|));
    BackFill(c, scratch0, scratch, head);
    scratch := Patch(scratch, |scratch0|, head);
  }

  lemma BackFill(c: CreateContext, before: bytes, grown: bytes, head: bytes)
    requires |head| == 16
    requires grown == before + Zeros(16) + c.name + Zeros(Align8(|c.name|) - |c.name|) + c.data
    ensures Patch(grown, |before|, head) == before + (head + Body(c))
  {
    hide Align8, Patch;
    assert grown == before + (Zeros(16) + Body(c));
    PatchSecond(before, Zeros(16) + Body(c), 0, head);
    PatchHead(Zeros(16), head, Body(c));
  }

  /** First pass of `encode_chain`: grow a scratch buffer with every Next zero, remember the starts. */
  method AppendEntries(list: seq<CreateContext>) returns (scratch: bytes, starts: seq<nat>)
    ensures scratch == Built(list, 0, |list|) && |starts| == |list|
    ensures forall k :: 0 <= k < |list| ==> starts[k] == |Built(list, 0, k)|
  {
    hide *;
    scratch, starts := [], [];
    BuiltNone(list);
    for i := 0 to |list|
      invariant |starts| == i && scratch == Built(list, 0, i)
      invariant forall k :: 0 <= k < i ==> starts[k] == |Built(list, 0, k)|
    {
      EntriesAligned(list, 0, i);
      PaddedAlready(scratch);
      scratch := PadTo8(scratch, 0);
      starts := starts + [|scratch|];
      scratch := AppendEntry(list[i], scratch);
      if i + 1 < |list| {
        scratch := PadTo8(scratch, 0);
      }
      AppendedBlock(list, i, scratch);
    }
  }

  /** `encode_chain`: append the entries, then patch each Next but the last. */
  method EncodeChain(list: seq<CreateContext>, out0: bytes) returns (out: bytes)
    ensures out == out0 + Chain(list)
  {
    hide *;
    if |list| == 0 {
      EmptyChain(out0);
      return out0;
    }
    var scratch, starts := AppendEntries(list);
    var last := |starts| - 1;
    for i := 0 to last
      invariant scratch == Built(list, i, |list|)
    {
      PatchAtStart(list, i);
      var delta := starts[i + 1] - starts[i];
      scratch := Patch(scratch, starts[i], Put32(delta));
    }
    LastNeedsNoPatch(list);
    out := out0 + scratch;
  }

  lemma EmptyChain(out: bytes)
    ensures out + Chain([]) == out
  {
  }

  /** The recorded starts give both where to patch and what to write. */
  lemma PatchAtStart(list: seq<CreateContext>, i: nat)
    requires i + 1 < |list|
    ensures var at, after := |Built(list, 0, i)|, |Built(list, 0, i + 1)|;
            && after >= at && at + 4 <= |Built(list, i, |list|)|
            && Patch(Built(list, i, |list|), at, Put32(after - at)) == Built(list, i + 1, |list|)
  {
    hide Put32, Rest, Patch, DataOffset, Align8;
    BuiltAgree(list, 0, i, i);
    PatchOne(list, i, |list|);
    assert |Built(list, 0, i + 1)| == |Built(list, 0, i)| + |Block(list, i, false)|;
  }

  lemma LastNeedsNoPatch(list: seq<CreateContext>)
    requires list != []
    ensures Built(list, |list| - 1, |list|) == Chain(list)
  {
    hide Put32, Rest;
    BuiltAgree(list, |list| - 1, |list|, |list| - 1);
  }

  lemma AppendedBlock(list: seq<CreateContext>, i: nat, after: bytes)
    requires i < |list| && |Built(list, 0, i)| % 8 == 0
    requires var grown := Built(list, 0, i) + (Put32(0) + Fields(list[i]) + Body(list[i]));
             after == if i + 1 == |list| then grown else Padded(grown, 0)
    ensures after == Built(list, 0, i + 1)
  {
    hide Put32, Fields, Body, Align8;
    var before := Built(list, 0, i);
    var c := list[i];
    var size := DataOffset(c) + |c.data|;
    AlignedSum(|before|, size);
    var pad := if i + 1 == |list| then [] else Zeros(Stride(c) - size);
    assert after == before + (Put32(0) + Fields(c) + Body(c)) + pad;
    Regroup(before, Put32(0), Fields(c), Body(c), pad);
  }

  lemma Regroup(a: bytes, b: bytes, c: bytes, d: bytes, e: bytes)
    ensures a + (b + c + d) + e == a + (b + (c + d + e))
  {
  }

  /** Push zeros until the length past `from` is a multiple of eight. */
  method PadTo8(s: bytes, from: nat) returns (r: bytes)
    requires from <= |s|
    ensures r == Padded(s, from)
  {
    r := s;
    while (|r| - from) % 8 != 0
      invariant |s| <= |r| <= from + Align8(|s| - from)
      invariant r == s + Zeros(|r| - |s|)
      decreases from + Align8(|s| - from) - |r|
    {
      r := r + [0];
    }
  }

  // ---- parsing ----

  /** One entry read at the front of `entry`, which runs to the end of the chain. */
  function ReadEntry(entry: bytes): (r: Result<(CreateContext, nat)>) {
    if |entry| < 16 then Err("create context too short")
    else
      var next := Get32(entry, 0);
      var nameOffset := Get16(entry, 4);
      var nameLength := Get16(entry, 6);
      var dataOffset := Get16(entry, 10);
      var dataLength := Get32(entry, 12);
      if nameOffset + nameLength > |entry| then Err("create context name out of range")
      else
        var name := entry[nameOffset..nameOffset + nameLength];
        if dataLength == 0 then Ok((CreateContext(name, []), next))
        else if dataOffset + dataLength > |entry| then Err("create context data out of range")
        else Ok((CreateContext(name, entry[dataOffset..dataOffset + dataLength]), next))
  }

  function ParseFrom(chain: bytes, at: nat): (r: Result<seq<CreateContext>>)
    decreases |chain| - at
  {
    if at > |chain| then Err("create context out of range")
    else match ReadEntry(chain[at..])
      case Err(e) => Err(e)
      case Ok((c, next)) =>
        if next == 0 then Ok([c])
        else Prepend([c], ParseFrom(chain, at + next))
  }

  function Parsed(chain: bytes): Result<seq<CreateContext>> {
    if chain == [] then Ok([]) else ParseFrom(chain, 0)
  }

  /** `parse_chain`: follow Next until zero. */
  method ParseChain(chain: bytes) returns (r: Result<seq<CreateContext>>)
    ensures r == Parsed(chain)
  {
    hide ReadEntry;
    var out: seq<CreateContext> := [];
    if |chain| == 0 {
      return Ok(out);
    }
    var at: nat := 0;
    PrependLaws([], [], ParseFrom(chain, 0));
    while true
      invariant Parsed(chain) == Prepend(out, ParseFrom(chain, at))
      decreases |chain| - at
    {
      if at > |chain| {
        return Err("create context out of range");
      }
      match ReadEntry(chain[at..])
      case Err(e) =>
        return Err(e);
      case Ok((c, next)) =>
        PrependLaws(out, [c], ParseFrom(chain, at + next));
        out := out + [c];
        if next == 0 {
          return Ok(out);
        }
        at := at + next;
    }
  }

  // ---- round trip ----

  /** The lengths survive the casts to u16 and u32; the data offset matters only if there is data. */
  predicate FitsLengths(name: nat, data: nat) {
    name < U16 && data < U32 && (data == 0 || name <= 65512)
  }

  predicate Encodable(list: seq<CreateContext>) {
    forall i :: 0 <= i < |list| ==>
      FitsLengths(|list[i].name|, |list[i].data|) && (i + 1 < |list| ==> Stride(list[i]) < U32)
  }

  /** The header's fields, read back from any bytes that start with them. */
  lemma HeadReads(entry: bytes, c: CreateContext, next: nat)
    requires 16 <= |entry| && entry[..4] == Put32(next) && entry[4..16] == Fields(c)
    ensures Get32(entry, 0) == next % U32
    ensures Get16(entry, 4) == 16 && Get16(entry, 6) == |c.name| % U16
    ensures Get16(entry, 8) == 0 && Get16(entry, 10) == DataOffset(c) % U16
    ensures Get32(entry, 12) == |c.data| % U32
  {
    hide Put32, Put16, Get32, Get16, DataOffset;
    var f := Fields(c);
    assert f[0..2] == Put16(16) && f[2..4] == Put16(|c.name|) && f[4..6] == Put16(0);
    assert f[6..8] == Put16(DataOffset(c)) && f[8..12] == Put32(|c.data|);
    SubSlice(entry, 4, 16, 0, 2);
    SubSlice(entry, 4, 16, 2, 4);
    SubSlice(entry, 4, 16, 4, 6);
    SubSlice(entry, 4, 16, 6, 8);
    SubSlice(entry, 4, 16, 8, 12);
    GetPut32(entry, 0, next);
    GetPut16(entry, 4, 16);
    GetPut16(entry, 6, |c.name|);
    GetPut16(entry, 8, 0);
    GetPut16(entry, 10, DataOffset(c));
    GetPut32(entry, 12, |c.data|);
  }

  lemma BodySlices(c: CreateContext, entry: bytes, tail: bytes)
    requires 16 <= |entry| && entry[16..] == Body(c) + tail
    ensures var d := DataOffset(c);
            && d + |c.data| <= |entry|
            && entry[16..16 + |c.name|] == c.name && entry[d..d + |c.data|] == c.data
  {
    hide Align8;
    var d := DataOffset(c);
    var b := Body(c) + tail;
    assert b[..|c.name|] == c.name && b[d - 16..d - 16 + |c.data|] == c.data;
    assert entry[16..16 + |c.name|] == entry[16..][..|c.name|];
    assert entry[d..d + |c.data|] == entry[16..][d - 16..d - 16 + |c.data|];
  }

  lemma Parts(a: bytes, b: bytes, c: bytes, d: bytes)
    ensures var s := a + b + c + d; var m := |a| + |b|;
            s[..|a|] == a && s[|a|..m] == b && s[m..] == c + d
  {
  }

  lemma ReadBack(c: CreateContext, next: nat, tail: bytes)
    requires FitsLengths(|c.name|, |c.data|) && next < U32
    ensures ReadEntry(Put32(next) + Fields(c) + Body(c) + tail) == Ok((c, next))
  {
    hide Put32, Fields, Get16, Get32, Align8, Body;
    var entry := Put32(next) + Fields(c) + Body(c) + tail;
    Parts(Put32(next), Fields(c), Body(c), tail);
    HeadReads(entry, c, next);
    AlignedSum(16, |c.name|);
    BodySlices(c, entry, tail);
  }

  /** From entry `i` on, the chain is entry `i` followed by something. */
  lemma {:induction false} SuffixAt(list: seq<CreateContext>, i: nat, upto: nat) returns (tail: bytes)
    requires i < upto <= |list|
    ensures Start(list, i) + |Block(list, i, true)| == Start(list, i + 1) <= |Built(list, |list|, upto)|
    ensures Built(list, |list|, upto)[Start(list, i)..] == Block(list, i, true) + tail
    ensures |tail| == |Built(list, |list|, upto)| - Start(list, i + 1)
  {
    hide Block, Rest, Stride, Align8;
    var front, b := Built(list, |list|, upto - 1), Block(list, upto - 1, true);
    if upto - 1 == i {
      tail := [];
      DropAppend(front, b, |front|);
    } else {
      tail := SuffixAt(list, i, upto - 1);
      DropAppend(front, b, Start(list, i));
      tail := tail + b;
    }
  }

  lemma {:induction false} ParseEncodedFrom(list: seq<CreateContext>, i: nat)
    requires i < |list| && Encodable(list)
    ensures Start(list, i) <= |Chain(list)|
    ensures ParseFrom(Chain(list), Start(list, i)) == Ok(list[i..])
    decreases |list| - i
  {
    hide Put32, Fields, Body, ReadEntry, Built;
    var tail := SuffixAt(list, i, |list|);
    var c := list[i];
    var pad := if i + 1 == |list| then [] else Zeros(Stride(c) - DataOffset(c) - |c.data|);
    assert Block(list, i, true) + tail == Put32(NextOf(list, i)) + Fields(c) + Body(c) + (pad + tail);
    ReadBack(c, NextOf(list, i), pad + tail);
    if i + 1 == |list| {
      assert list[i..] == [c];
    } else {
      ParseEncodedFrom(list, i + 1);
      assert list[i..] == [c] + list[i + 1..];
    }
  }

  /** Parsing an encoded chain returns the list. */
  lemma RoundTrip(list: seq<CreateContext>)
    requires Encodable(list)
    ensures Parsed(Chain(list)) == Ok(list)
  {
    if list != [] {
      ParseEncodedFrom(list, 0);
      assert list[0..] == list;
    }
  }

  /** The wire layout of an entry (MS-SMB2 section 2.2.13.2), field by field. */
  lemma EntryLayout(c: CreateContext, next: nat)
    ensures var s := Put32(next) + Fields(c) + Body(c); var at := 16 + Align8(|c.name|);
            && s[0..4] == Put32(next) && s[4..6] == Put16(16) && s[6..8] == Put16(|c.name|) && s[8..10] == Put16(0)
            && s[10..12] == Put16(at) && s[12..16] == Put32(|c.data|)
            && s[16..16 + |c.name|] == c.name && s[at..] == c.data && |s| == at + |c.data|
  {
    hide Put32, Put16, Align8;
  }
}
