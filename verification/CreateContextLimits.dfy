/** The create-context round trip, decided by the lengths alone: which lists of name and data lengths come back
    whatever the contents. */
module CreateContextLimits {
  import opened Bytes
  import opened CreateContexts

  function Lengths(list: seq<CreateContext>): (lens: seq<(nat, nat)>)
    ensures |lens| == |list|
  {
    seq(|list|, i requires 0 <= i < |list| => (|list[i].name|, |list[i].data|))
  }

  function StrideOf(name: nat, data: nat): nat {
    Align8(16 + Align8(name) + data)
  }

  predicate Fits(lens: seq<(nat, nat)>, i: nat)
    requires i < |lens|
  {
    FitsLengths(lens[i].0, lens[i].1) && (i + 1 < |lens| ==> StrideOf(lens[i].0, lens[i].1) < U32)
  }

  // ---- contents that come back wrong ----

  function Ones(n: nat): (s: bytes)
    ensures |s| == n && forall i :: 0 <= i < n ==> s[i] == 1
  {
    seq(n, i => 1)
  }

  /** The bytes to fill entry `i` with when entry `k` is the first whose lengths do not fit. */
  function FillName(lens: seq<(nat, nat)>, k: nat, i: nat): bytes
    requires i < |lens| && k < |lens|
  {
    if i == k && (!FitsLengths(lens[k].0, lens[k].1) || k + 2 < |lens|) then Zeros(lens[i].0) else Ones(lens[i].0)
  }

  function FillData(lens: seq<(nat, nat)>, k: nat, i: nat): bytes
    requires i < |lens| && k < |lens|
  {
    if i == k && FitsLengths(lens[k].0, lens[k].1) && k + 2 < |lens| then Zeros(lens[i].1) else Ones(lens[i].1)
  }

  function Breaker(lens: seq<(nat, nat)>, k: nat): (list: seq<CreateContext>)
    requires k < |lens|
    ensures |list| == |lens|
    ensures forall i :: 0 <= i < |list| ==> list[i] == CreateContext(FillName(lens, k, i), FillData(lens, k, i))
  {
    seq(|lens|, i requires 0 <= i < |lens| => CreateContext(FillName(lens, k, i), FillData(lens, k, i)))
  }

  lemma BreakerLengths(lens: seq<(nat, nat)>, k: nat)
    requires k < |lens|
    ensures Lengths(Breaker(lens, k)) == lens
  {
  }

  // ---- up to the first entry that does not fit ----

  predicate FitsBefore(list: seq<CreateContext>, k: nat) {
    forall i :: 0 <= i < k && i + 1 < |list| ==> FitsLengths(|list[i].name|, |list[i].data|) && Stride(list[i]) < U32
  }

  /** The bytes from entry `i`'s start on. */
  lemma EntryAt(list: seq<CreateContext>, i: nat) returns (tail: bytes)
    requires i < |list|
    ensures Start(list, i) <= |Chain(list)|
    ensures Chain(list)[Start(list, i)..] == Put32(NextOf(list, i)) + Fields(list[i]) + Body(list[i]) + tail
  {
    hide Put32, Fields, Body, Built, Align8;
    var more := SuffixAt(list, i, |list|);
    var c := list[i];
    var pad := if i + 1 == |list| then [] else Zeros(Stride(c) - DataOffset(c) - |c.data|);
    tail := pad + more;
    assert Block(list, i, true) + more == Put32(NextOf(list, i)) + Fields(c) + Body(c) + tail;
  }

  lemma {:induction false} ParsesUpTo(list: seq<CreateContext>, i: nat, k: nat)
    requires i <= k < |list| && FitsBefore(list, k)
    ensures ParseFrom(Chain(list), Start(list, i)) == Prepend(list[i..k], ParseFrom(Chain(list), Start(list, k)))
    decreases k - i
  {
    hide Put32, Fields, Body, ReadEntry, Built, Chain, FitsLengths;
    var r := ParseFrom(Chain(list), Start(list, k));
    if i == k {
      assert list[i..k] == [];
      PrependLaws([], [], r);
    } else {
      var c := list[i];
      var tail := EntryAt(list, i);
      assert FitsLengths(|c.name|, |c.data|) && Stride(c) < U32;
      ReadBack(c, Stride(c), tail);
      NextStart(list, i);
      StridePositive(c);
      ParsesUpTo(list, i + 1, k);
      assert list[i..k] == [c] + list[i + 1..k];
      PrependLaws([c], list[i + 1..k], r);
    }
  }

  lemma NextStart(list: seq<CreateContext>, i: nat)
    requires i + 1 < |list|
    ensures Start(list, i + 1) == Start(list, i) + Stride(list[i])
  {
    hide Fields, Body, Align8, Put32;
  }

  lemma StridePositive(c: CreateContext)
    ensures Stride(c) >= 16 && Stride(c) % 8 == 0 && Stride(c) < DataOffset(c) + |c.data| + 8
  {
  }

  lemma {:induction false} ParsedIsNotEmpty(chain: bytes, at: nat)
    ensures ParseFrom(chain, at).Ok? ==> ParseFrom(chain, at).value != []
  {
  }

  // ---- an entry whose own lengths do not fit ----

  lemma OwnLengthsFail(c: CreateContext, next: nat, tail: bytes)
    requires !FitsLengths(|c.name|, |c.data|) && next % 8 == 0
    requires c.name == Zeros(|c.name|) && c.data == Ones(|c.data|)
    ensures var r := ReadEntry(Put32(next) + Fields(c) + Body(c) + tail); r.Ok? ==> r.value.0 != c
  {
    hide Put32, Put16, Fields, Get16, Get32, Body;
    var entry := Put32(next) + Fields(c) + Body(c) + tail;
    Parts(Put32(next), Fields(c), Body(c), tail);
    HeadReads(entry, c, next);
    if |c.name| < U16 && |c.data| < U32 && ReadEntry(entry).Ok? {
      OffsetLandsWrong(c, next, entry, tail);
    }
  }

  /** A wrapped data offset lands on a byte that is not one. */
  lemma OffsetLandsWrong(c: CreateContext, next: nat, entry: bytes, tail: bytes)
    requires 65512 < |c.name| < U16 && c.name == Zeros(|c.name|) && next % 8 == 0
    requires entry == Put32(next) + Fields(c) + Body(c) + tail
    ensures var off := DataOffset(c) % U16; off < |entry| && entry[off] != 1
  {
    var off := DataOffset(c) % U16;
    assert off in {0, 8, 16};
    if off == 16 {
      hide Put32, Fields;
      assert entry[16] == c.name[0];
    } else if off == 8 {
      assert entry[8] == Put16(0)[0];
    } else {
      assert entry[0] == Put32(next)[0] == (next % U32) % 0x100;
      ByteOfEight(next);
    }
  }

  lemma ByteOfEight(n: nat)
    requires n % 8 == 0
    ensures ((n % U32) % 0x100) % 8 == 0
  {
  }

  // ---- an entry whose stride wraps ----

  lemma WrapBounds(c: CreateContext)
    requires FitsLengths(|c.name|, |c.data|) && Stride(c) >= U32
    ensures var r := Stride(c) % U32;
            && DataOffset(c) < U16 && |c.data| > U32 - U16 - 8
            && r % 8 == 0 && r <= DataOffset(c) && r == Stride(c) - U32
  {
  }

  lemma WrappedRead(c: CreateContext, tail: bytes)
    requires FitsLengths(|c.name|, |c.data|)
    ensures ReadEntry(Put32(Stride(c)) + Fields(c) + Body(c) + tail) == Ok((c, Stride(c) % U32))
  {
    hide Fields, Body, ReadEntry, Align8, ToLe;
    var r := Stride(c) % U32;
    assert Put32(Stride(c)) == Put32(r);
    ReadBack(c, r, tail);
  }

  /** Contents of one value: every body byte from an eight-aligned place on is that value or padding. */
  lemma BodyByte(c: CreateContext, head: bytes, tail: bytes, j: nat)
    requires |head| == 16 && 16 <= j < DataOffset(c) + |c.data|
    ensures var entry := head + Body(c) + tail;
            && j < |entry|
            && entry[j] == if j < 16 + |c.name| then c.name[j - 16]
                           else if j < DataOffset(c) then 0 else c.data[j - DataOffset(c)]
  {
    hide Align8;
  }

  /** A nonzero Next makes whatever is parsed there an error or more than one entry. */
  lemma NonzeroNext(chain: bytes, at: nat)
    requires at + 4 <= |chain| && Get32(chain[at..], 0) != 0
    ensures ParseFrom(chain, at).Ok? ==> |ParseFrom(chain, at).value| >= 2
  {
    hide Get16, FromLe;
    if at + 16 <= |chain| && ReadEntry(chain[at..]).Ok? {
      ParsedIsNotEmpty(chain, at + Get32(chain[at..], 0));
    }
  }

  /** Sixteen zero bytes parse as one empty entry. */
  lemma ZeroEntry(chain: bytes, at: nat)
    requires at + 16 <= |chain| && forall j :: at <= j < at + 16 ==> chain[j] == 0
    ensures ParseFrom(chain, at) == Ok([CreateContext([], [])])
  {
    hide FromLe;
    var e := chain[at..];
    assert forall j :: 0 <= j < 16 ==> e[j] == chain[at + j];
    ZeroField(e, 0, 4);
    ZeroField(e, 4, 2);
    ZeroField(e, 6, 2);
    ZeroField(e, 10, 2);
    ZeroField(e, 12, 4);
  }

  lemma ZeroField(e: bytes, at: nat, n: nat)
    requires at + n <= |e| && forall j :: at <= j < at + n ==> e[j] == 0
    ensures FromLe(e[at..at + n]) == 0
  {
    ZeroBytes(e[at..at + n]);
  }

  /** What is parsed where a wrapped Next points is not the rest of the list. */
  lemma WrapFails(list: seq<CreateContext>, k: nat, chain: bytes, start: nat, tail: bytes)
    requires k + 1 < |list| && FitsLengths(|list[k].name|, |list[k].data|) && Stride(list[k]) >= U32
    requires start <= |chain|
    requires chain[start..] == Put32(Stride(list[k])) + Fields(list[k]) + Body(list[k]) + tail
    requires Stride(list[k]) % U32 != 0
    requires if k + 2 < |list|
             then list[k].name == Zeros(|list[k].name|) && list[k].data == Zeros(|list[k].data|)
             else list[k].name == Ones(|list[k].name|) && list[k].data == Ones(|list[k].data|)
    requires list[k + 1].name == Ones(|list[k + 1].name|)
    ensures ParseFrom(chain, start + Stride(list[k]) % U32) != Ok(list[k + 1..])
  {
    hide Put32, Fields, Body, ParseFrom, FromLe, Align8;
    var c, r := list[k], Stride(list[k]) % U32;
    WrapBounds(c);
    var entry := chain[start..];
    var head := Put32(Stride(c)) + Fields(c);
    assert entry == head + Body(c) + tail;
    assert chain[start + r..] == entry[r..];
    BodyByte(c, head, tail, 16);
    if r == 8 {
      HeaderAsEntry(list, k, chain, start, tail);
    } else if k + 2 == |list| {
      AlignedContent(c, head, tail, r);
      FirstByteOne(chain, start + r);
      NonzeroNext(chain, start + r);
    } else {
      forall j | start + r <= j < start + r + 16
        ensures j < |chain| && chain[j] == 0
      {
        BodyByte(c, head, tail, j - start);
        assert chain[j] == entry[j - start];
      }
      ZeroEntry(chain, start + r);
    }
  }

  lemma FirstByteOne(chain: bytes, at: nat)
    requires at + 4 <= |chain| && chain[at] == 1
    ensures Get32(chain[at..], 0) != 0
  {
    var s := chain[at..][0..4];
    assert s[0] == 1;
    ZeroBytes(s);
  }

  /** An eight-aligned place before the data, or its start, is content and not padding. */
  lemma AlignedContent(c: CreateContext, head: bytes, tail: bytes, r: nat)
    requires |head| == 16 && 16 <= r <= DataOffset(c) && r % 8 == 0 && |c.data| >= 8
    requires c.name == Ones(|c.name|) && c.data == Ones(|c.data|)
    ensures var entry := head + Body(c) + tail; r + 4 <= |entry| && entry[r] == 1
  {
    BodyByte(c, head, tail, r);
    BodyByte(c, head, tail, r + 3);
  }

  /** The second half of an entry's own header, read as a header: Next is not zero, and the name is long and
      ends in the entry's contents. */
  lemma SecondHalf(c: CreateContext, entry: bytes, tail: bytes)
    requires FitsLengths(|c.name|, |c.data|) && Stride(c) >= U32
    requires entry == Put32(Stride(c)) + Fields(c) + Body(c) + tail
    ensures |entry| >= 24
    ensures var e := entry[8..]; var last := 8 + Get16(e, 4) + Get16(e, 6) - 1;
            Get32(e, 0) != 0 && Get16(e, 6) > 0 && 16 <= last < DataOffset(c) + |c.data| <= |entry|
  {
    hide Put32, Fields, Body, FromLe, Align8, Get16, Get32;
    WrapBounds(c);
    Parts(Put32(Stride(c)), Fields(c), Body(c), tail);
    HeadReads(entry, c, Stride(c));
    EntryLength(c, entry, tail);
    Quarters(entry, 8);
    Quarters(entry, 12);
    ShiftedFields(entry);
  }

  lemma EntryLength(c: CreateContext, entry: bytes, tail: bytes)
    requires |entry| == 16 + |Body(c)| + |tail|
    ensures |entry| >= DataOffset(c) + |c.data|
  {
  }

  /** Next wrapped to eight. */
  lemma HeaderAsEntry(list: seq<CreateContext>, k: nat, chain: bytes, start: nat, tail: bytes)
    requires k + 1 < |list| && FitsLengths(|list[k].name|, |list[k].data|) && Stride(list[k]) >= U32
    requires start <= |chain|
    requires chain[start..] == Put32(Stride(list[k])) + Fields(list[k]) + Body(list[k]) + tail
    requires k + 2 < |list| ==> list[k].name == Zeros(|list[k].name|) && list[k].data == Zeros(|list[k].data|)
    requires list[k + 1].name == Ones(|list[k + 1].name|)
    ensures ParseFrom(chain, start + 8) != Ok(list[k + 1..])
  {
    hide Put32, Fields, Body, FromLe, Align8, Get16, Get32, ParseFrom, ReadEntry, FitsLengths, DataOffset, Stride;
    var c, entry := list[k], chain[start..];
    SecondHalf(c, entry, tail);
    var e := chain[start + 8..];
    assert e == entry[8..];
    NonzeroNext(chain, start + 8);
    if k + 2 < |list| {
      FirstIsRead(chain, start + 8);
      NameEndsInBody(c, entry, tail);
      assert list[k + 1..][0] == list[k + 1];
    }
  }

  lemma NameEndsInBody(c: CreateContext, entry: bytes, tail: bytes)
    requires FitsLengths(|c.name|, |c.data|) && Stride(c) >= U32
    requires entry == Put32(Stride(c)) + Fields(c) + Body(c) + tail
    requires c.name == Zeros(|c.name|) && c.data == Zeros(|c.data|)
    ensures |entry| >= 8
    ensures var r := ReadEntry(entry[8..]); r.Ok? ==> r.value.0.name != [] && r.value.0.name != Ones(|r.value.0.name|)
  {
    hide Put32, Fields, Body, FromLe, Align8, Get32, FitsLengths, DataOffset, Stride;
    SecondHalf(c, entry, tail);
    var e := entry[8..];
    if ReadEntry(e).Ok? {
      var at, n := Get16(e, 4), Get16(e, 6);
      var name := e[at..at + n];
      ZeroBody(c, Put32(Stride(c)) + Fields(c), tail, 8 + at + n - 1);
      assert name[n - 1] == entry[8 + at + n - 1] == 0;
    }
  }

  lemma ZeroBody(c: CreateContext, head: bytes, tail: bytes, j: nat)
    requires |head| == 16 && 16 <= j < DataOffset(c) + |c.data|
    requires c.name == Zeros(|c.name|) && c.data == Zeros(|c.data|)
    ensures var entry := head + Body(c) + tail; j < |entry| && entry[j] == 0
  {
    hide Body;
    BodyByte(c, head, tail, j);
  }

  lemma ShiftedFields(entry: bytes)
    requires |entry| >= 24
    ensures var e := entry[8..];
            Get32(e, 0) == Get32(entry, 8) && Get16(e, 4) == Get16(entry, 12) && Get16(e, 6) == Get16(entry, 14)
  {
    hide FromLe;
    var e := entry[8..];
    assert e[0..4] == entry[8..12] && e[4..6] == entry[12..14] && e[6..8] == entry[14..16];
  }

  lemma FirstIsRead(chain: bytes, at: nat)
    requires at <= |chain|
    ensures ParseFrom(chain, at).Ok? ==>
      ReadEntry(chain[at..]).Ok? && ParseFrom(chain, at).value != [] && ParseFrom(chain,
          at).value[0] == ReadEntry(chain[at..]).value.0
  {
    hide ReadEntry;
  }

  // ---- the exact condition ----

  lemma FirstMisfit(lens: seq<(nat, nat)>) returns (k: nat)
    requires exists i :: 0 <= i < |lens| && !Fits(lens, i)
    ensures k < |lens| && !Fits(lens, k) && forall i :: 0 <= i < k ==> Fits(lens, i)
  {
    hide Fits;
    k := 0;
    while Fits(lens, k)
      invariant k < |lens| && forall i :: 0 <= i < k ==> Fits(lens, i)
      invariant exists i :: k <= i < |lens| && !Fits(lens, i)
      decreases |lens| - k
    {
      k := k + 1;
    }
  }

  lemma BreakerFails(lens: seq<(nat, nat)>, k: nat)
    requires k < |lens| && !Fits(lens, k) && forall i :: 0 <= i < k ==> Fits(lens, i)
    ensures Parsed(Chain(Breaker(lens, k))) != Ok(Breaker(lens, k))
  {
    hide Put32, Fields, Body, Built, ReadEntry, Chain, FitsLengths, Align8, ParseFrom;
    var list := Breaker(lens, k);
    var c, chain, start := list[k], Chain(list), Start(list, k);
    BreakerFitsBefore(lens, k);
    var tail := EntryAt(list, k);
    StartsAtZero(list);
    ParsesUpTo(list, 0, k);
    StridePositive(c);
    ParsedHere(chain, start);
    assert list[..k] == list[0..k];
    MisfitIsWrap(lens, k);
    if !FitsLengths(|c.name|, |c.data|) {
      OwnLengthsFail(c, NextOf(list, k), tail);
      FirstIsRead(chain, start);
      assert list[k..][0] == c;
    } else {
      WrappedRead(c, tail);
      assert list[k..] == [c] + list[k + 1..] && |list[k..]| >= 2;
      if Stride(c) % U32 != 0 {
        WrapFails(list, k, chain, start, tail);
        PrependOne(c, ParseFrom(chain, start + Stride(c) % U32), list[k + 1..]);
      }
    }
    Differs(list, k, chain, start);
  }

  lemma PrependOne(c: CreateContext, r: Result<seq<CreateContext>>, rest: seq<CreateContext>)
    requires r != Ok(rest)
    ensures Prepend([c], r) != Ok([c] + rest)
  {
    if r.Ok? {
      assert ([c] + r.value)[1..] == r.value && ([c] + rest)[1..] == rest;
    }
  }

  lemma MisfitIsWrap(lens: seq<(nat, nat)>, k: nat)
    requires k < |lens| && !Fits(lens, k)
    ensures var list := Breaker(lens, k); var c := list[k];
            if !FitsLengths(|c.name|, |c.data|) then c.name == Zeros(|c.name|) && c.data == Ones(|c.data|)
            else
              && k + 1 < |list| && Stride(c) >= U32 && NextOf(list, k) == Stride(c)
              && list[k + 1].name == Ones(|list[k + 1].name|)
              && (if k + 2 < |list| then c.name == Zeros(|c.name|) && c.data == Zeros(|c.data|)
                  else c.name == Ones(|c.name|) && c.data == Ones(|c.data|))
  {
    hide Align8, FitsLengths;
  }

  lemma ParsedHere(chain: bytes, at: nat)
    requires at <= |chain|
    ensures ReadEntry(chain[at..]).Ok? ==>
      var (c, next) := ReadEntry(chain[at..]).value;
      ParseFrom(chain, at) == if next == 0 then Ok([c]) else Prepend([c], ParseFrom(chain, at + next))
  {
    hide ReadEntry;
  }

  lemma Differs(list: seq<CreateContext>, k: nat, chain: bytes, start: nat)
    requires k < |list| && ParseFrom(chain, start) != Ok(list[k..])
    ensures Prepend(list[..k], ParseFrom(chain, start)) != Ok(list)
  {
    hide ParseFrom;
    var r := ParseFrom(chain, start);
    if r.Ok? {
      assert (list[..k] + r.value)[k..] == r.value;
    }
  }

  lemma StartsAtZero(list: seq<CreateContext>)
    requires list != []
    ensures Start(list, 0) == 0 && Chain(list) != []
  {
    hide Put32, Rest;
  }

  lemma BreakerFitsBefore(lens: seq<(nat, nat)>, k: nat)
    requires k < |lens| && forall i :: 0 <= i < k ==> Fits(lens, i)
    ensures FitsBefore(Breaker(lens, k), k)
  {
    hide Align8, FitsLengths;
    var list := Breaker(lens, k);
    forall i | 0 <= i < k && i + 1 < |list|
      ensures FitsLengths(|list[i].name|, |list[i].data|) && Stride(list[i]) < U32
    {
      assert Fits(lens, i);
      assert |list[i].name| == lens[i].0 && |list[i].data| == lens[i].1;
    }
  }

  lemma FitsIsEncodable(list: seq<CreateContext>, lens: seq<(nat, nat)>)
    requires Lengths(list) == lens && forall i :: 0 <= i < |lens| ==> Fits(lens, i)
    ensures Encodable(list)
  {
    hide FitsLengths, Align8;
    forall i | 0 <= i < |list|
      ensures FitsLengths(|list[i].name|, |list[i].data|) && (i + 1 < |list| ==> Stride(list[i]) < U32)
    {
      assert Lengths(list)[i] == lens[i] && Fits(lens, i);
    }
  }

  /** Every list with these lengths comes back, if and only if every name and data length fits its field, the
      data offset too where there are data, and every stride to a next entry. */
  lemma ExactByLengths(lens: seq<(nat, nat)>)
    ensures (forall list :: Lengths(list) == lens ==> Parsed(Chain(list)) == Ok(list))
            <==> forall i :: 0 <= i < |lens| ==> Fits(lens, i)
  {
    hide Parsed, Chain, FitsLengths, Align8;
    if forall i :: 0 <= i < |lens| ==> Fits(lens, i) {
      forall list | Lengths(list) == lens
        ensures Parsed(Chain(list)) == Ok(list)
      {
        FitsIsEncodable(list, lens);
        RoundTrip(list);
      }
    } else {
      var k := FirstMisfit(lens);
      BreakerLengths(lens, k);
      BreakerFails(lens, k);
    }
  }
}
