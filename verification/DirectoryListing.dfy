/** QUERY_DIRECTORY: a cursor over a snapshot of the directory, packed into bounded buffers of chained
    entries. */
module DirectoryListing {
  import opened Bytes
  import opened NtStatus
  import Utf16
  import Wildcard

  datatype FileInfo = FileInfo(
    name: string, creation: u64, access: u64, write: u64, change: u64, endOfFile: u64, allocation: u64,
    isDirectory: bool, fileIndex: u64)

  datatype Class = Directory | FullDirectory | BothDirectory | Names | IdBothDirectory | IdFullDirectory

  function ClassFromByte(v: byte): Option<Class> {
    if v == 0x01 then Some(Directory) else if v == 0x02 then Some(FullDirectory)
    else if v == 0x03 then Some(BothDirectory) else if v == 0x0C then Some(Names)
    else if v == 0x25 then Some(IdBothDirectory) else if v == 0x26 then Some(IdFullDirectory)
    else None
  }

  // ---- entry encoding ----

  function NameBytes(e: FileInfo): bytes {
    Utf16.Encode(e.name)
  }

  /** Where the name's length and the name itself stand in an entry of this class. */
  function LengthAt(c: Class): nat { if c == Names then 8 else 60 }
  function NameAt(c: Class): nat {
    match c
    case Directory => 64 case FullDirectory => 68 case BothDirectory => 94 case Names => 12
    case IdBothDirectory => 104 case IdFullDirectory => 80
  }

  /** `write_dir_entry_prefix` without the NextEntryOffset and the name's length around it. */
  function Times(e: FileInfo): (s: bytes)
    ensures |s| == 56
  {
    Put32(e.fileIndex) + Put64(e.creation) + Put64(e.access) + Put64(e.write) + Put64(e.change)
    + Put64(e.endOfFile) + Put64(e.allocation) + Put32(if e.isDirectory then 0x10 else 0x80)
  }

  /** Bytes between the NextEntryOffset and the name's length. */
  function Lead(c: Class, e: FileInfo): (s: bytes)
    ensures 4 + |s| == LengthAt(c)
  {
    if c == Names then Put32(e.fileIndex) else Times(e)
  }

  /** Bytes between the name's length and the name. */
  function Gap(c: Class, e: FileInfo): (s: bytes)
    ensures LengthAt(c) + 4 + |s| == NameAt(c)
  {
    match c
    case Directory | Names => []
    case FullDirectory => Put32(0)
    case BothDirectory => Put32(0) + [0] + [0] + Zeros(24)
    case IdBothDirectory => Put32(0) + [0] + [0] + Zeros(24) + Put16(0) + Put64(e.fileIndex)
    case IdFullDirectory => Put32(0) + Put32(0) + Put64(e.fileIndex)
  }

  function AfterNext(c: Class, e: FileInfo): (s: bytes)
    ensures 4 + |s| == NameAt(c) + |NameBytes(e)|
  {
    Lead(c, e) + Put32(|NameBytes(e)|) + Gap(c, e) + NameBytes(e)
  }

  /** `encode_dir_entry`. */
  function EncodeEntry(c: Class, e: FileInfo): (s: bytes)
    ensures |s| == NameAt(c) + |NameBytes(e)|
  {
    Put32(0) + AfterNext(c, e)
  }

  function EntrySize(c: Class, e: FileInfo): (n: nat)
    ensures n >= 12
  {
    Align8(|EncodeEntry(c, e)|)
  }

  /** The zeros that align an entry to eight bytes. */
  function Pad(c: Class, e: FileInfo): (s: bytes)
    ensures |EncodeEntry(c, e)| + |s| == EntrySize(c, e)
  {
    Zeros(EntrySize(c, e) - |EncodeEntry(c, e)|)
  }

  // ---- the packed buffer ----

  /** An entry padded to eight bytes, its NextEntryOffset set when another follows. */
  function Block(c: Class, e: FileInfo, followed: bool): (s: bytes)
    ensures |s| == EntrySize(c, e)
  {
    Put32(if followed then EntrySize(c, e) else 0) + AfterNext(c, e) + Pad(c, e)
  }

  function Blocks(c: Class, es: seq<FileInfo>): (s: seq<bytes>)
    ensures |s| == |es| && forall i :: 0 <= i < |es| ==> s[i] == Block(c, es[i], i + 1 < |es|)
  {
    seq(|es|, i requires 0 <= i < |es| => Block(c, es[i], i + 1 < |es|))
  }

  function Packed(c: Class, es: seq<FileInfo>): bytes {
    Flatten(Blocks(c, es))
  }

  /** Where the cursor stops: at the end, after one entry when asked for one, or before the first entry that
      would overrun the client's buffer, which an empty response never refuses. */
  function Stop(c: Class, es: seq<FileInfo>, next: nat, cap: nat, single: bool, size: nat): (stop: nat)
    requires next <= |es|
    ensures next <= stop <= |es|
    decreases |es| - next
  {
    if next == |es| then next
    else
      var total := size + EntrySize(c, es[next]);
      if total > cap && size > 0 then next
      else if single then next + 1
      else Stop(c, es, next + 1, cap, single, total)
  }

  /** A packed buffer ends in its last entry's block, unchained; with one more entry that block is chained. */
  lemma LastBlock(c: Class, es: seq<FileInfo>, e: FileInfo)
    requires es != []
    ensures var last := es[|es| - 1]; var front := Flatten(Blocks(c, es)[..|es| - 1]);
            && Packed(c, es) == front + Block(c, last, false)
            && Packed(c, es + [e]) == front + Block(c, last, true) + Block(c, e, false)
  {
    hide Flatten, Block, EntrySize;
    var bs, l := Blocks(c, es), |es| - 1;
    var b0, b1, b2 := Block(c, es[l], false), Block(c, es[l], true), Block(c, e, false);
    assert bs == bs[..l] + [b0];
    FlattenAppend(bs[..l], [b0]);
    FlattenOne(b0);
    assert Blocks(c, es + [e]) == bs[..l] + [b1] + [b2];
    FlattenAppend(bs[..l] + [b1], [b2]);
    FlattenAppend(bs[..l], [b1]);
    FlattenOne(b1);
    FlattenOne(b2);
  }

  lemma PackedSnoc(c: Class, es: seq<FileInfo>, e: FileInfo)
    requires es != []
    ensures var at := |Packed(c, es)| - EntrySize(c, es[|es| - 1]);
            && 0 <= at && at + 4 <= |Packed(c, es)|
            && Packed(c, es + [e])
               == Patch(Packed(c, es), at, Put32(|Packed(c, es)| - at)) + Block(c, e, false)
  {
    hide Packed, Blocks, Flatten, Patch, Put32, Block, EntrySize;
    var l := |es| - 1;
    LastBlock(c, es, e);
    BlockPatched(c, es[l]);
    PatchSecond(Flatten(Blocks(c, es)[..l]), Block(c, es[l], false), 0, Put32(EntrySize(c, es[l])));
  }

  lemma BlockPatched(c: Class, e: FileInfo)
    ensures Patch(Block(c, e, false), 0, Put32(EntrySize(c, e))) == Block(c, e, true)
  {
    hide Put32, AfterNext, EntrySize, Patch, Pad;
    var pad := Pad(c, e);
    Assoc(Put32(0), AfterNext(c, e), pad);
    Assoc(Put32(EntrySize(c, e)), AfterNext(c, e), pad);
    PatchHead(Put32(0), Put32(EntrySize(c, e)), AfterNext(c, e) + pad);
  }

  lemma PackedNone(c: Class)
    ensures Packed(c, []) == []
  {
  }

  lemma PackedOne(c: Class, e: FileInfo)
    ensures Packed(c, [e]) == Block(c, e, false)
  {
    assert Blocks(c, [e]) == [Block(c, e, false)];
    FlattenOne(Block(c, e, false));
  }

  /** The entry, padded in place. */
  lemma PaddedEntry(c: Class, e: FileInfo)
    ensures EncodeEntry(c, e) + Pad(c, e) == Block(c, e, false)
  {
  }

  /** What one turn of the packing loop appends. */
  function Appended(c: Class, es: seq<FileInfo>, next0: nat, next: nat, buf: bytes): bytes
    requires next0 <= next < |es| && buf == Packed(c, es[next0..next])
  {
    var front :=
      if next == next0 then buf
      else (PackedLast(c, es[next0..next]);
            var at := |buf| - EntrySize(c, es[next - 1]);
            Patch(buf, at, Put32(|buf| - at)));
    front + EncodeEntry(c, es[next]) + Pad(c, es[next])
  }

  lemma PackedLast(c: Class, es: seq<FileInfo>)
    requires es != []
    ensures |Packed(c, es)| >= EntrySize(c, es[|es| - 1])
  {
    hide Packed, EntrySize;
    PackedSnoc(c, es, es[0]);
  }

  lemma PackedNext(c: Class, es: seq<FileInfo>, next0: nat, next: nat)
    requires next0 <= next < |es|
    ensures Packed(c, es[next0..next + 1]) == Appended(c, es, next0, next, Packed(c, es[next0..next]))
    ensures |Packed(c, es[next0..next + 1])| == |Packed(c, es[next0..next])| + EntrySize(c, es[next])
  {
    hide Put32, Patch, EncodeEntry, EntrySize, Packed, Block, Pad;
    var done, e := es[next0..next], es[next];
    assert es[next0..next + 1] == done + [e];
    PaddedEntry(c, e);
    if next > next0 {
      PackedSnoc(c, done, e);
      assert done[|done| - 1] == es[next - 1];
      var at := |Packed(c, done)| - EntrySize(c, es[next - 1]);
      Assoc(Patch(Packed(c, done), at, Put32(|Packed(c, done)| - at)), EncodeEntry(c, e), Pad(c, e));
    } else {
      assert done == [] && done + [e] == [e];
      PackedNone(c);
      PackedOne(c, e);
      Nil(Block(c, e, false));
      Assoc([], EncodeEntry(c, e), Pad(c, e));
    }
  }

  /** One entry: patch the previous NextEntryOffset, append, pad. */
  method PackEntry(c: Class, ghost es: seq<FileInfo>, ghost next0: nat, ghost next: nat, buf0: bytes,
                   lastOffsetPos: Option<nat>, entry: bytes, aligned: nat) returns (buf: bytes)
    requires next0 <= next < |es| && buf0 == Packed(c, es[next0..next])
    requires lastOffsetPos == if next == next0 then None else Some(|buf0| - EntrySize(c, es[next - 1]))
    requires entry == EncodeEntry(c, es[next]) && aligned == EntrySize(c, es[next])
    ensures buf == Packed(c, es[next0..next + 1]) && |buf| == |buf0| + aligned
  {
    hide Put32, Patch, EncodeEntry, EntrySize, Packed, Align8, Pad, Zeros;
    SizeIsAligned(c, es[next]);
    PackedNext(c, es, next0, next);
    buf := buf0;
    if lastOffsetPos.Some? {
      PackedLast(c, es[next0..next]);
      buf := Patch(buf, lastOffsetPos.value, Put32(|buf| - lastOffsetPos.value));
    }
    buf := buf + entry;
    buf := buf + Zeros(aligned - |entry|);
  }

  lemma StopStep(c: Class, es: seq<FileInfo>, next: nat, cap: nat, single: bool, size: nat)
    requires next <= |es|
    ensures next == |es| ==> Stop(c, es, next, cap, single, size) == next
    ensures next < |es| ==>
      var total := size + EntrySize(c, es[next]);
      Stop(c, es, next, cap, single, size)
      == if total > cap && size > 0 then next
         else if single then next + 1
         else Stop(c, es, next + 1, cap, single, total)
  {
    hide EntrySize;
  }

  /** The packing loop. */
  method Pack(c: Class, es: seq<FileInfo>, next0: nat, cap: nat, single: bool) returns (buf: bytes, next: nat)
    requires next0 <= |es|
    ensures next == Stop(c, es, next0, cap, single, 0)
    ensures buf == Packed(c, es[next0..next])
  {
    hide EncodeEntry, EntrySize, Packed, Align8, Stop, Zeros;
    buf, next := [], next0;
    PackedNone(c);
    assert es[next0..next0] == [];
    var lastOffsetPos: Option<nat> := None;
    var stopped := false;
    while next < |es| && !stopped
      invariant next0 <= next <= |es|
      invariant buf == Packed(c, es[next0..next])
      invariant lastOffsetPos == if next == next0 then None else Some(|buf| - EntrySize(c, es[next - 1]))
      invariant next == next0 <==> |buf| == 0
      invariant Stop(c, es, next0, cap, single, 0) == if stopped then next else Stop(c, es, next, cap, single, |buf|)
      decreases |es| - next, if stopped then 0 else 1
    {
      var entry := EncodeEntry(c, es[next]);
      var aligned := Align8(|entry|);
      var prevLen := |buf|;
      SizeIsAligned(c, es[next]);
      StopStep(c, es, next, cap, single, |buf|);
      if prevLen + aligned > cap && |buf| > 0 {
        stopped := true;
      } else {
        buf := PackEntry(c, es, next0, next, buf, lastOffsetPos, entry, aligned);
        lastOffsetPos := Some(prevLen);
        next := next + 1;
        stopped := single;
      }
    }
    StopStep(c, es, next, cap, single, |buf|);
  }

  lemma SizeIsAligned(c: Class, e: FileInfo)
    ensures Align8(|EncodeEntry(c, e)|) == EntrySize(c, e) >= |EncodeEntry(c, e)|
    ensures Zeros(EntrySize(c, e) - |EncodeEntry(c, e)|) == Pad(c, e)
  {
  }

  // ---- what a client reads ----

  /** One entry's name, through the length field its class defines. */
  function NameIn(c: Class, entry: bytes): Option<string> {
    if |entry| < NameAt(c) then None
    else
      var n := Get32(entry, LengthAt(c));
      if NameAt(c) + n > |entry| then None else Some(Utf16.Decode(entry[NameAt(c)..NameAt(c) + n]))
  }

  /** Following NextEntryOffset through a buffer and collecting the names. */
  function NamesIn(c: Class, buf: bytes): Option<seq<string>> {
    match NameIn(c, buf)
    case None => None
    case Some(name) =>
      var next := Get32(buf, 0);
      if next == 0 then Some([name])
      else if next > |buf| then None
      else match NamesIn(c, buf[next..])
        case None => None
        case Some(more) => Some([name] + more)
  }

  function NamesOf(es: seq<FileInfo>): (ns: seq<string>)
    ensures |ns| == |es| && forall i :: 0 <= i < |es| ==> ns[i] == es[i].name
  {
    seq(|es|, i requires 0 <= i < |es| => es[i].name)
  }

  /** Each encoded name is shorter than 4 GiB. */
  predicate NamesFit(es: seq<FileInfo>) {
    forall i :: 0 <= i < |es| ==> |NameBytes(es[i])| < U32
  }

  lemma BlockName(c: Class, e: FileInfo, followed: bool, rest: bytes)
    requires |NameBytes(e)| < U32
    ensures var buf := Block(c, e, followed) + rest;
            && NameIn(c, buf) == Some(e.name)
            && Get32(buf, 0) == if followed then EntrySize(c, e) % U32 else 0
  {
    hide Put32, Get32, Lead, Gap, EntrySize, Pad, EncodeEntry, Utf16.Encode, Utf16.Decode;
    var n, name := NameAt(c), NameBytes(e);
    var head := Put32(if followed then EntrySize(c, e) else 0);
    var pad := Pad(c, e);
    var buf := Block(c, e, followed) + rest;
    BlockParts(head, Lead(c, e), Put32(|name|), Gap(c, e), name, pad + rest);
    BlockIs(head, Lead(c, e) + Put32(|name|) + Gap(c, e) + name, pad, rest);
    GetPut32(buf, 0, if followed then EntrySize(c, e) else 0);
    GetPut32(buf, LengthAt(c), |name|);
    Utf16.DecodeEncode(e.name);
  }

  lemma BlockIs(head: bytes, after: bytes, pad: bytes, rest: bytes)
    ensures head + after + pad + rest == head + after + (pad + rest)
  {
  }

  lemma BlockParts(head: bytes, lead: bytes, len: bytes, gap: bytes, name: bytes, rest: bytes)
    ensures var b := head + (lead + len + gap + name) + rest;
            var l := |head| + |lead|; var n := l + |len| + |gap|;
            b[0..|head|] == head && b[l..l + |len|] == len && b[n..n + |name|] == name
  {
    var b := head + (lead + len + gap + name) + rest;
    var l := |head| + |lead|;
    var n := l + |len| + |gap|;
    assert b == (head + lead) + (len + gap + name + rest) == (head + lead + len + gap) + (name + rest);
    SliceSecond(head + lead, len + gap + name + rest, 0, |len|);
    SliceSecond(head + lead + len + gap, name + rest, 0, |name|);
  }

  /** The walk over a packed buffer collects exactly the packed names, in order. */
  lemma {:induction false} PackedNamesRead(c: Class, es: seq<FileInfo>)
    requires es != [] && NamesFit(es) && (|es| > 1 ==> |Packed(c, es)| < U32)
    ensures NamesIn(c, Packed(c, es)) == Some(NamesOf(es))
  {
    hide Block, NameIn, Flatten, EntrySize, NameBytes, Packed;
    var e := es[0];
    if |es| == 1 {
      assert es == [e];
      PackedOne(c, e);
      BlockName(c, e, false, []);
      Nil(Block(c, e, false));
      assert NamesOf(es) == [e.name];
    } else {
      PackedCons(c, es);
      PackedNamesRead(c, es[1..]);
      NamesStep(c, e, Packed(c, es[1..]));
      assert NamesOf(es) == [e.name] + NamesOf(es[1..]);
    }
  }

  lemma NamesStep(c: Class, e: FileInfo, rest: bytes)
    requires |NameBytes(e)| < U32 && EntrySize(c, e) + |rest| < U32 && NamesIn(c, rest).Some?
    ensures NamesIn(c, Block(c, e, true) + rest) == Some([e.name] + NamesIn(c, rest).value)
  {
    hide Block, NameIn, EntrySize, NameBytes, EncodeEntry, Get32, NamesIn;
    DropFirst(Block(c, e, true), rest);
    BlockName(c, e, true, rest);
    SizeIsAligned(c, e);
    NamesCons(c, Block(c, e, true) + rest, e.name);
  }

  lemma NamesCons(c: Class, buf: bytes, name: string)
    requires NameIn(c, buf) == Some(name)
    requires var next := Get32(buf, 0); 0 < next <= |buf| && NamesIn(c, buf[next..]).Some?
    ensures NamesIn(c, buf) == Some([name] + NamesIn(c, buf[Get32(buf, 0)..]).value)
  {
    hide NameIn, Get32;
  }

  lemma PackedCons(c: Class, es: seq<FileInfo>)
    requires |es| > 1
    ensures Packed(c, es) == Block(c, es[0], true) + Packed(c, es[1..])
  {
    hide Block, EntrySize;
    assert Blocks(c, es)[1..] == Blocks(c, es[1..]);
  }

  // ---- sizes ----

  function TotalSize(c: Class, es: seq<FileInfo>): nat {
    if es == [] then 0 else EntrySize(c, es[0]) + TotalSize(c, es[1..])
  }

  lemma {:induction false} PackedSize(c: Class, es: seq<FileInfo>)
    ensures |Packed(c, es)| == TotalSize(c, es)
  {
    hide Block, EntrySize, Flatten;
    if |es| == 0 {
      PackedNone(c);
    } else if |es| == 1 {
      assert es == [es[0]];
      PackedOne(c, es[0]);
    } else {
      PackedCons(c, es);
      PackedSize(c, es[1..]);
    }
  }

  /** From `size` bytes already packed: the cursor moves on unless nothing fits, what is added stays within
      the client's buffer, and it stops early only for want of room. */
  lemma {:induction false} StopFacts(c: Class, es: seq<FileInfo>, next: nat, cap: nat, single: bool, size: nat)
    requires next <= |es|
    ensures var stop := Stop(c, es, next, cap, single, size);
            && (size == 0 && next < |es| ==> stop > next)
            && (size > 0 && stop > next ==> size + TotalSize(c, es[next..stop]) <= cap)
            && (size == 0 && stop > next + 1 ==> TotalSize(c, es[next..stop]) <= cap)
            && (!single && stop < |es| && (size > 0 || stop > next) ==>
                  size + TotalSize(c, es[next..stop]) + EntrySize(c, es[stop]) > cap)
            && (single ==> stop <= next + 1)
    decreases |es| - next
  {
    hide EntrySize;
    var stop := Stop(c, es, next, cap, single, size);
    if stop > next {
      assert es[next..stop][1..] == es[next + 1..stop];
      if !single {
        StopFacts(c, es, next + 1, cap, single, size + EntrySize(c, es[next]));
      } else {
        assert es[next + 1..stop] == [];
      }
    } else {
      assert es[next..stop] == [];
    }
  }

  /** A response is empty exactly when the cursor was exhausted; otherwise it makes progress, is readable,
      and exceeds the client's buffer only if it holds a single entry. */
  lemma ResponseFacts(c: Class, es: seq<FileInfo>, next: nat, cap: u32, single: bool)
    requires next <= |es| && NamesFit(es)
    ensures var stop := Stop(c, es, next, cap, single, 0); var buf := Packed(c, es[next..stop]);
            && (buf == [] <==> next == |es|)
            && (next < |es| ==> stop > next && NamesIn(c, buf) == Some(NamesOf(es[next..stop])))
            && (|buf| > cap ==> stop == next + 1)
            && (single ==> stop <= next + 1)
            && (!single && stop < |es| ==> |buf| + EntrySize(c, es[stop]) > cap)
  {
    hide Packed, NamesIn, EntrySize, NameBytes, Stop;
    var stop := Stop(c, es, next, cap, single, 0);
    var part := es[next..stop];
    StopFacts(c, es, next, cap, single, 0);
    PackedSize(c, part);
    if next < |es| {
      SizeIsAligned(c, part[0]);
      assert forall i :: 0 <= i < |part| ==> part[i] == es[next + i];
      PackedNamesRead(c, part);
    }
  }

  // ---- the handler ----

  datatype DirCursor = DirCursor(entries: seq<FileInfo>, next: nat, pattern: Option<string>)


  datatype Reply = Status(code: u32) | Entries(buffer: bytes)

  /** What the backend's `list_dir` answers, should it be asked. */
  datatype Listing = Listed(entries: seq<FileInfo>) | Failed(code: u32)

  datatype Query = Query(infoClass: byte, pattern: string, restart: bool, single: bool, cap: u32)

  /** An empty pattern and `*` alone mean no filter. */
  function Filter(pattern: string): Option<string> {
    if pattern == "" || pattern == "*" then None else Some(pattern)
  }

  ghost predicate Accepts(pattern: string, name: string) {
    pattern in {"", "*", "*.*"} || Wildcard.LoopAccepts(pattern, name)
  }

  /** The protocol layer's own filter over whatever the backend listed. */
  ghost function Retained(filter: Option<string>, es: seq<FileInfo>): seq<FileInfo> {
    if filter.None? || es == [] then es
    else (if Accepts(filter.value, es[0].name) then [es[0]] else []) + Retained(filter, es[1..])
  }

  lemma {:induction false} RetainedSnoc(filter: Option<string>, es: seq<FileInfo>, e: FileInfo)
    requires filter.Some?
    ensures Retained(filter, es + [e])
            == Retained(filter, es) + if Accepts(filter.value, e.name) then [e] else []
  {
    hide Accepts;
    if es == [] {
      assert [e][1..] == [] && es + [e] == [e];
    } else {
      RetainedSnoc(filter, es[1..], e);
      assert (es + [e])[1..] == es[1..] + [e] && (es + [e])[0] == es[0];
      var first := if Accepts(filter.value, es[0].name) then [es[0]] else [];
      var last := if Accepts(filter.value, e.name) then [e] else [];
      assert first + (Retained(filter, es[1..]) + last) == first + Retained(filter, es[1..]) + last;
    }
  }

  method Retain(filter: Option<string>, es: seq<FileInfo>) returns (kept: seq<FileInfo>)
    ensures kept == Retained(filter, es)
  {
    if filter.None? {
      return es;
    }
    kept := [];
    for i := 0 to |es|
      invariant kept == Retained(filter, es[..i])
    {
      var accepted := Wildcard.DosPatternMatches(filter.value, es[i].name);
      assert es[..i + 1] == es[..i] + [es[i]];
      RetainedSnoc(filter, es[..i], es[i]);
      if accepted {
        kept := kept + [es[i]];
      }
    }
    assert es[..|es|] == es;
  }

  /** Serving one request from a cursor. */
  function Serve(c: Class, cur: DirCursor, cap: u32, single: bool): (r: (Reply, DirCursor))
    requires cur.next <= |cur.entries|
    ensures r.1.entries == cur.entries && cur.next <= r.1.next <= |cur.entries|
  {
    var stop := Stop(c, cur.entries, cur.next, cap, single, 0);
    var buf := Packed(c, cur.entries[cur.next..stop]);
    (if buf == [] then Status(STATUS_NO_MORE_FILES) else Entries(buf), cur.(next := stop))
  }

  /** An open directory: what QUERY_DIRECTORY reads and updates of it. */
  class OpenDirectory {
    var isDirectory: bool
    var hasHandle: bool
    var search: Option<DirCursor>

    constructor (isDirectory: bool)
      ensures this.isDirectory == isDirectory && hasHandle && search == None
    {
      this.isDirectory, hasHandle, search := isDirectory, true, None;
    }

    ghost predicate Valid()
      reads this
    {
      search.Some? ==> search.value.next <= |search.value.entries|
    }

    /** The cursor this request serves from, or the status that refuses it. */
    ghost function Cursor(q: Query, listing: Listing): Result<DirCursor>
      reads this
    {
      if search.Some? && !q.restart then Ok(search.value)
      else if hasHandle && listing.Listed? then
        Ok(DirCursor(Retained(Filter(q.pattern), listing.entries), 0, Filter(q.pattern)))
      else Err("refused")
    }

    /** `query_directory::handle`. A refused request leaves the cursor alone. */
    method Handle(q: Query, listing: Listing) returns (r: Reply)
      requires Valid()
      modifies this`search
      ensures Valid()
      ensures var c := ClassFromByte(q.infoClass); var cur := old(Cursor(q, listing));
              if c.None? then r == Status(STATUS_INVALID_INFO_CLASS) && search == old(search)
              else if !isDirectory then r == Status(STATUS_INVALID_PARAMETER) && search == old(search)
              else if cur.Err? then
                && r == Status(if !hasHandle then STATUS_FILE_CLOSED else listing.code)
                && search == old(search)
              else
                && cur.value.next <= |cur.value.entries|
                && (r, search) == (Serve(c.value, cur.value, q.cap, q.single).0,
                                   Some(Serve(c.value, cur.value, q.cap, q.single).1))
    {
      hide Packed, Stop, Retained;
      var c := ClassFromByte(q.infoClass);
      if c.None? {
        return Status(STATUS_INVALID_INFO_CLASS);
      }
      if !isDirectory {
        return Status(STATUS_INVALID_PARAMETER);
      }
      if search.None? || q.restart {
        if !hasHandle {
          return Status(STATUS_FILE_CLOSED);
        }
        if listing.Failed? {
          return Status(listing.code);
        }
        var entries := Retain(Filter(q.pattern), listing.entries);
        search := Some(DirCursor(entries, 0, Filter(q.pattern)));
      }
      var cur := search.value;
      var buf, next := Pack(c.value, cur.entries, cur.next, q.cap, q.single);
      search := Some(cur.(next := next));
      r := if |buf| == 0 then Status(STATUS_NO_MORE_FILES) else Entries(buf);
    }
  }

  // ---- whole enumerations ----

  datatype Call = Call(infoClass: Class, cap: u32, single: bool)

  /** The replies of a run of non-restart calls, and the cursor they leave. */
  function Enumerate(cur: DirCursor, calls: seq<Call>): (r: (seq<Reply>, DirCursor))
    requires cur.next <= |cur.entries|
    ensures |r.0| == |calls| && r.1.entries == cur.entries && cur.next <= r.1.next <= |cur.entries|
    decreases |calls|
  {
    if calls == [] then ([], cur)
    else
      var (reply, cur1) := Serve(calls[0].infoClass, cur, calls[0].cap, calls[0].single);
      var (more, last) := Enumerate(cur1, calls[1..]);
      ([reply] + more, last)
  }

  /** The names a client collects from the replies, each walked in the class it asked for. */
  function Collected(calls: seq<Call>, replies: seq<Reply>): Option<seq<string>>
    requires |calls| == |replies|
  {
    if calls == [] then Some([])
    else match Collected(calls[1..], replies[1..])
      case None => None
      case Some(more) =>
        if replies[0].Status? then Some(more)
        else match NamesIn(calls[0].infoClass, replies[0].buffer)
          case None => None
          case Some(names) => Some(names + more)
  }

  lemma ServeFacts(c: Class, cur: DirCursor, cap: u32, single: bool)
    requires cur.next <= |cur.entries| && NamesFit(cur.entries)
    ensures var (r, cur1) := Serve(c, cur, cap, single);
            && (r == Status(STATUS_NO_MORE_FILES) <==> cur.next == |cur.entries|)
            && (cur.next < |cur.entries| ==>
                  && cur1.next > cur.next && r.Entries?
                  && NamesIn(c, r.buffer) == Some(NamesOf(cur.entries[cur.next..cur1.next]))
                  && (|r.buffer| > cap ==> cur1.next == cur.next + 1))
            && (cur.next == |cur.entries| ==> cur1 == cur)
  {
    hide Packed, NamesIn, Stop, NameBytes, EntrySize;
    ResponseFacts(c, cur.entries, cur.next, cap, single);
  }

  /** However the calls mix classes, buffer sizes and the single-entry flag, the names collected are
      exactly the entries between the cursor's old and new places: in order, none lost, none repeated. */
  lemma {:induction false} EnumerationConserves(cur: DirCursor, calls: seq<Call>)
    requires cur.next <= |cur.entries| && NamesFit(cur.entries)
    ensures var (replies, last) := Enumerate(cur, calls);
            Collected(calls, replies) == Some(NamesOf(cur.entries[cur.next..last.next]))
    decreases |calls|
  {
    hide Serve, NamesIn, NameBytes;
    var es := cur.entries;
    if calls == [] {
      assert es[cur.next..cur.next] == [];
    } else {
      var (reply, cur1) := Serve(calls[0].infoClass, cur, calls[0].cap, calls[0].single);
      ServeFacts(calls[0].infoClass, cur, calls[0].cap, calls[0].single);
      EnumerationConserves(cur1, calls[1..]);
      var (replies, last) := Enumerate(cur, calls);
      assert replies[1..] == Enumerate(cur1, calls[1..]).0;
      assert NamesOf(es[cur.next..last.next])
          == NamesOf(es[cur.next..cur1.next]) + NamesOf(es[cur1.next..last.next]);
    }
  }

  /** As soon as one reply says there are no more files, everything from the starting cursor was sent;
      and as many calls as there are entries, plus one, always get there. */
  lemma {:induction false} EnumerationCompletes(cur: DirCursor, calls: seq<Call>)
    requires cur.next <= |cur.entries| && NamesFit(cur.entries)
    ensures var (replies, last) := Enumerate(cur, calls);
            && (Status(STATUS_NO_MORE_FILES) in replies ==> last.next == |cur.entries|)
            && (|calls| > |cur.entries| - cur.next ==> Status(STATUS_NO_MORE_FILES) in replies)
    decreases |calls|
  {
    hide Serve, NamesIn, NameBytes;
    if calls != [] {
      var (reply, cur1) := Serve(calls[0].infoClass, cur, calls[0].cap, calls[0].single);
      ServeFacts(calls[0].infoClass, cur, calls[0].cap, calls[0].single);
      EnumerationCompletes(cur1, calls[1..]);
      var (replies, last) := Enumerate(cur, calls);
      assert replies == [reply] + Enumerate(cur1, calls[1..]).0;
    }
  }

  // ---- what a fresh cursor holds ----

  /** A name the query is after: any without a filter or for `*.*`, else one the pattern means. */
  ghost predicate Wanted(pattern: string, name: string) {
    pattern == "" || pattern == "*" || pattern == "*.*" || Wildcard.Matches(pattern, name)
  }

  /** What decides between a name and a query: no name the query is not after is `kept`, and one it is after is,
      unless pattern and name both have a `*`, where the wildcard is not exact. */
  ghost predicate Decides(pattern: string, name: string, kept: bool) {
    && (kept ==> Wanted(pattern, name))
    && (Wanted(pattern, name) && ('*' !in pattern || '*' !in name) ==> kept)
  }

  /** What a first or restarting query serves from: a cursor at the start of the listed entries the query is after,
      in the listed order, each as often as listed. Any other query serves from the cursor there is. */
  lemma RefreshMeans(d: OpenDirectory, q: Query, listing: Listing) returns (places: seq<nat>)
    ensures d.search.Some? && !q.restart ==> d.Cursor(q, listing) == Ok(d.search.value)
    ensures d.search.None? || q.restart ==>
              (d.Cursor(q, listing).Ok? <==> d.hasHandle && listing.Listed?)
    ensures (d.search.None? || q.restart) && d.hasHandle && listing.Listed? ==>
              var cur := d.Cursor(q, listing).value;
              cur.next == 0 && Selects(q.pattern, listing.entries, cur.entries, places)
  {
    hide Selects, Retained, Filter;
    places := FreshCursorHolds(q.pattern, if listing.Listed? then listing.entries else []);
  }

  /** Filtering a listing keeps exactly the entries the query is after, in their order. */
  lemma {:induction false} FreshCursorHolds(pattern: string, es: seq<FileInfo>) returns (places: seq<nat>)
    ensures Selects(pattern, es, Retained(Filter(pattern), es), places)
  {
    hide Accepts, Decides, Retained, Selects, Filter;
    if es == [] {
      NothingRetained(Filter(pattern));
      NoneSelected(pattern);
      return [];
    }
    var rest := FreshCursorHolds(pattern, es[1..]);
    var first := Filter(pattern).None? || Accepts(pattern, es[0].name);
    FilterDecides(pattern, es[0].name);
    FirstIsKept(pattern, es);
    var kept := Retained(Filter(pattern), es[1..]);
    SelectsFirst(pattern, es, kept, rest, first);
    assert [] + kept == kept;
    places := Behind(first, rest);
  }

  lemma NothingRetained(filter: Option<string>)
    ensures Retained(filter, []) == []
  {
  }

  lemma NoneSelected(pattern: string)
    ensures Selects(pattern, [], [], [])
  {
  }

  function Shifted(places: seq<nat>): (r: seq<nat>)
    ensures |r| == |places| && forall j :: 0 <= j < |r| ==> r[j] == places[j] + 1
  {
    seq(|places|, j requires 0 <= j < |places| => places[j] + 1)
  }

  /** `kept` are the entries of `es` at `places`, in order, and these are the places the query decides on. */
  ghost predicate Selects(pattern: string, es: seq<FileInfo>, kept: seq<FileInfo>, places: seq<nat>) {
    && AtPlaces(es, kept, places)
    && (forall j, k :: 0 <= j < k < |places| ==> places[j] < places[k])
    && WhereWanted(pattern, es, places)
  }

  ghost predicate AtPlaces(es: seq<FileInfo>, kept: seq<FileInfo>, places: seq<nat>) {
    && |places| == |kept|
    && forall j :: 0 <= j < |places| ==> places[j] < |es| && kept[j] == es[places[j]]
  }

  ghost predicate WhereWanted(pattern: string, es: seq<FileInfo>, places: seq<nat>) {
    forall i :: 0 <= i < |es| ==> Decides(pattern, es[i].name, i in places)
  }

  /** The places in a list of which the first element, kept if `first`, was left out before. */
  function Behind(first: bool, places: seq<nat>): seq<nat> {
    if first then [0] + Shifted(places) else Shifted(places)
  }

  lemma SelectsFirst(pattern: string, es: seq<FileInfo>, kept: seq<FileInfo>, places: seq<nat>, first: bool)
    requires es != [] && Selects(pattern, es[1..], kept, places) && Decides(pattern, es[0].name, first)
    ensures Selects(pattern, es, if first then [es[0]] + kept else kept, Behind(first, places))
  {
    hide Decides, AtPlaces, WhereWanted;
    PlacesBehind(es, kept, places, first);
    WantedBehind(pattern, es, places, first);
  }

  lemma PlacesBehind(es: seq<FileInfo>, kept: seq<FileInfo>, places: seq<nat>, first: bool)
    requires es != [] && AtPlaces(es[1..], kept, places)
    ensures AtPlaces(es, if first then [es[0]] + kept else kept, Behind(first, places))
  {
    hide Shifted;
    var all := if first then [es[0]] + kept else kept;
    forall j | 0 <= j < |Behind(first, places)|
      ensures Behind(first, places)[j] < |es| && all[j] == es[Behind(first, places)[j]]
    {
      var k := if first then j - 1 else j;
      if k >= 0 {
        assert kept[k] == es[1..][places[k]] == es[places[k] + 1];
      }
    }
  }

  lemma WantedBehind(pattern: string, es: seq<FileInfo>, places: seq<nat>, first: bool)
    requires es != [] && WhereWanted(pattern, es[1..], places) && Decides(pattern, es[0].name, first)
    ensures WhereWanted(pattern, es, Behind(first, places))
  {
    hide Decides, Behind;
    forall i | 0 <= i < |es|
      ensures Decides(pattern, es[i].name, i in Behind(first, places))
    {
      PlaceOf(places, first, i);
      if i > 0 {
        assert es[1..][i - 1] == es[i];
        assert Decides(pattern, es[1..][i - 1].name, i - 1 in places);
      }
    }
  }

  lemma PlaceOf(places: seq<nat>, first: bool, i: nat)
    ensures i in Behind(first, places) <==> if i == 0 then first else i - 1 in places
  {
    if i > 0 {
      ShiftedIn(places, Shifted(places), i - 1);
    } else {
      assert forall j :: 0 <= j < |places| ==> Shifted(places)[j] != 0;
    }
  }

  lemma FirstIsKept(pattern: string, es: seq<FileInfo>)
    requires es != []
    ensures var first := Filter(pattern).None? || Accepts(pattern, es[0].name);
            Retained(Filter(pattern), es)
              == (if first then [es[0]] else []) + Retained(Filter(pattern), es[1..])
  {
    hide Accepts;
    if Filter(pattern).None? {
      assert [es[0]] + es[1..] == es;
    }
  }

  lemma ShiftedIn(rest: seq<nat>, shifted: seq<nat>, i: nat)
    requires |shifted| == |rest| && forall j :: 0 <= j < |rest| ==> shifted[j] == rest[j] + 1
    ensures i + 1 in shifted <==> i in rest
  {
    if i in rest {
      var j :| 0 <= j < |rest| && rest[j] == i;
      assert shifted[j] == i + 1;
    }
  }

  lemma FilterDecides(pattern: string, name: string)
    ensures Decides(pattern, name, Filter(pattern).None? || Accepts(pattern, name))
  {
    hide Wildcard.Matches, Wildcard.LoopAccepts;
    if Wildcard.LoopAccepts(pattern, name) {
      Wildcard.AcceptedNamesMatch(pattern, name);
    }
    if '*' !in pattern {
      Wildcard.ExactIffPatternHasNoStar(pattern);
    }
    if '*' !in name {
      Wildcard.ExactOnStarFreeNames(pattern, name);
    }
  }

  // ---- the bytes of an entry ----

  /** Where the name stands in each class. */
  function NamePlace(c: Class): nat {
    match c
    case Directory => 64 case FullDirectory => 68 case BothDirectory => 94
    case IdBothDirectory => 104 case IdFullDirectory => 80 case Names => 12
  }

  /** The wire layout of an entry in each class (MS-FSCC section 2.4), field by field. */
  lemma EntryLayout(c: Class, e: FileInfo)
    requires c != Names
    ensures var s := EncodeEntry(c, e); var n := Utf16.Encode(e.name);
            && |s| == NamePlace(c) + |n| && s[NamePlace(c)..] == n
            && s[0..4] == Put32(0) && s[4..8] == Put32(e.fileIndex)
            && s[8..16] == Put64(e.creation) && s[16..24] == Put64(e.access) && s[24..32] == Put64(e.write)
            && s[32..40] == Put64(e.change) && s[40..48] == Put64(e.endOfFile) && s[48..56] == Put64(e.allocation)
            && s[56..60] == Put32(if e.isDirectory then 0x10 else 0x80) && s[60..64] == Put32(|n|)
            && (c == IdBothDirectory ==> s[96..104] == Put64(e.fileIndex))
            && (c == IdFullDirectory ==> s[72..80] == Put64(e.fileIndex))
  {
    hide Put16, Put32, Put64, Utf16.Encode, Times, Gap, EncodeEntry;
    var s, t, gap, n := EncodeEntry(c, e), Times(e), Gap(c, e), NameBytes(e);
    EntryParts(c, e);
    TimesLayout(e);
    GapLayout(c, e);
    SubSlice(s, 4, 60, 0, 4);
    SubSlice(s, 4, 60, 4, 12);
    SubSlice(s, 4, 60, 12, 20);
    SubSlice(s, 4, 60, 20, 28);
    SubSlice(s, 4, 60, 28, 36);
    SubSlice(s, 4, 60, 36, 44);
    SubSlice(s, 4, 60, 44, 52);
    SubSlice(s, 4, 60, 52, 56);
    if c == IdBothDirectory {
      SubSlice(s, 64, 104, 32, 40);
    } else if c == IdFullDirectory {
      SubSlice(s, 64, 80, 8, 16);
    }
  }

  lemma EntryParts(c: Class, e: FileInfo)
    requires c != Names
    ensures var s, n := EncodeEntry(c, e), NameBytes(e); var at := NamePlace(c);
            && |s| == at + |n| && 64 + |Gap(c, e)| == at
            && s[0..4] == Put32(0) && s[4..60] == Times(e) && s[60..64] == Put32(|n|) && s[64..at] == Gap(c, e)
            && s[at..] == n
  {
    hide Put32, Times, NameBytes, Gap;
    var n, gap := NameBytes(e), Gap(c, e);
    FiveParts(Put32(0), Times(e), Put32(|n|), gap, n);
    assert EncodeEntry(c, e) == Put32(0) + (Times(e) + Put32(|n|) + gap + n);
  }

  lemma FiveParts(a: bytes, b: bytes, c: bytes, d: bytes, e: bytes)
    ensures var s := a + (b + c + d + e); var m := |a| + |b|; var n := m + |c|;
            && s[0..|a|] == a && s[|a|..m] == b && s[m..n] == c && s[n..n + |d|] == d && s[n + |d|..] == e
  {
  }

  lemma GapLayout(c: Class, e: FileInfo)
    ensures c == IdBothDirectory ==> |Gap(c, e)| == 40 && Gap(c, e)[32..40] == Put64(e.fileIndex)
    ensures c == IdFullDirectory ==> |Gap(c, e)| == 16 && Gap(c, e)[8..16] == Put64(e.fileIndex)
  {
    hide Put16, Put32, Put64;
  }

  /** The names-only class: index, length, name. */
  lemma NamesLayout(e: FileInfo)
    ensures var s := EncodeEntry(Names, e); var n := Utf16.Encode(e.name);
            && |s| == 12 + |n| && s[0..4] == Put32(0) && s[4..8] == Put32(e.fileIndex)
            && s[8..12] == Put32(|n|) && s[12..] == n
  {
    hide Put32, Utf16.Encode;
    FiveParts(Put32(0), Put32(e.fileIndex), Put32(|NameBytes(e)|), [], NameBytes(e));
    assert Put32(e.fileIndex) + Put32(|NameBytes(e)|) + [] == Put32(e.fileIndex) + Put32(|NameBytes(e)|);
  }

  lemma TimesLayout(e: FileInfo)
    ensures var t := Times(e);
            && t[0..4] == Put32(e.fileIndex) && t[4..12] == Put64(e.creation) && t[12..20] == Put64(e.access)
            && t[20..28] == Put64(e.write) && t[28..36] == Put64(e.change) && t[36..44] == Put64(e.endOfFile)
            && t[44..52] == Put64(e.allocation) && t[52..56] == Put32(if e.isDirectory then 0x10 else 0x80)
  {
    hide Put32, Put64;
  }
}
