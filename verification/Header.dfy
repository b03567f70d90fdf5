/** The fixed 64-byte SMB2 header in its sync and async forms (MS-SMB2 section 2.2.1). */
module Header {
  import opened Bytes

  const HEADER_LEN: nat := 64
  const MAGIC: bytes := [0xFE, 0x53, 0x4D, 0x42]

  const FLAG_SERVER_TO_REDIR: nat := 0x1
  const FLAG_ASYNC: nat := 0x2
  const FLAG_RELATED: nat := 0x4
  const FLAG_SIGNED: nat := 0x8

  // Field offsets of the wire structure.
  const STATUS_AT: nat := 0x08
  const COMMAND_AT: nat := 0x0C
  const FLAGS_AT: nat := 0x10
  const NEXT_AT: nat := 0x14
  const MESSAGE_AT: nat := 0x18
  const TAIL_AT: nat := 0x20
  const TREE_AT: nat := 0x24
  const SESSION_AT: nat := 0x28
  const SIGNATURE_AT: nat := 0x30

  datatype Command =
    | Negotiate | SessionSetup | Logoff | TreeConnect | TreeDisconnect | Create | Close | Flush | Read
    | Write | Lock | Ioctl | Cancel | Echo | QueryDirectory | ChangeNotify | QueryInfo | SetInfo
    | OplockBreak

  const COMMANDS: seq<Command> := [
    Negotiate, SessionSetup, Logoff, TreeConnect, TreeDisconnect, Create, Close, Flush, Read,
    Write, Lock, Ioctl, Cancel, Echo, QueryDirectory, ChangeNotify, QueryInfo, SetInfo, OplockBreak]

  /** The opcode is the position in the command list. */
  function Opcode(c: Command): (n: nat)
    ensures n < |COMMANDS| && COMMANDS[n] == c
  {
    match c
    case Negotiate => 0 case SessionSetup => 1 case Logoff => 2 case TreeConnect => 3
    case TreeDisconnect => 4 case Create => 5 case Close => 6 case Flush => 7 case Read => 8
    case Write => 9 case Lock => 10 case Ioctl => 11 case Cancel => 12 case Echo => 13
    case QueryDirectory => 14 case ChangeNotify => 15 case QueryInfo => 16 case SetInfo => 17
    case OplockBreak => 18
  }

  lemma OpcodeOfListed(n: nat)
    requires n < |COMMANDS|
    ensures Opcode(COMMANDS[n]) == n
  {
  }

  datatype Tail = Sync(reserved: u32, treeId: u32) | Async(asyncId: u64)

  type Sig = s: bytes | |s| == 16 witness Zeros(16)

  datatype Smb2Header = Smb2Header(
    creditCharge: u16, status: u32, command: Command, credits: u16, flags: u32, next: u32,
    messageId: u64, tail: Tail, sessionId: u64, signature: Sig)
  {
    function TreeId(): Option<u32> {
      if tail.Sync? then Some(tail.treeId) else None
    }
  }

  predicate IsAsync(flags: nat) {
    HasBit(flags, FLAG_ASYNC)
  }

  function ReadTail(buf: bytes, flags: nat): Tail
    requires HEADER_LEN <= |buf|
  {
    if IsAsync(flags) then Async(Get64(buf, TAIL_AT)) else Sync(Get32(buf, TAIL_AT), Get32(buf, TREE_AT))
  }

  function Parse(buf: bytes): Result<(Smb2Header, bytes)> {
    if |buf| < HEADER_LEN then Err("short SMB2 header")
    else if buf[..4] != MAGIC then Err("bad SMB2 magic")
    else if Get16(buf, 4) != 64 then Err("SMB2 header structure_size != 64")
    else if Get16(buf, COMMAND_AT) >= |COMMANDS| then Err("unknown SMB2 command opcode")
    else
      var flags := Get32(buf, FLAGS_AT);
      Ok((Smb2Header(
            Get16(buf, 6), Get32(buf, STATUS_AT), COMMANDS[Get16(buf, COMMAND_AT)], Get16(buf, 14), flags,
            Get32(buf, NEXT_AT), Get64(buf, MESSAGE_AT), ReadTail(buf, flags), Get64(buf, SESSION_AT),
            buf[SIGNATURE_AT..HEADER_LEN]),
          buf[HEADER_LEN..]))
  }

  function TailBytes(t: Tail): (s: bytes)
    ensures |s| == 8
  {
    match t
    case Sync(reserved, treeId) => Put32(reserved) + Put32(treeId)
    case Async(id) => Put64(id)
  }

  function Front(h: Smb2Header): (s: bytes)
    ensures |s| == 16
  {
    MAGIC + Put16(64) + Put16(h.creditCharge) + Put32(h.status) + Put16(Opcode(h.command)) + Put16(h.credits)
  }

  function Middle(h: Smb2Header): (s: bytes)
    ensures |s| == 16
  {
    Put32(h.flags) + Put32(h.next) + Put64(h.messageId)
  }

  function Back(h: Smb2Header): (s: bytes)
    ensures |s| == 32
  {
    TailBytes(h.tail) + Put64(h.sessionId) + h.signature
  }

  function Encode(h: Smb2Header): (s: bytes)
    ensures |s| == HEADER_LEN
  {
    Front(h) + Middle(h) + Back(h)
  }

  // ---- round trips ----

  lemma FrontReads(h: Smb2Header, buf: bytes)
    requires 16 <= |buf| && buf[..16] == Front(h)
    ensures buf[..4] == MAGIC && Get16(buf, 4) == 64 && Get16(buf, 6) == h.creditCharge
    ensures Get32(buf, STATUS_AT) == h.status && Get16(buf, COMMAND_AT) == Opcode(h.command)
    ensures Get16(buf, 14) == h.credits
  {
    hide Put16, Put32, Get16, Get32, Opcode;
    var f := Front(h);
    assert f[..4] == MAGIC && f[4..6] == Put16(64) && f[6..8] == Put16(h.creditCharge);
    assert f[8..12] == Put32(h.status) && f[12..14] == Put16(Opcode(h.command)) && f[14..16] == Put16(h.credits);
    SubSlice(buf, 0, 16, 0, 4);
    SubSlice(buf, 0, 16, 4, 6);
    SubSlice(buf, 0, 16, 6, 8);
    SubSlice(buf, 0, 16, 8, 12);
    SubSlice(buf, 0, 16, 12, 14);
    SubSlice(buf, 0, 16, 14, 16);
    GetPut16(buf, 4, 64);
    GetPut16(buf, 6, h.creditCharge);
    GetPut32(buf, 8, h.status);
    GetPut16(buf, 12, Opcode(h.command));
    GetPut16(buf, 14, h.credits);
  }

  lemma MiddleReads(h: Smb2Header, buf: bytes)
    requires 32 <= |buf| && buf[16..32] == Middle(h)
    ensures Get32(buf, FLAGS_AT) == h.flags && Get32(buf, NEXT_AT) == h.next
    ensures Get64(buf, MESSAGE_AT) == h.messageId
  {
    hide Put32, Put64, Get32, Get64;
    var m := Middle(h);
    assert m[..4] == Put32(h.flags) && m[4..8] == Put32(h.next) && m[8..16] == Put64(h.messageId);
    SubSlice(buf, 16, 32, 0, 4);
    SubSlice(buf, 16, 32, 4, 8);
    SubSlice(buf, 16, 32, 8, 16);
    GetPut32(buf, 16, h.flags);
    GetPut32(buf, 20, h.next);
    GetPut64(buf, 24, h.messageId);
  }

  lemma BackReads(h: Smb2Header, buf: bytes)
    requires 64 <= |buf| && buf[32..64] == Back(h)
    ensures Get64(buf, SESSION_AT) == h.sessionId && buf[SIGNATURE_AT..HEADER_LEN] == h.signature
    ensures h.tail.Sync? ==> Get32(buf, TAIL_AT) == h.tail.reserved && Get32(buf, TREE_AT) == h.tail.treeId
    ensures h.tail.Async? ==> Get64(buf, TAIL_AT) == h.tail.asyncId
  {
    hide Put32, Put64, Get32, Get64;
    var b := Back(h);
    assert b[..8] == TailBytes(h.tail) && b[8..16] == Put64(h.sessionId) && b[16..32] == h.signature;
    SubSlice(buf, 32, 64, 8, 16);
    SubSlice(buf, 32, 64, 16, 32);
    GetPut64(buf, 40, h.sessionId);
    if h.tail.Sync? {
      assert b[..4] == Put32(h.tail.reserved) && b[4..8] == Put32(h.tail.treeId);
      SubSlice(buf, 32, 64, 0, 4);
      SubSlice(buf, 32, 64, 4, 8);
      GetPut32(buf, 32, h.tail.reserved);
      GetPut32(buf, 36, h.tail.treeId);
    } else {
      SubSlice(buf, 32, 64, 0, 8);
      GetPut64(buf, 32, h.tail.asyncId);
    }
  }

  /** A written header parses back, with whatever followed it, exactly when the tail's form is the one the
      async flag announces. */
  lemma ParseEncodeIff(h: Smb2Header, rest: bytes)
    ensures Parse(Encode(h) + rest) == Ok((h, rest)) <==> (h.tail.Async? <==> IsAsync(h.flags))
  {
    hide Front, Middle, Back, Get16, Get32, Get64;
    var buf := Encode(h) + rest;
    EncodeSlices(h, rest);
    FrontReads(h, buf);
    MiddleReads(h, buf);
    BackReads(h, buf);
  }

  lemma EncodeSlices(h: Smb2Header, rest: bytes)
    ensures var buf := Encode(h) + rest;
            buf[..16] == Front(h) && buf[16..32] == Middle(h) && buf[32..64] == Back(h) && buf[64..] == rest
  {
    hide Front, Middle, Back;
  }

  /** Writing back what was parsed gives the same 64 bytes. */
  lemma EncodeParse(buf: bytes)
    requires Parse(buf).Ok?
    ensures Encode(Parse(buf).value.0) == buf[..HEADER_LEN]
  {
    hide Front, Middle, Back, Get16, Get32, Get64;
    var h := Parse(buf).value.0;
    FrontWrites(buf, h);
    MiddleWrites(buf, h);
    BackWrites(buf, h);
    assert buf[..64] == buf[..16] + buf[16..32] + buf[32..64];
  }

  lemma FrontWrites(buf: bytes, h: Smb2Header)
    requires Parse(buf).Ok? && h == Parse(buf).value.0
    ensures Front(h) == buf[..16]
  {
    hide Put16, Put32, Get16, Get32, Get64, Opcode;
    PutGet16(buf, 4);
    PutGet16(buf, 6);
    PutGet32(buf, 8);
    PutGet16(buf, 12);
    PutGet16(buf, 14);
    OpcodeOfListed(Get16(buf, COMMAND_AT));
    assert buf[..16] == buf[..4] + buf[4..6] + buf[6..8] + buf[8..12] + buf[12..14] + buf[14..16];
  }

  lemma MiddleWrites(buf: bytes, h: Smb2Header)
    requires Parse(buf).Ok? && h == Parse(buf).value.0
    ensures Middle(h) == buf[16..32]
  {
    hide Put16, Put32, Put64, Get16, Get32, Get64;
    PutGet32(buf, 16);
    PutGet32(buf, 20);
    PutGet64(buf, 24);
    assert buf[16..32] == buf[16..20] + buf[20..24] + buf[24..32];
  }

  lemma BackWrites(buf: bytes, h: Smb2Header)
    requires Parse(buf).Ok? && h == Parse(buf).value.0
    ensures Back(h) == buf[32..64]
  {
    hide Put16, Put32, Put64, Get16, Get32, Get64;
    PutGet64(buf, 32);
    PutGet32(buf, 32);
    PutGet32(buf, 36);
    PutGet64(buf, 40);
    assert buf[32..40] == buf[32..36] + buf[36..40];
    assert buf[32..64] == buf[32..40] + buf[40..48] + buf[48..64];
  }

  // ---- the bytes themselves ----

  lemma HeaderParts(h: Smb2Header)
    ensures var s := Encode(h);
            s[0..16] == Front(h) && s[16..32] == Middle(h) && s[32..64] == Back(h)
  {
    hide Front, Middle, Back;
  }

  /** The wire layout (MS-SMB2 section 2.2.1), field by field. */
  lemma HeaderLayout(h: Smb2Header)
    ensures var s := Encode(h);
            && s[0..4] == [0xFE, 0x53, 0x4D, 0x42] && s[4..6] == Put16(64) && s[6..8] == Put16(h.creditCharge)
            && s[8..12] == Put32(h.status) && s[12..14] == Put16(Opcode(h.command)) && s[14..16] == Put16(h.credits)
            && s[16..20] == Put32(h.flags) && s[20..24] == Put32(h.next) && s[24..32] == Put64(h.messageId)
            && s[40..48] == Put64(h.sessionId) && s[48..64] == h.signature
            && match h.tail
               case Sync(reserved, treeId) => s[32..36] == Put32(reserved) && s[36..40] == Put32(treeId)
               case Async(id) => s[32..40] == Put64(id)
  {
    hide Encode, Put16, Put32, Put64, Opcode;
    var s := Encode(h);
    HeaderParts(h);
    FrontLayout(h);
    MiddleLayout(h);
    BackLayout(h);
    SubSlice(s, 0, 16, 0, 4);
    SubSlice(s, 0, 16, 4, 6);
    SubSlice(s, 0, 16, 6, 8);
    SubSlice(s, 0, 16, 8, 12);
    SubSlice(s, 0, 16, 12, 14);
    SubSlice(s, 0, 16, 14, 16);
    SubSlice(s, 16, 32, 0, 4);
    SubSlice(s, 16, 32, 4, 8);
    SubSlice(s, 16, 32, 8, 16);
    SubSlice(s, 32, 64, 0, 4);
    SubSlice(s, 32, 64, 4, 8);
    SubSlice(s, 32, 64, 0, 8);
    SubSlice(s, 32, 64, 8, 16);
    SubSlice(s, 32, 64, 16, 32);
  }

  lemma FrontLayout(h: Smb2Header)
    ensures var f := Front(h);
            && f[0..4] == [0xFE, 0x53, 0x4D, 0x42] && f[4..6] == Put16(64) && f[6..8] == Put16(h.creditCharge)
            && f[8..12] == Put32(h.status) && f[12..14] == Put16(Opcode(h.command)) && f[14..16] == Put16(h.credits)
  {
    hide Put16, Put32, Opcode;
  }

  lemma MiddleLayout(h: Smb2Header)
    ensures var m := Middle(h); m[0..4] == Put32(h.flags) && m[4..8] == Put32(h.next) && m[8..16] == Put64(h.messageId)
  {
    hide Put32, Put64;
  }

  lemma BackLayout(h: Smb2Header)
    ensures var b := Back(h);
            && b[8..16] == Put64(h.sessionId) && b[16..32] == h.signature
            && match h.tail
               case Sync(reserved, treeId) => b[0..4] == Put32(reserved) && b[4..8] == Put32(treeId)
               case Async(id) => b[0..8] == Put64(id)
  {
    hide Put32, Put64;
  }
}
