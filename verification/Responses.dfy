/** Turning a handler's answer into response bytes: header rewriting, and the decision to sign. */
module Responses {
  import opened Bytes
  import opened NtStatus
  import opened Header
  import opened Signing
  import opened Stitching

  datatype HandlerResponse = HandlerResponse(
    body: bytes, status: u32, overrideTree: Option<u32>, overrideSession: Option<u64>, skipSigning: bool)

  predicate IsFlag(mask: nat) {
    mask in {FLAG_SERVER_TO_REDIR, FLAG_ASYNC, FLAG_RELATED, FLAG_SIGNED}
  }

  function SetBit(flags: u32, mask: nat): (r: u32)
    requires IsFlag(mask)
  {
    FlagRoom(flags, mask); if HasBit(flags, mask) then flags else flags + mask
  }

  function ClearBit(flags: u32, mask: nat): (r: u32)
    requires IsFlag(mask)
  {
    FlagRoom(flags, mask); if HasBit(flags, mask) then flags - mask else flags
  }

  type bit = x: int | 0 <= x < 2

  function Word(q: nat, b3: bit, b2: bit, b1: bit, b0: bit): nat {
    2 * (2 * (2 * (2 * q + b3) + b2) + b1) + b0
  }

  lemma Halve(h: nat, b: bit)
    ensures (2 * h + b) / 2 == h && (2 * h + b) % 2 == b
  {
  }

  /** The four flags are the low four bits. */
  lemma FlagBits(q: nat, b3: bit, b2: bit, b1: bit, b0: bit)
    ensures var n := Word(q, b3, b2, b1, b0);
            && HasBit(n, FLAG_SERVER_TO_REDIR) == (b0 == 1) && HasBit(n, FLAG_ASYNC) == (b1 == 1)
            && HasBit(n, FLAG_RELATED) == (b2 == 1) && HasBit(n, FLAG_SIGNED) == (b3 == 1)
  {
    var n3 := 2 * q + b3;
    var n2 := 2 * n3 + b2;
    var n1 := 2 * n2 + b1;
    Halve(q, b3);
    Halve(n3, b2);
    Halve(n2, b1);
    Halve(n1, b0);
    assert HasBit(n3, 1) == (b3 == 1) && HasBit(n2, 1) == (b2 == 1) && HasBit(n1, 1) == (b1 == 1);
    assert HasBit(n2, 2) == HasBit(n3, 1) && HasBit(n1, 2) == HasBit(n2, 1);
    assert HasBit(n1, 4) == HasBit(n2, 2);
  }

  lemma SplitWord(n: nat) returns (q: nat, b3: bit, b2: bit, b1: bit, b0: bit)
    ensures n == Word(q, b3, b2, b1, b0)
  {
    var n1 := n / 2;
    var n2 := n1 / 2;
    var n3 := n2 / 2;
    q, b3, b2, b1, b0 := n3 / 2, n3 % 2, n2 % 2, n1 % 2, n % 2;
  }

  /** Adding an absent flag, or taking away a present one, stays a 32-bit word. */
  lemma FlagRoom(flags: u32, mask: nat)
    requires IsFlag(mask)
    ensures if HasBit(flags, mask) then mask <= flags else flags + mask < U32
  {
    hide HasBit;
    var q, b3, b2, b1, b0 := SplitWord(flags);
    FlagBits(q, b3, b2, b1, b0);
  }

  /** Setting or clearing one flag leaves every other flag alone. */
  lemma SetClear(flags: u32, mask: nat, other: nat)
    requires IsFlag(mask) && IsFlag(other)
    ensures HasBit(SetBit(flags, mask), other) == (mask == other || HasBit(flags, other))
    ensures HasBit(ClearBit(flags, mask), other) == (mask != other && HasBit(flags, other))
  {
    hide HasBit;
    var q, b3, b2, b1, b0 := SplitWord(flags);
    FlagBits(q, b3, b2, b1, b0);
    if mask == FLAG_SERVER_TO_REDIR {
      FlagBits(q, b3, b2, b1, 1);
      FlagBits(q, b3, b2, b1, 0);
    } else if mask == FLAG_ASYNC {
      FlagBits(q, b3, b2, 1, b0);
      FlagBits(q, b3, b2, 0, b0);
    } else if mask == FLAG_RELATED {
      FlagBits(q, b3, 1, b1, b0);
      FlagBits(q, b3, 0, b1, b0);
    } else {
      FlagBits(q, 1, b2, b1, b0);
      FlagBits(q, 0, b2, b1, b0);
    }
  }

  function AnswerSession(req: Smb2Header, a: HandlerResponse): u64 {
    if a.overrideSession.Some? then a.overrideSession.value else req.sessionId
  }

  function AnswerTree(req: Smb2Header, a: HandlerResponse): u32 {
    if a.overrideTree.Some? then a.overrideTree.value
    else if req.TreeId().Some? then req.TreeId().value else 0
  }

  predicate SetupSucceeded(req: Smb2Header, a: HandlerResponse) {
    req.command == SessionSetup && a.status == STATUS_SUCCESS
  }

  predicate GuestAnswer(req: Smb2Header, a: HandlerResponse) {
    SetupSucceeded(req, a) && |a.body| >= 4 && HasBit(a.body[2], 1)
  }

  /** Sign when the request was signed or completed a session setup, and the session holds a real key. */
  predicate ShouldSign(req: Smb2Header, a: HandlerResponse, g: Signer) {
    var sid := AnswerSession(req, a);
    && !a.skipSigning && sid != 0 && (HasBit(req.flags, FLAG_SIGNED) || SetupSucceeded(req, a))
    && sid in g.sessions && !g.sessions[sid].anonymous && !GuestAnswer(req, a)
    && g.sessions[sid].key != Zeros(16)
  }

  function AnswerFlags(flags: u32, sign: bool): u32 {
    var f := ClearBit(SetBit(flags, FLAG_SERVER_TO_REDIR), FLAG_ASYNC);
    if sign then SetBit(f, FLAG_SIGNED) else ClearBit(f, FLAG_SIGNED)
  }

  function AnswerHeader(req: Smb2Header, a: HandlerResponse, g: Signer): Smb2Header {
    req.(flags := AnswerFlags(req.flags, ShouldSign(req, a, g)), next := 0, status := a.status,
         tail := Sync(0, AnswerTree(req, a)), sessionId := AnswerSession(req, a), signature := Zeros(16))
  }

  /** `build_response_bytes`. */
  function BuildResponse(req: Smb2Header, a: HandlerResponse, g: Signer): bytes {
    var out := Encode(AnswerHeader(req, a, g)) + a.body;
    if ShouldSign(req, a, g) then Signed(out, g.sessions[AnswerSession(req, a)].key, g.algo, g.mac) else out
  }

  lemma AnswerFlagBits(flags: u32, sign: bool)
    ensures var f := AnswerFlags(flags, sign);
            && HasBit(f, FLAG_SERVER_TO_REDIR) && !HasBit(f, FLAG_ASYNC)
            && (HasBit(f, FLAG_SIGNED) <==> sign) && (HasBit(f, FLAG_RELATED) <==> HasBit(flags, FLAG_RELATED))
  {
    hide HasBit, SetBit, ClearBit;
    var f1 := SetBit(flags, FLAG_SERVER_TO_REDIR);
    var f2 := ClearBit(f1, FLAG_ASYNC);
    forall other | IsFlag(other)
      ensures HasBit(AnswerFlags(flags, sign), other) ==
        if other == FLAG_SIGNED then sign
        else other == FLAG_SERVER_TO_REDIR || (other != FLAG_ASYNC && HasBit(flags, other))
    {
      SetClear(flags, FLAG_SERVER_TO_REDIR, other);
      SetClear(f1, FLAG_ASYNC, other);
      SetClear(f2, FLAG_SIGNED, other);
    }
  }

  /** Whatever the handler answered, the bytes are a complete unchained response: they parse to the request's
      header turned around, in sync form, with the handler's body; the SIGNED flag is set exactly when the
      response is to be signed, and then the bytes are authentic under the session's key. */
  lemma ResponseIsWellFormed(req: Smb2Header, a: HandlerResponse, g: Signer)
    ensures var r := BuildResponse(req, a, g); var h := AnswerHeader(req, a, g);
            && IsResponse(r)
            && Parse(r).Ok? && Parse(r).value.1 == a.body
            && Parse(r).value.0 == h.(signature := Parse(r).value.0.signature)
            && (HasBit(Parse(r).value.0.flags, FLAG_SIGNED) <==> ShouldSign(req, a, g))
            && (ShouldSign(req, a, g) ==>
                  Authentic(r, g.sessions[AnswerSession(req, a)].key, g.algo, g.mac))
            && (ShouldSign(req, a, g) ==> NeedsSignature(r, g))
  {
    hide AnswerFlags, HasBit, Encode, FromLe, MacOf, AnswerTree, AnswerSession, GuestAnswer, SetupSucceeded;
    var h := AnswerHeader(req, a, g);
    var out := Encode(h) + a.body;
    var r := BuildResponse(req, a, g);
    AnswerFlagBits(req.flags, ShouldSign(req, a, g));
    ParseEncodeIff(h, a.body);
    if ShouldSign(req, a, g) {
      var key := g.sessions[AnswerSession(req, a)].key;
      SignedIsAuthentic(out, key, g.algo, g.mac);
      SignatureDoesNotParse(out, MacOf(out, key, g.algo, g.mac));
    }
  }

  /** Filling the signature field changes only the parsed signature. */
  lemma SignatureDoesNotParse(s: bytes, sig: Sig)
    requires Parse(s).Ok?
    ensures var t := Patch(s, SIGNATURE_AT, sig);
            && Parse(t).Ok? && Parse(t).value.1 == Parse(s).value.1
            && Parse(t).value.0 == Parse(s).value.0.(signature := sig)
  {
    hide FromLe, HasBit;
    SliceOfPatch(s, SIGNATURE_AT, sig, 0, 4);
    SliceOfPatch(s, SIGNATURE_AT, sig, 4, 6);
    SliceOfPatch(s, SIGNATURE_AT, sig, 6, 8);
    SliceOfPatch(s, SIGNATURE_AT, sig, 8, 12);
    SliceOfPatch(s, SIGNATURE_AT, sig, 12, 14);
    SliceOfPatch(s, SIGNATURE_AT, sig, 14, 16);
    SliceOfPatch(s, SIGNATURE_AT, sig, 16, 20);
    SliceOfPatch(s, SIGNATURE_AT, sig, 20, 24);
    SliceOfPatch(s, SIGNATURE_AT, sig, 24, 32);
    SliceOfPatch(s, SIGNATURE_AT, sig, 32, 36);
    SliceOfPatch(s, SIGNATURE_AT, sig, 36, 40);
    SliceOfPatch(s, SIGNATURE_AT, sig, 32, 40);
    SliceOfPatch(s, SIGNATURE_AT, sig, 40, 48);
    assert s[..4] == s[0..4] && Patch(s, SIGNATURE_AT, sig)[..4] == Patch(s, SIGNATURE_AT, sig)[0..4];
  }

  /** What a client reads in any response: the request's command, message id and credits, the handler's status, the
      ids the handler minted or else the request's, and the SIGNED flag exactly when the handler did not forbid it,
      the request was signed or completed a session setup that is no guest's, and the session is a user's with a
      key. */
  lemma ResponseFields(req: Smb2Header, a: HandlerResponse, g: Signer)
    ensures var r := BuildResponse(req, a, g);
            && Parse(r).Ok? && Parse(r).value.1 == a.body
            && var h := Parse(r).value.0;
               var done := req.command == SessionSetup && a.status == 0;
               var guest := done && |a.body| >= 4 && a.body[2] % 2 == 1;
               && h.command == req.command && h.messageId == req.messageId && h.credits == req.credits
               && h.creditCharge == req.creditCharge && h.status == a.status && h.next == 0
               && h.sessionId == (if a.overrideSession.Some? then a.overrideSession.value else req.sessionId)
               && h.tail == Sync(0, if a.overrideTree.Some? then a.overrideTree.value
                                    else if req.tail.Sync? then req.tail.treeId else 0)
               && HasBit(h.flags, FLAG_SERVER_TO_REDIR) && !HasBit(h.flags, FLAG_ASYNC)
               && (HasBit(h.flags, FLAG_SIGNED) <==>
                     && !a.skipSigning && !guest && (HasBit(req.flags, FLAG_SIGNED) || done)
                     && h.sessionId != 0 && h.sessionId in g.sessions && !g.sessions[h.sessionId].anonymous
                     && g.sessions[h.sessionId].key != Zeros(16))
  {
    hide BuildResponse, AnswerFlags, HasBit, FromLe, Authentic, NeedsSignature, Parse, Zeros, IsResponse;
    ResponseIsWellFormed(req, a, g);
    AnswerFlagBits(req.flags, ShouldSign(req, a, g));
    if |a.body| >= 4 {
      LowBit(a.body[2]);
    }
  }

  lemma LowBit(n: nat)
    ensures HasBit(n, 1) <==> n % 2 == 1
  {
  }
}
