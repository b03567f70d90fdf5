/** The authentication dispatcher as the handler of a compound frame: what the preauth hash absorbs of a
    challenge, and what of it is sent. */
module Transcripts {
  import opened Bytes
  import opened Header
  import opened Stitching
  import Answering = Responses
  import Dispatch
  import Spnego
  import Setup = SessionSetup

  /** Every sub-frame of a frame goes through `dispatch_one`; the world contributes to each by its ordinal. */
  function Serving(k: Setup.Crypto, worlds: nat -> Setup.World): Dispatch.Handler<Setup.Auth> {
    (c: Setup.Auth, sub: bytes, ordinal: nat) => Setup.DispatchOne(c, sub, worlds(ordinal), k)
  }

  lemma AnswersOnce(c: Setup.Auth, sub: bytes, w: Setup.World, k: Setup.Crypto)
    ensures var reply := Setup.DispatchOne(c, sub, w, k).1; reply.Some? ==> IsResponse(reply.value)
  {
    hide Parse, Setup.SignatureRefusal, Setup.HandleSetup, Setup.HandleNegotiate, Setup.TakeSnapshot, Setup.Absorb,
         IsResponse, Answering.BuildResponse, Setup.SignerOf;
    if Parse(sub).Err? {
      return;
    }
    var (h, body) := Parse(sub).value;
    var refusal := Setup.SignatureRefusal(c, h, sub, k);
    if refusal.Some? {
      Answering.ResponseIsWellFormed(h, Setup.Failure(refusal.value).response, Setup.SignerOf(c, k));
    } else if h.command == Negotiate {
      var (c1, a) := Setup.HandleNegotiate(c.(preauth := Setup.Absorb(c.preauth, [sub], k)), w);
      Answering.ResponseIsWellFormed(h, a, Setup.SignerOf(c1, k));
    } else if h.command == SessionSetup {
      var (c1, a) := Setup.HandleSetup(c, h.sessionId, body, w, k);
      Answering.ResponseIsWellFormed(h, a.response, Setup.SignerOf(c1, k));
      Answers311(c, h, sub, body, w, k);
    } else {
      var c1 := if h.sessionId == 0 then c else Setup.AfterOther(c, h);
      Answering.ResponseIsWellFormed(h, Setup.OtherAnswer(h, w), Setup.SignerOf(c1, k));
    }
  }

  lemma Answers311(c: Setup.Auth, h: Smb2Header, sub: bytes, body: bytes, w: Setup.World, k: Setup.Crypto)
    ensures IsResponse(Setup.Setup311(c, h, sub, body, w, k).1)
  {
    hide Setup.HandleSetup, Setup.TakeSnapshot, Setup.Absorb, IsResponse, Answering.BuildResponse, Setup.SignerOf;
    var d := Setup.Absorb(Setup.ForkOf(c, h.sessionId), [sub], k);
    var c0 := c.(forks := Setup.TakeFork(c.forks, h.sessionId));
    var (c1, a) := Setup.HandleSetup(c0, h.sessionId, body, w, k);
    var c2 := Setup.TakeSnapshot(c1, a.snapshotFor, d, k);
    Answering.ResponseIsWellFormed(h, a.response, Setup.SignerOf(c2, k));
  }

  /** Its answers are complete, unchained responses, as stitching demands. */
  lemma ServingAnswers(k: Setup.Crypto, worlds: nat -> Setup.World)
    ensures Dispatch.Answers(Serving(k, worlds))
  {
    hide Setup.DispatchOne, IsResponse;
    forall c, sub, n
      ensures Serving(k, worlds)(c, sub, n).1.Some? ==> IsResponse(Serving(k, worlds)(c, sub, n).1.value)
    {
      AnswersOnce(c, sub, worlds(n), k);
    }
  }

  /** `dispatch_frame` over `dispatch_one`. */
  method DispatchFrame(frame: bytes, c0: Setup.Auth, k: Setup.Crypto, worlds: nat -> Setup.World)
    returns (out: Option<bytes>, c: Setup.Auth)
    ensures var o := Dispatch.Run(frame, 0, 0, Dispatch.NOTHING_YET, c0, Serving(k, worlds));
            && c == o.final
            && out.Some? == (Dispatch.WellCut(frame, 0) && Dispatch.Replies(o.steps) != [])
            && (out.Some? ==>
                  && Responses(Dispatch.Replies(o.steps))
                  && out.value == Stitched(Dispatch.Replies(o.steps), Setup.SignerOf(o.final, k)))
  {
    ServingAnswers(k, worlds);
    out, c := Dispatch.DispatchFrame(frame, c0, Serving(k, worlds), (c: Setup.Auth) => Setup.SignerOf(c, k));
  }

  /** The connection's state when a frame's step `j` is dispatched, and the event that step is. */
  ghost function StateAt(frame: bytes, c0: Setup.Auth, k: Setup.Crypto, worlds: nat -> Setup.World, j: nat)
    : Setup.Auth
  {
    Dispatch.StateAt(frame, 0, 0, Dispatch.NOTHING_YET, c0, Serving(k, worlds), j)
  }

  ghost function Steps(frame: bytes, c0: Setup.Auth, k: Setup.Crypto, worlds: nat -> Setup.World)
    : seq<Dispatch.Dispatched>
  {
    Dispatch.Run(frame, 0, 0, Dispatch.NOTHING_YET, c0, Serving(k, worlds)).steps
  }

  ghost function EventAt(frame: bytes, c0: Setup.Auth, k: Setup.Crypto, worlds: nat -> Setup.World, j: nat): Setup.Event
    requires j < |Steps(frame, c0, k, worlds)|
  {
    var d := Steps(frame, c0, k, worlds)[j];
    Setup.Frame(d.sent, worlds(d.ordinal))
  }

  /** The steps of a frame are steps of the connection, one after the other. */
  lemma StepsOfTheConnection(frame: bytes, c0: Setup.Auth, k: Setup.Crypto, worlds: nat -> Setup.World, j: nat)
    requires j < |Steps(frame, c0, k, worlds)|
    ensures var c, e := StateAt(frame, c0, k, worlds, j), EventAt(frame, c0, k, worlds, j);
            && Steps(frame, c0, k, worlds)[j].reply == Setup.Reply(c, e, k)
            && StateAt(frame, c0, k, worlds, j + 1) == Setup.Step(c, e, k)
  {
    hide Setup.DispatchOne, Dispatch.Run, Dispatch.StateAt;
    Dispatch.StepIsHandled(frame, 0, 0, Dispatch.NOTHING_YET, c0, Serving(k, worlds), j);
  }

  lemma StateAtStart(frame: bytes, c0: Setup.Auth, k: Setup.Crypto, worlds: nat -> Setup.World)
    ensures StateAt(frame, c0, k, worlds, 0) == c0
  {
  }

  lemma {:induction false} StaysTidy(
    frame: bytes, c0: Setup.Auth, k: Setup.Crypto, worlds: nat -> Setup.World, j: nat)
    requires Setup.Tidy(c0) && j <= |Steps(frame, c0, k, worlds)|
    ensures Setup.Tidy(StateAt(frame, c0, k, worlds, j))
  {
    hide Setup.Tidy, Setup.Step, Steps, StateAt, EventAt;
    StateAtStart(frame, c0, k, worlds);
    if j > 0 {
      StaysTidy(frame, c0, k, worlds, j - 1);
      StepsOfTheConnection(frame, c0, k, worlds, j - 1);
      Setup.StepTidy(StateAt(frame, c0, k, worlds, j - 1), EventAt(frame, c0, k, worlds, j - 1), k);
    }
  }

  // ---- what is hashed and what is sent ----

  /** A challenge leaves the dispatcher unsigned, and is short. */
  lemma ChallengeIsUnsigned(c: Setup.Auth, e: Setup.Event, k: Setup.Crypto)
    requires Setup.Opens(c, e, k)
    ensures Setup.Reply(c, e, k).Some?
    ensures var r := Setup.Reply(c, e, k).value;
            IsResponse(r) && !HasBit(Get32(r, FLAGS_AT), FLAG_SIGNED) && |r| < 0x2_0000
  {
    hide Answering.BuildResponse, Setup.SignerOf, Setup.Absorb, Setup.SignatureRefusal, FromLe, Setup.SetupBody,
         Setup.ChallengeBlob, Setup.BodyRound, HasBit, Answering.AnswerFlags;
    var (h, body) := Parse(e.frame).value;
    var c0 := c.(forks := Setup.TakeFork(c.forks, h.sessionId));
    var (c1, a) := Setup.HandleSetup(c0, h.sessionId, body, e.world, k);
    Answering.ResponseIsWellFormed(h, a.response, Setup.SignerOf(c1, k));
    ChallengeSize(Setup.BodyRound(body).raw, e.world.challenge);
    BodyBehindHeader(Answering.BuildResponse(h, a.response, Setup.SignerOf(c1, k)));
  }

  lemma ChallengeSize(raw: bool, challenge: Setup.Challenge)
    ensures |Setup.SetupBody(Setup.ChallengeBlob(raw, challenge), 0)| < 0x1_0100
  {
    hide Spnego.EncodeResp;
    Spnego.RespSize(Spnego.AcceptIncomplete, Some(Spnego.OID_NTLMSSP), Some(challenge), None);
  }

  lemma BodyBehindHeader(r: bytes)
    requires Parse(r).Ok?
    ensures |r| == HEADER_LEN + |Parse(r).value.1|
  {
  }

  /** An unsigned response is sent as it was built exactly when it is the last of its frame: every other one
      has its NextCommand rewritten. */
  lemma SentAsBuiltIff(rs: seq<bytes>, i: nat, g: Signer)
    requires Responses(rs) && i < |rs| && Align8(|rs[i]|) < U32
    requires !HasBit(Get32(rs[i], FLAGS_AT), FLAG_SIGNED)
    ensures Segments(rs, g, |rs|)[i][..|rs[i]|] == rs[i] <==> i + 1 == |rs|
  {
    hide Put32, Align8, FromLe, HasBit;
    var r := rs[i];
    PieceKeepsResponse(rs, i, g);
    var p := Piece(rs, i, g, true);
    SliceFirst(p, Padding(rs, i), 0, |r|);
    assert p[0..|r|] == p;
    if i + 1 < |rs| {
      assert Get32(p, NEXT_AT) == Align8(|r|) != 0;
    }
  }

  lemma {:induction false} ReplyPlace(steps: seq<Dispatch.Dispatched>, j: nat)
    requires j < |steps| && steps[j].reply.Some?
    ensures var i := |Dispatch.Replies(steps[..j])|;
            i < |Dispatch.Replies(steps)| && Dispatch.Replies(steps)[i] == steps[j].reply.value
  {
    if j > 0 {
      ReplyPlace(steps[1..], j - 1);
      assert steps[1..][..j - 1] == steps[..j][1..];
    }
  }

  /** A challenge inside a frame. The exchange's hash absorbs the response as it was built, before the frame is
      stitched; the client is sent those same bytes if and only if it is the frame's last response. */
  lemma HashedIsSentIffLast(
    frame: bytes, c0: Setup.Auth, k: Setup.Crypto, worlds: nat -> Setup.World, g: Signer, j: nat)
    requires Setup.Tidy(c0) && j < |Steps(frame, c0, k, worlds)|
    requires Setup.Opens(StateAt(frame, c0, k, worlds, j), EventAt(frame, c0, k, worlds, j), k)
    requires StateAt(frame, c0, k, worlds, j).nextSession < U64
    ensures var steps := Steps(frame, c0, k, worlds);
            var rs, i := Dispatch.Replies(steps), |Dispatch.Replies(steps[..j])|;
            var before, after := StateAt(frame, c0, k, worlds, j), StateAt(frame, c0, k, worlds, j + 1);
            && Responses(rs) && i < |rs| && steps[j].reply == Some(rs[i])
            && before.nextSession in after.forks
            && after.forks[before.nextSession] == Setup.Absorb(before.preauth, [steps[j].sent, rs[i]], k)
            && (Segments(rs, g, |rs|)[i][..|rs[i]|] == rs[i] <==> i + 1 == |rs|)
  {
    hide StateAt, Steps, Setup.Opens, Setup.Tidy, Setup.Step, Setup.Absorb, Setup.DispatchOne, Segments, IsResponse,
         Align8;
    var steps := Steps(frame, c0, k, worlds);
    var c, e := StateAt(frame, c0, k, worlds, j), EventAt(frame, c0, k, worlds, j);
    StaysTidy(frame, c0, k, worlds, j);
    StepsOfTheConnection(frame, c0, k, worlds, j);
    ChallengeIsUnsigned(c, e, k);
    Setup.OpeningForks(c, e, k);
    ReplyPlace(steps, j);
    FrameAnswered(frame, c0, k, worlds);
    SentAsBuiltIff(Dispatch.Replies(steps), |Dispatch.Replies(steps[..j])|, g);
  }

  lemma FrameAnswered(frame: bytes, c0: Setup.Auth, k: Setup.Crypto, worlds: nat -> Setup.World)
    ensures Dispatch.AllResponses(Dispatch.Replies(Steps(frame, c0, k, worlds)))
  {
    hide Dispatch.Run, IsResponse;
    AllAnswered(frame, 0, 0, Dispatch.NOTHING_YET, c0, k, worlds);
  }

  lemma {:induction false} AllAnswered(
    frame: bytes, off: nat, ordinal: nat, ctx: Dispatch.Context, c0: Setup.Auth, k: Setup.Crypto,
    worlds: nat -> Setup.World)
    requires off <= |frame|
    ensures Dispatch.AllResponses(
              Dispatch.Replies(Dispatch.Run(frame, off, ordinal, ctx, c0, Serving(k, worlds)).steps))
    decreases |frame| - off
  {
    hide Setup.DispatchOne, Parse, CutLength, Dispatch.SubFrame, Dispatch.Kept, Dispatch.After, IsResponse;
    var steps := Dispatch.Run(frame, off, ordinal, ctx, c0, Serving(k, worlds)).steps;
    if steps != [] {
      var t := Dispatch.TurnAt(frame, off, ordinal, ctx, c0, Serving(k, worlds));
      AnswersOnce(c0, t.step.sent, worlds(ordinal), k);
      assert steps[0] == t.step;
      if t.last {
        assert steps[1..] == [];
      } else {
        AllAnswered(frame, off + t.size, Dispatch.NextOrdinal(ordinal), t.c, t.st, k, worlds);
        assert steps[1..] == Dispatch.Run(frame, off + t.size, Dispatch.NextOrdinal(ordinal), t.c, t.st,
                                          Serving(k, worlds)).steps;
      }
      var first := if t.step.reply.Some? then [t.step.reply.value] else [];
      assert Dispatch.Replies(steps) == first + Dispatch.Replies(steps[1..]);
    }
  }

  // ---- such a frame ----

  /** An opening SESSION_SETUP with a zero session id, and a second request behind it. */
  function OpeningHeader(): Smb2Header {
    TokenSize(); Dispatch.Leading(SessionSetup, 0, 0, Setup.RawToken(1))
  }

  function OpeningSent(): bytes {
    Encode(OpeningHeader()) + Setup.RawToken(1)
  }

  function OpeningFrame(later: Command, b: bytes): bytes {
    OpeningSent() + (Encode(Dispatch.Request(later, 0, 0, 0, 0)) + b)
  }

  lemma TokenSize()
    ensures |Setup.RawToken(1)| == 36
  {
  }

  lemma OpeningParses()
    ensures Parse(OpeningSent()) == Ok((OpeningHeader(), Setup.RawToken(1)))
    ensures !HasBit(OpeningHeader().flags, FLAG_SIGNED)
  {
    hide Encode, Parse, Setup.RawToken;
    TokenSize();
    Dispatch.NoFlags();
    Setup.NoFlags();
    Dispatch.RequestParses(SessionSetup, 0, HEADER_LEN + 36, 0, 0, Setup.RawToken(1));
  }

  lemma FirstOpens(c: Setup.Auth, w: Setup.World, k: Setup.Crypto)
    requires c.dialect == Some(Setup.Smb311) && c.forks == map[] && w.accepted
    ensures Setup.Opens(c, Setup.Frame(OpeningSent(), w), k)
  {
    hide Encode, Parse, Setup.RawToken, OpeningSent, HasBit, Setup.BodyRound;
    OpeningParses();
    Setup.RawTokenRound(1);
  }

  lemma OnlyCancelIsSilent(c: Setup.Auth, sub: bytes, w: Setup.World, k: Setup.Crypto)
    requires Parse(sub).Ok? && Parse(sub).value.0.command != Cancel
    ensures Setup.DispatchOne(c, sub, w, k).1.Some?
  {
    hide Parse, Setup.SignatureRefusal, Setup.Setup311, Setup.HandleSetup, Answering.BuildResponse, Setup.Absorb;
  }

  lemma TwoSteps(later: Command, b: bytes, c0: Setup.Auth, k: Setup.Crypto, worlds: nat -> Setup.World)
    requires later != Cancel
    ensures var steps := Steps(OpeningFrame(later, b), c0, k, worlds);
            |steps| == 2 && steps[0].sent == OpeningSent() && steps[0].ordinal == 0 && steps[1].reply.Some?
  {
    hide Encode, Parse, Setup.RawToken, Setup.DispatchOne, Dispatch.TurnAt;
    var h2 := Dispatch.Request(later, 0, 0, 0, 0);
    var frame, rest := OpeningFrame(later, b), Encode(h2) + b;
    TokenSize();
    Dispatch.NoFlags();
    Dispatch.LeadingTurn(SessionSetup, 0, 0, Setup.RawToken(1), rest, c0, Serving(k, worlds));
    Dispatch.RequestParses(later, 0, 0, 0, 0, b);
    DropFirst(OpeningSent(), rest);
    var t := Dispatch.TurnAt(frame, 0, 0, Dispatch.NOTHING_YET, c0, Serving(k, worlds));
    Dispatch.LastTurn(frame, 100, Dispatch.NextOrdinal(0), t.c, t.st, Serving(k, worlds));
    LastIsAnswered(frame, 100, Dispatch.NextOrdinal(0), t.c, t.st, k, worlds);
  }

  lemma LastIsAnswered(frame: bytes, off: nat, ordinal: nat, ctx: Dispatch.Context, c: Setup.Auth, k: Setup.Crypto,
                       worlds: nat -> Setup.World)
    requires off < |frame| && Parse(frame[off..]).Ok?
    requires var h := Parse(frame[off..]).value.0; h.next == 0 && h.command != Cancel && !Dispatch.Related(h)
    ensures var t := Dispatch.TurnAt(frame, off, ordinal, ctx, c, Serving(k, worlds)); t.Turn? && t.step.reply.Some?
  {
    hide HasBit, Setup.DispatchOne, FromLe;
    var s := frame[off..];
    assert s[..|s|] == s;
    OnlyCancelIsSilent(c, s, worlds(ordinal), k);
  }

  lemma TwoReplies(steps: seq<Dispatch.Dispatched>)
    requires |steps| == 2 && steps[0].reply.Some? && steps[1].reply.Some?
    ensures Dispatch.Replies(steps) == [steps[0].reply.value, steps[1].reply.value]
    ensures Dispatch.Replies(steps[..0]) == []
  {
    assert steps[1..] == [steps[1]] && steps[1..][1..] == [];
    assert Dispatch.Replies(steps[1..]) == [steps[1].reply.value] + Dispatch.Replies([]);
  }

  /** After a NEGOTIATE of 3.1.1, that frame, with any second request but CANCEL, has its challenge hashed as
      built and sent differently. */
  lemma ChallengeSentDifferently(later: Command, b: bytes, k: Setup.Crypto, g: Signer)
    returns (before: seq<Setup.Event>, world: Setup.World)
    requires later != Cancel
    ensures var c0, worlds, frame := Setup.Run(Setup.UNCONNECTED, before, k), (n: nat) => world, OpeningFrame(later, b);
            var rs, after := Dispatch.Replies(Steps(frame, c0, k, worlds)), StateAt(frame, c0, k, worlds, 1);
            && |rs| == 2 && Responses(rs) && 1 in after.forks
            && after.forks[1] == Setup.Absorb(c0.preauth, [OpeningSent(), rs[0]], k)
            && Segments(rs, g, 2)[0][..|rs[0]|] != rs[0]
  {
    hide Encode, Parse, Setup.Run, Setup.Absorb, Setup.RawToken, Setup.DispatchOne, Segments, IsResponse,
         OpeningFrame, OpeningSent, Dispatch.Run, Dispatch.Replies, Setup.Opens, Setup.Step, Setup.Tidy;
    var opening, completion;
    before, opening, completion := Setup.AnExchangeExists(k);
    world := opening.world;
    var w := world;
    var worlds := (n: nat) => w;
    var c0, frame := Setup.Run(Setup.UNCONNECTED, before, k), OpeningFrame(later, b);
    Setup.StartsTidy();
    Setup.RunTidy(Setup.UNCONNECTED, before, k);
    TwoSteps(later, b, c0, k, worlds);
    FirstOpens(c0, w, k);
    StateAtStart(frame, c0, k, worlds);
    StepsOfTheConnection(frame, c0, k, worlds, 0);
    ChallengeIsUnsigned(c0, EventAt(frame, c0, k, worlds, 0), k);
    TwoReplies(Steps(frame, c0, k, worlds));
    HashedIsSentIffLast(frame, c0, k, worlds, g, 0);
  }

}
