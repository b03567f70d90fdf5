# Verified model of an SMB2/3 server

This project models the hard core of an SMB 2/3 file server library and proves properties of it with Dafny 4.11.
`dafny verify dfyconfig.toml` checks everything.

| file | what it models |
|---|---|
| `Servers`, `Sessions`, `Sharing`, `NtStatus` | the server as a value: users, shares, access lists, connections, sessions, trees, opens, and the handles backends gave out; requests and configuration calls as steps |
| `ConfigEffects`, `RequestEffects` | what those steps mean to who asks: lists by share name, what exactly is torn down, errors, rights and statuses |
| `Connections`, `Configuration`, `Builder` | the same in place: the teardown loops, the request handlers, the configuration calls with their loops over shares and connections, and the builder; every method is proved to be the step of the value model |
| `Tallies`, `Ownership`, `Numbering`, `Witnesses` | which handle is owned where, conservation of handles, the id counters and the exact condition under which handles are lost, over every run; a run that loses one |
| `ConfigInterleaving` | configuration calls interleaved at the granularity of their locks |
| `SessionSetup`, `Transcripts` | the two-round authentication exchange, the SMB 3.1.1 preauth integrity hash and the dispatcher around them, alone and inside compound frames |
| `SetupAgreement`, `JointRuns` | the authentication view and the table view of one connection agree, request by request and over joint runs of the connection and the server around it |
| `Dispatch`, `CreateReplies`, `Responses`, `Stitching`, `Signing`, `Header` | compound frames: cutting, inheriting context, building, signing, padding and chaining responses |
| `DirectoryListing`, `Wildcard`, `Utf16` | QUERY_DIRECTORY: the cursor, the packing loop, the name filter |
| `CreateContexts`, `CreateContextLimits`, `NegotiateContexts`, `Spnego`, `Bytes` | codecs with nested lengths and back-patched offsets |
| `Paths`, `PathGrammar` | the path parser, and exactly which paths it accepts |

Assumptions. In `Servers`, `Ownership` and `Numbering` each request handler and each configuration call is one
atomic step. `ConfigInterleaving` drops that assumption for configuration calls: each of its steps is one critical
section. Frames of one connection are handled one after the other, as the connection's reader does
(`src/conn/reader.rs`). The hash, the MAC and the key derivations are arbitrary functions; the NTLM outcome, the
backend's answers and random challenges are inputs.

Findings, where the code and its documentation or the obvious expectation differ; the model follows the code:

* The wildcard loop tries literal equality before the star, so a `*` in the *name* can be eaten by a `*` in the
  pattern: the loop is exact for a name exactly when it has no `*` (`Wildcard.ExactIffNameHasNoStar`), and for a pattern
  exactly when it has none (`Wildcard.ExactIffPatternHasNoStar`). `*.*` matches every name, also those without a dot.
* An inherited compound context does not include ids minted inside the compound: a related request with placeholders
  behind a TREE_CONNECT or SESSION_SETUP gets the ids of that request's header as sent, whatever its answer says
  (`Dispatch.MintedIdsAreNotInherited`). An answered CREATE that failed clears the inherited file id.
* The splice of inherited ids does not look at the header's form: in an async header it replaces the high half of the
  async id (`Dispatch.AsyncIdIsOverwritten`; `Dispatch.InheritanceIsAFold` covers both forms).
* A compound frame whose walk fails half way is answered with nothing, although its first sub-requests ran:
  `Dispatch.AnswerIsLost` gives such frames, and `Dispatch.CompleteIffWellCut` says which frames are walked to the end,
  by a check on the frame alone.
* A first-round SESSION_SETUP whose header names another exchange under way takes over that exchange's preauth
  hash: `SessionSetup.ForeignOpeningTakesOver`, with a run from a fresh connection in `SessionSetup.TakeoverHappens`.
  `SessionSetup.ForkSurvivesIff` gives the exact condition.
* The preauth hash absorbs a challenge as it was built, with NextCommand zero. Inside a compound frame the client is
  sent those bytes if and only if the challenge is the frame's last response (`Transcripts.HashedIsSentIffLast`);
  `Transcripts.ChallengeSentDifferently` gives frames in which it is not.
* The builder, unlike `add_share`, accepts a share named `IPC$`; no tree ever points at it
  (`Servers.ReservedShareIsUnreachable`).
* The offsets in the comments of `src/proto/header.rs` differ from the structure it reads; the structure is modelled.
* A handle whose connection goes away, or whose table entry is overwritten after an id counter wrapped, is dropped and
  its close is never called. The books of `Ownership` carry these separately. A run loses a handle exactly when a
  connection goes away, or an entry is overwritten, that owns one (`Numbering.OwnedOrClosedOnce`); while no counter wraps
  only the former can happen. `Witnesses.HangupLosesAHandle` and `Witnesses.WrapLosesAHandle` are runs of the two kinds.

## Model

| member | source | states |
|---|---|---|
| Servers.RevocationIsSafe | src/server.rs:277-402 | from any server the builder accepts, after any interleaving of requests and configuration calls, every live tree except those of the synthetic share points at the binding now registered under its lower-cased name, its identity is authorised by that binding's list as it is now, every session's user is in the table, and writing opens exist only under writable trees |
| Servers.RemovedUserStaysOut | src/server.rs:289-304 | after a successful removal, and until the name is added again, no session on any connection is that user's and no registered list names it, whatever else happens |
| Servers.RemovedShareStaysOut | src/server.rs:323-334 | after a successful removal, and until a share of that name ignoring case is added again, no live tree on any connection has that share name |
| Servers.TreesAreEntitled | src/handlers/tree_connect.rs:127-140 | a live tree of a closed share belongs to a user who is on its list and in the table; anonymous sessions hold trees of public shares and of the synthetic share only |
| Servers.ConnectGrants | src/handlers/tree_connect.rs:63-78 | TREE_CONNECT opens a tree exactly for those entitled, and grants writing exactly where the backend is writable and the share is public or its list gives that user writing |
| ConfigEffects.TreesHaveTheModesLevel | src/server.rs:377-402 | over every run a live tree of a share that is public read-only now, or of the synthetic share, grants reading and no open under it writes or may create; one of a public share grants all its backend allows |
| ConfigEffects.RevokedUserStaysOff | src/server.rs:361-375 | after a successful revocation, and until the user is granted that share again or a share of that name is added with the user listed, the list under that name does not hold the user, and while the share is closed no live tree of it on any connection is that user's |
| ConfigEffects.RevokedUserIsRefused | src/handlers/tree_connect.rs:52-71 | a user not on a closed share's list is refused with ACCESS_DENIED |
| ConfigEffects.CallsActByName | src/server.rs:277-402 | seen by share name ignoring case, a successful call changes the user table and the lists exactly as it says, whatever bindings lie behind the names |
| ConfigEffects.TeardownIsExact | src/conn/state.rs:115-182 | a successful call closes exactly the removed user's sessions, the removed or re-moded share's trees, or the revoked user's trees of that share, on every connection, and leaves every other session and tree as it is |
| ConfigEffects.ReportsFirstError | src/server.rs:277-420 | every call reports the first error in one order common to all calls, and none exactly when there is none; setting a public mode, or adding to a list, is checked on the list it would leave |
| Servers.ReservedShareIsUnreachable | src/handlers/tree_connect.rs:52-61 | over every run a share is registered under the reserved name exactly when one was declared so to the builder, and no tree ever points at it |
| Servers.EffectKeeps | src/server.rs:336-402 | every successful configuration call leaves a coherent policy, and whoever its teardown spares is still allowed afterwards |
| Servers.RequestKeeps | src/handlers/session_setup.rs:165-214 | no request of any kind breaks authorisation, containment of write access, or the presence of handles on its connection |
| RequestEffects.ConnectMeans | src/handlers/tree_connect.rs:47-91 | by name: the reserved name is the synthetic share for reading, any other is the share registered under it ignoring case, open exactly to the entitled; refusals change nothing |
| RequestEffects.SessionOpenedMeans | src/handlers/session_setup.rs:155-214 | a session is opened exactly by an exchange that was pending, after NEGOTIATE, for a user in the table whose proof holds, or anonymously while some share is public |
| RequestEffects.CreateMeans | src/handlers/create.rs:59-219 | a file is opened exactly when its tree is there, the request may reach the backend, and the backend opens and stats it; the open writes only if asked to, under the tree's level, and stands beside the others |
| RequestEffects.CreateReachesBackendIff | src/handlers/create.rs:69-138 | which requests reach the backend: a good name, a known disposition, writing and creating only under a writable tree, consistent directory options |
| RequestEffects.RemovedOnce | src/handlers/close.rs:31-79 | CLOSE removes the open and nothing else and a second one finds nothing; TREE_DISCONNECT removes the tree and nothing else |
| RequestEffects.MissingTree | src/handlers/shared.rs:14-37 | a request for a tree that is not there gets the status for no tree id, no session or no tree, in that order, and changes nothing |
| RequestEffects.LogoffMeans | src/handlers/logoff.rs:13-28 | LOGOFF removes the named session and nothing else; without one it closes nothing |
| Ownership.OwnershipIsLinear | src/conn/state.rs:91-216 | after any run every handle ever given out counts exactly once among those owned by live opens, those closed and those lost unclosed, and no other handle counts |
| Ownership.CreateBalances | src/handlers/create.rs:184-219 | CREATE registers the handle it opened, closes the one it could not stat, and otherwise opens none; it closes nothing else, and loses only what a wrapped id overwrites |
| Ownership.CloseBalances | src/handlers/close.rs:31-79 | CLOSE stops owning, and closes, exactly the removed open's own handle; a refused CLOSE changes nothing |
| Ownership.TeardownBalances | src/handlers/logoff.rs:13-28 | LOGOFF closes exactly what the removed session's trees owned and TREE_DISCONNECT exactly what the removed tree owned; refused, they change nothing |
| Ownership.EverywhereSplits | src/conn/state.rs:151-182 | a teardown on all connections divides the owned handles into those it closes and those it keeps, and while the books balance no handle is on both sides |
| Numbering.OwnedOrClosedOnce | src/conn/state.rs:185-216 | after any run every handle is owned by exactly one open or was closed exactly once, if and only if no connection that went away and no table entry that was overwritten owned a handle |
| Numbering.OwnedOrClosedOnceUnwrapped | src/conn/state.rs:258-293 | while no counter wraps, the same if and only if no connection went away while it owned a handle |
| Numbering.LosesNothingIff | src/conn/mod.rs:36-40 | a run loses no handle if and only if none of its steps hangs up on, or overwrites, something that owns one |
| Witnesses.HangupLosesAHandle | src/conn/mod.rs:36-40 | a client that logs on, connects, opens a file and goes away leaves a handle that is neither owned nor closed |
| Witnesses.WrapLosesAHandle | src/handlers/tree_connect.rs:80-91 | after 2^32 connects in one session the last one takes id 1 again and overwrites the tree whose file is open: its handle is lost while the client is still there |
| Numbering.IdsAreOrderly | src/conn/state.rs:258-293 | over every run, session, tree and file ids in use lie below their counters until these wrap, and pending exchanges and sessions are disjoint |
| Numbering.SessionIdsNeverReissued | src/conn/state.rs:87-89 | two session ids issued on one connection differ, with any run in between, until the counter wraps |
| Numbering.TreeIdsNeverReissued | src/conn/state.rs:258-260 | two tree ids issued in one session differ, with any run in between, until its counter wraps |
| Numbering.FileIdsNeverReissued | src/conn/state.rs:290-293 | two file ids issued in one tree differ, with any run in between, until a counter wraps |
| Numbering.CompletesOnce | src/handlers/session_setup.rs:155-163 | a pending exchange becomes a session at most once |
| Numbering.RequestLosesNothing | src/conn/state.rs:258-293 | with counters not wrapped whatever a request puts into a table it puts under a key not in use, so it overwrites no session, tree or open and loses no handle |
| Connections.CloseTreeState | src/conn/state.rs:207-216 | draining the opens closes exactly the tree's handles, each once |
| Connections.Connection.CloseSession | src/conn/state.rs:91-102 | removes the session and closes exactly what its trees owned; a missing session changes nothing |
| Connections.Connection.CloseSessionsForUser | src/conn/state.rs:115-136 | removes exactly the sessions of that user and closes exactly their handles |
| Connections.Connection.CloseMatchingTrees | src/conn/state.rs:151-182 | removes exactly the matching trees of every session and closes exactly their handles |
| Connections.Connection.CreateFile | src/handlers/create.rs:55-219 | in place, the CREATE step: the refusals in order, the failing open, the failing stat that closes, the registered open |
| Connections.Connection.CloseFile | src/handlers/close.rs:27-79 | in place, the CLOSE step |
| Connections.Connection.ConnectTree | src/handlers/tree_connect.rs:47-91 | in place, the TREE_CONNECT step: lookups, authorisation, clamping, the new tree |
| Connections.Connection.FinishSetup | src/handlers/session_setup.rs:149-214 | in place, the second round: the pending entry is used up whatever comes of it |
| Configuration.ServerState.TearDown | src/server.rs:300-303 | the loop over connections is the teardown step on all of them |
| Configuration.ServerState.RemoveUser | src/server.rs:289-304 | in place, the removal step: table, then every registered list, then sessions |
| Configuration.ServerState.AddShare | src/server.rs:306-321 | in place, the registration step with its errors in order |
| Configuration.ServerState.RevokeShareUser | src/server.rs:361-375 | in place, the revocation step |
| Configuration.ServerState.SetShareMode | src/server.rs:377-402 | in place, the mode change step; setting the present mode tears nothing down |
| Configuration.ServerState.GrantShareUser | src/server.rs:336-359 | in place, the grant step |
| Configuration.ServerState.RemoveShare | src/server.rs:323-334 | in place, the share removal step |
| Configuration.ServerState.Handle | src/handlers/mod.rs:37-64 | each modelled request, through its handler, is the request step on that connection |
| Builder.BuildsIffBuildable | src/builder.rs:193-231 | the builder's checks find no error exactly when user names are legal, share names differ ignoring case, every list is within the user table, public shares name nobody, and an address is set |
| Builder.Build | src/builder.rs:193-271 | reports the first error in order, or starts a server in which all invariants hold |
| ConfigInterleaving.ListsStayWithinTable | src/server.rs:289-359 | however many calls interleave critical section by critical section, every user on a registered list is in the table or about to be struck off that list by a removal in flight; public lists name nobody; with no removal in flight the lists are within the table |
| ConfigInterleaving.RemovedStaysUnlisted | src/server.rs:289-299 | once a removal that found its user has returned, no registered list names them, however its steps and any other calls interleave before and after, until a call to add them is begun |
| ConfigInterleaving.RevokedStaysUnlisted | src/server.rs:361-369 | once a revocation has returned, the binding it found does not list the user, however other calls interleave, until a call to grant them that share is under way |
| ConfigInterleaving.RegistryHolds | src/server.rs:122-137 | from a built server, under any interleaving, every binding is registered under its own lower-cased name and identities are never shared |
| ConfigInterleaving.ActKeeps | src/server.rs:306-359 | each critical section of each call keeps that invariant |
| ConfigInterleaving.AloneIsAtomic | src/server.rs:277-402 | a call begun while no other call holds the user guard and left to run alone until it returns, by any steps in any visiting order, leaves the users, shares and lists, and returns the result, of the atomic step; its teardown of connections is not part of this system |
| ConfigInterleaving.AloneReturns | src/server.rs:277-402 | left alone such a call can always go on to return |
| SessionSetup.SnapshotIsOwnTranscript | src/dispatch.rs:347-418 | preauth non-interference: a session whose opening named no exchange under way and which nothing but its own completion names in between holds, as long as it lasts, the hash chain over the earlier NEGOTIATE messages, its first request, its challenge and its second request, and the key derived from it |
| SessionSetup.AnExchangeExists | src/dispatch.rs:347-418 | a NEGOTIATE, an opening and its completion, as bytes, that meet every premise of the theorem above, so it speaks of runs that happen |
| SessionSetup.ForkSurvivesIff | src/dispatch.rs:403-417 | an exchange's hash survives a run exactly when no 3.1.1 SESSION_SETUP names it, and then unchanged |
| SessionSetup.ForeignOpeningTakesOver | src/dispatch.rs:452-463 | the condition is needed: a first round that names another exchange continues from that exchange's hash and uses it up |
| SessionSetup.TakeoverHappens | src/dispatch.rs:452-463 | a run from a fresh connection in which a second opening takes the first exchange's hash over while that exchange is still pending |
| SessionSetup.ConnectionHashIsNegotiations | src/dispatch.rs:347-352 | the connection's hash absorbs exactly the NEGOTIATE requests and responses, whatever else runs |
| SessionSetup.CompletionIsSigned | src/dispatch.rs:536-576 | the response that completes a user's exchange is authentic under the derived key |
| SessionSetup.ForgedIsRefused | src/dispatch.rs:465-501 | a signed request whose bytes 48 to 64 are not the MAC of the frame with those bytes zero changes nothing and is answered with ACCESS_DENIED; one for an unknown session with USER_SESSION_DELETED |
| SessionSetup.ForgeriesLeaveNoTrace | src/dispatch.rs:330-341 | deleting such requests from a run leaves the same final state |
| SessionSetup.OthersAreServed | src/dispatch.rs:354-424 | any other request is carried out, signed or not: LOGOFF closes the session it names, and what another handler answers is sent |
| SessionSetup.OlderDialectKeys | src/handlers/session_setup.rs:185-214 | under an older dialect a completed exchange has the key derived from its base key alone |
| SessionSetup.OpeningIsAnswered | src/handlers/session_setup.rs:99-147 | an accepted opening is answered unsigned under a fresh session id, with the challenge in the form the client chose: raw, or a token that reads back to it |
| SessionSetup.CompletionIsAnswered | src/handlers/session_setup.rs:194-243 | a completed exchange is answered in the form it was opened in, marked as a guest's and left unsigned exactly if it is anonymous |
| SessionSetup.NegotiateSettles | src/handlers/negotiate.rs:62-67 | NEGOTIATE settles the dialect, and with it the MAC |
| SessionSetup.TokensAreTold | src/handlers/session_setup.rs:48-97 | an encoded init token opens a first round exactly when it lists NTLMSSP, and is refused otherwise |
| SessionSetup.ReplyTokensAreTold | src/handlers/session_setup.rs:48-97 | every encoded response token is a second round |
| SessionSetup.SessionIsSettled | src/handlers/session_setup.rs:149-214 | a session, once set up, keeps its key and snapshot as long as it lasts |
| SessionSetup.Connection.Dispatch | src/dispatch.rs:292-424 | in place: signature check, hash updates, handler, snapshot, response, fork kept or discarded; other commands are answered, CANCEL is not |
| SessionSetup.Connection.TakeSessionPreauth | src/dispatch.rs:452-463 | takes the exchange's hash out, or clones the connection's and leaves that alone |
| SessionSetup.PreauthIntegrity.Update | src/proto/crypto/preauth.rs:34-40 | the new hash is the old one chained with the frame |
| SetupAgreement.SetupAgrees | src/handlers/session_setup.rs:99-243 | the exchange with keys and hashes and the bookkeeping of ids and identities take the same branches to the same statuses and ids |
| JointRuns.SidesRun | src/dispatch.rs:292-424 | a joint run is a run of the server and a run of the connection's authentication, and after it both still describe one connection: same counter, pending exchanges, sessions and anonymity |
| JointRuns.KeysBelongToKnownUsers | src/handlers/session_setup.rs:165-214 | after any run before a connection is accepted and any joint run after, its tables are secure and every session that authenticates a user belongs to one who is in the user table now |
| JointRuns.FrameAgrees | src/dispatch.rs:330-372 | each frame, through signature check, dialect and handler, moves both views alike |
| JointRuns.ElsewhereAgrees | src/server.rs:300-303 | each step elsewhere closes the same sessions in both views |
| Transcripts.HashedIsSentIffLast | src/dispatch.rs:231-271 | for a step of any frame that is an opening in the state the connection is in at that step: the next state's fork absorbs the challenge as built, and the client is sent those bytes if and only if the challenge is the frame's last response |
| Transcripts.ChallengeSentDifferently | src/dispatch.rs:403-411 | after a NEGOTIATE, a frame of an opening and any second request but CANCEL has its challenge hashed as built and sent differently |
| Transcripts.StepsOfTheConnection | src/dispatch.rs:140-147 | the steps of a frame are steps of the connection, each in the state the one before it left |
| Transcripts.ServingAnswers | src/dispatch.rs:516-576 | whatever the frame, state and inputs, that dispatcher answers with complete unchained responses, as stitching demands |
| Transcripts.DispatchFrame | src/dispatch.rs:73-159 | the frame dispatcher over it: answered exactly when the frame is well cut and some step answers |
| Wildcard.ExactIffNameHasNoStar | src/utils.rs:76-104 | the loop decides the declarative wildcard relation for every pattern exactly when the name has no star |
| Wildcard.ExactIffPatternHasNoStar | src/utils.rs:76-104 | the loop decides the relation for every name exactly when the pattern has no star |
| Wildcard.AcceptedNamesMatch | src/utils.rs:76-104 | what the loop accepts is always a match |
| Wildcard.ExactOnStarFreeNames | src/utils.rs:76-104 | on names without a star, accepted and matching are the same |
| Wildcard.MatchesOneMeans | src/utils.rs:82-84 | a literal pattern character stands for itself and, if an ASCII letter, for its other case |
| Wildcard.DosPatternMatchesInner | src/utils.rs:76-104 | the loop terminates in fewer than (pattern length + 1) times (name length + 1) turns with the answer of its specification |
| Wildcard.DosPatternMatches | src/utils.rs:63-74 | the entry point: three spellings match all, otherwise the relation on star-free names |
| Stitching.WalkInvertsStitchIff | src/dispatch.rs:226-278 | cutting the stitched bytes at NextCommand gives back exactly the segments if and only if each padded length but the last fits 32 bits |
| Stitching.PieceKeepsResponse | src/dispatch.rs:231-244 | outside NextCommand and the signature a segment starts with its response unchanged |
| Stitching.SegmentAuthentic | src/dispatch.rs:246-271 | after chaining, a response marked signed is authentic over its unpadded range under its session's key; the rest of the segment is zeros and inner segments are multiples of eight |
| Stitching.Stitch | src/dispatch.rs:226-274 | padding, patching and re-signing in place produce the specified bytes |
| Signing.SignedIsAuthentic | src/proto/crypto/sign.rs:77-110 | verifying accepts after signing, and signing changes only the signature field |
| Signing.SigningIsIdempotent | src/proto/crypto/sign.rs:77-90 | signing ignores what the signature field held |
| Signing.Sign | src/proto/crypto/sign.rs:77-90 | in place on a range; short messages are refused and left alone |
| Signing.ConstantTimeEq | src/proto/crypto/sign.rs:114-120 | the OR of XORs is zero exactly for equal arrays |
| Signing.Verify | src/proto/crypto/sign.rs:94-110 | accepts exactly the authentic messages |
| Signing.MacCoversTheRest | src/proto/crypto/sign.rs:42-75 | two messages of one length have the same MAC under every MAC function exactly when they agree outside bytes 48 to 64, so the body is covered |
| Dispatch.InheritanceIsAFold | src/dispatch.rs:90-152 | each sub-request of a frame, sync or async, is dispatched under the fold of the steps before it: session id, tree id and file id resolved, nothing else changed |
| Dispatch.InheritedSessionIsMostRecent | src/dispatch.rs:126-137 | the inherited session id is the latest that was not a placeholder, or zero |
| Dispatch.InheritedTreeIsMostRecent | src/dispatch.rs:126-138 | likewise the tree id |
| Dispatch.InheritedFileIdIsLatestCreate | src/dispatch.rs:140-144 | the inherited file id is that of the latest answered CREATE alone, none if it failed |
| CreateReplies.CapturedIsTheFileId | src/dispatch.rs:214-224 | capturing from a response built over a CREATE body, laid out field by field in wire order, gives that body's file id on success and none on any other status |
| CreateReplies.CloseBehindCreate | src/dispatch.rs:140-144 | in a frame of a CREATE and a related CLOSE with an all-ones file id the CLOSE is dispatched with exactly the file id the CREATE was answered with, or with the placeholder still if it failed |
| Dispatch.MintedIdsAreNotInherited | src/dispatch.rs:137-144 | behind any first request a related one with placeholders is dispatched under the ids of that request's header as sent, whatever it was answered |
| Dispatch.AsyncIdIsOverwritten | src/dispatch.rs:173-183 | a related async request whose id has all ones in its high half reaches its handler with the inherited tree id there |
| Dispatch.CompleteIffWellCut | src/dispatch.rs:97-152 | whatever the handlers do, a frame is walked to its end exactly when each cut parses and is in bounds |
| Dispatch.AnswerIsLost | src/dispatch.rs:97-124 | a request with a short tail behind it runs, and the frame is answered with nothing |
| Dispatch.SpliceIsResolvedBody | src/dispatch.rs:161-196 | for every command the splice changes exactly the file id its parser reads, when that is all ones, and nothing else, and the parser then reads the inherited id |
| Dispatch.AllOnesMeans | src/dispatch.rs:189-193 | a placeholder file id is exactly sixteen bytes of ones |
| Dispatch.OffsetIsWhereTheParserReads | src/dispatch.rs:198-212 | the offset table agrees with the field layout of every request that carries a file id |
| Dispatch.DispatchedHeader | src/dispatch.rs:161-185 | a related request is answered under exactly the resolved header, whose async id is spliced where a sync header has its tree id |
| Dispatch.InheritRelatedContext | src/dispatch.rs:161-196 | the splices in place |
| Dispatch.SubFramesTile | src/dispatch.rs:97-152 | sub-frames lie end to end, each at least a header long, and fill the frame when the walk is not cut short |
| Dispatch.StepIsHandled | src/dispatch.rs:90-152 | each step's answer and the next step's state are the handler's from the state the frame has reached |
| Dispatch.OrdinalsCount | src/dispatch.rs:146-147 | within the frame limit the saturating ordinal counts exactly, so all ordinals of a frame differ |
| Dispatch.DispatchFrame | src/dispatch.rs:73-159 | the loop is the specified run; the frame is answered exactly when it is well cut and some step answers, and then with the stitched answers |
| Responses.ResponseIsWellFormed | src/dispatch.rs:516-576 | every response parses back to the request's header turned around with the handler's body, is unchained, and is flagged signed exactly when it is to be signed, and then authentic |
| Responses.ResponseFields | src/dispatch.rs:516-576 | field by field: message id, command and credits of the request, the handler's status, the ids it minted or else the request's, and exactly when the response is flagged signed |
| Header.ParseEncodeIff | src/proto/header.rs:273-303 | a written header parses back exactly when its tail has the form its async flag announces |
| Header.EncodeParse | src/proto/header.rs:218-270 | what was parsed writes back to the same 64 bytes |
| Header.HeaderLayout | src/proto/header.rs:273-303 | where each header field stands, by byte |
| DirectoryListing.EnumerationConserves | src/handlers/query_directory.rs:51-131 | over any sequence of calls, in any mix of classes, sizes and single-entry flags, the names a client walks out of the replies are exactly the entries between the cursor's places: in order, none lost, none repeated |
| DirectoryListing.EnumerationCompletes | src/handlers/query_directory.rs:72-131 | no-more-files is answered only once everything was sent, and enough calls always get there |
| DirectoryListing.ResponseFacts | src/handlers/query_directory.rs:80-131 | each call makes progress, is empty exactly at the end, overruns the client's buffer only with a single entry, and stops early only for want of room |
| DirectoryListing.PackedNamesRead | src/info_class.rs:338-416 | following NextEntryOffset through a packed buffer reads exactly the packed names |
| DirectoryListing.Pack | src/handlers/query_directory.rs:80-127 | the loop with its back-patching packs exactly the entries up to the stopping place |
| DirectoryListing.OpenDirectory.Handle | src/handlers/query_directory.rs:24-131 | in place: the refusals, the refreshed and filtered cursor, its advance; a refused request leaves the cursor alone |
| DirectoryListing.RefreshMeans | src/handlers/query_directory.rs:49-76 | a first or restarting query serves from the start of exactly the listed entries it is after, in the listed order, each as often as listed (where pattern and name both have a star, from some of them); any other query serves from the cursor there is |
| DirectoryListing.FreshCursorHolds | src/handlers/query_directory.rs:62-69 | the same of the filter alone, for every pattern and listing |
| DirectoryListing.EntryLayout | src/info_class.rs:338-412 | where the name and its length stand in an entry of each class but the names-only one, and that its fields are the entry's |
| DirectoryListing.NamesLayout | src/info_class.rs:388-394 | the same for the names-only class |
| CreateContexts.RoundTrip | src/proto/messages/create.rs:180-291 | parsing an encoded chain returns the list, for every list whose lengths and sizes fit their fields |
| CreateContextLimits.ExactByLengths | src/proto/messages/create.rs:180-291 | the lists of name and data lengths for which every list with those lengths comes back are exactly those whose lengths, data offsets and strides fit their fields |
| CreateContexts.EntriesAligned | src/proto/messages/create.rs:227-291 | every entry starts eight-aligned |
| CreateContexts.EntryLayout | src/proto/messages/create.rs:227-291 | where each field, the name and the data of an entry stand |
| CreateContexts.EncodeChain | src/proto/messages/create.rs:227-291 | the loop with back-patched Next offsets writes the specified chain |
| CreateContexts.ParseChain | src/proto/messages/create.rs:180-224 | the loop reads what the recursive reader reads, errors included |
| NegotiateContexts.RoundTripIffHonest | src/proto/messages/negotiate.rs:172-211 | parsing an encoded list, with any bytes after it, returns the list exactly when every declared length is the real one |
| NegotiateContexts.RecordAligned | src/proto/messages/negotiate.rs:199-211 | every record stands whole at its own start, which is a multiple of eight from the start of the list |
| NegotiateContexts.RecordLayout | src/proto/messages/negotiate.rs:199-211 | where each field of a record stands |
| NegotiateContexts.EncodeList | src/proto/messages/negotiate.rs:199-211 | the loop writes the specified layout |
| NegotiateContexts.ParseList | src/proto/messages/negotiate.rs:172-196 | the re-slicing loop reads what the recursive reader reads |
| Spnego.RespRoundTripIff | src/proto/auth/spnego.rs:257-367 | for every state and every combination of optional parts, decoding the encoded token returns them if and only if its content's length fits 32 bits |
| Spnego.InitRoundTripIff | src/proto/auth/spnego.rs:196-325 | the same for the GSS-wrapped init token, so also for the blob the server publishes |
| Spnego.ReadLenInvertsIff | src/proto/auth/spnego.rs:86-129 | a written length reads back exactly when it fits 32 bits |
| Spnego.ReadLength | src/proto/auth/spnego.rs:107-129 | the accumulator loop reads the big-endian value of its digits, with the same errors |
| Spnego.EncodeInitResponse | src/proto/auth/spnego.rs:296-325 | the appending encoder writes the init token that advertises NTLMSSP and nothing else |
| Spnego.PublishedBytes | src/proto/auth/spnego.rs:296-325 | the token the server publishes, byte by byte |
| Spnego.CompletedBytes | src/proto/auth/spnego.rs:329-367 | the token that completes an exchange, byte by byte |
| Spnego.IncompleteBytes | src/proto/auth/spnego.rs:329-367 | a token with all four parts, byte by byte |
| Spnego.DerLenIsMinimal | src/proto/auth/spnego.rs:86-105 | no shorter length encoding of the same number exists |
| Spnego.ReadAnyInvertsIff | src/proto/auth/spnego.rs:148-167 | a written element reads back, in any surroundings, exactly when its length fits 32 bits |
| Spnego.DecodeRespToken | src/proto/auth/spnego.rs:257-291 | the loop over fields reads what the recursive reader reads |
| Spnego.EncodeRespToken | src/proto/auth/spnego.rs:329-367 | the appending encoder writes the specified nesting |
| Paths.ParseGivesNormalForm | src/path.rs:53-131 | every accepted path is in normal form |
| PathGrammar.ParseMeans | src/path.rs:53-131 | exactly which paths are accepted and as what: every name harmless, none empty, `..` or reserved, a stream selector that is absent or of the data type, dots dropped; all else is refused |
| PathGrammar.EveryText | src/path.rs:78-92 | every text, its slashes turned to one side, is the text of some names and a selector, so the statement above is about every path |
| PathGrammar.LeadingSeparator | src/path.rs:53-61 | one leading separator makes no difference |
| PathGrammar.ReservedIff | src/path.rs:222-243 | reserved are exactly the device names in any case, alone or with an extension |
| Paths.AcceptedIsHarmless | src/path.rs:63-131 | no component of an accepted path and no stream holds a slash of either kind, a colon, or a forbidden character |
| Paths.SlashesAreAlike | src/path.rs:78-92 | turning forward slashes around never changes what a path parses to |
| Paths.DevicesAreRefused | src/path.rs:222-243 | no accepted path has a device name among its components |
| Paths.JoinAndParentKeepNormalForm | src/path.rs:144-171 | joining and taking the parent keep the normal form |
| Paths.RenderParses | src/path.rs:173-176 | the backslash rendering of a normal path parses to the same components and no stream |
| Paths.ParentJoinFileName | src/path.rs:144-171 | the parent joined with the file name is the path again, without its stream |
| Paths.ParseComponents | src/path.rs:53-131 | the loop computes the specified parse, errors included |
| Sharing.NamesFoldCase | src/server.rs:114-120 | names are one exactly when they agree letter by letter up to ASCII case |
| Utf16.EncodesOne | src/utils.rs:24-33 | a character of the basic plane is its two bytes, low first; one beyond it is its surrogate pair |

## Left out

- Sockets, tasks, the writer channel, tracing sinks and shutdown: I/O.
- The file system backend and its handles' reads and writes: a backend is a source of handles whose answers are inputs.
- NEGOTIATE's choice of the highest common dialect and its response body: what it agrees on is an input.
- Cryptography and the NTLM messages: the MAC, hash and key derivations are arbitrary functions, and what a token proves is an input.
- The SMB1 bootstrap: it answers one frame and touches none of the modelled state.
- Other request and response bodies, FLUSH, LOCK, IOCTL, CHANGE_NOTIFY, QUERY_INFO, SET_INFO, ECHO, oplock breaks: fixed layouts or refusals that touch neither tables nor cursors. SET_INFO's and CLOSE's unlink and rename reach the backend only.
- Interleaving finer than one handler for trees: TREE_CONNECT authorises before it inserts, so its tree can outlive a revocation that runs in between; revocation safety is stated for atomic handlers.
- Aliasing of sessions, trees and opens: the source shares them behind locks; the in-place classes keep them as values in the connection's map, which captures the updates and not the sharing.
- Connection ids are counted without wrap-around, and connections dropped from the registry because nothing holds them any more are `Hangup` steps.
- The counts returned by the close-matching functions, which no caller reads.
- Configuration.ServerState.Handle: routes the commands that touch sessions, trees, opens or handles; the others leave these tables alone and are not routed.
- SessionSetup.Connection.Dispatch: what the handlers of commands other than NEGOTIATE, SESSION_SETUP and LOGOFF answer is an input.
- Servers.Serve: the UNC path is given as its last component, and CREATE's name, disposition and options as the facts its checks use.
- ConfigInterleaving.AloneIsAtomic: the teardown of connections, which comes after a call's last critical section here, is not part of the system.
- Dispatch.DispatchFrame: command handlers are one arbitrary function from state and sub-frame to state and answer.
- Stitching.SegmentAuthentic: says nothing of responses whose session is gone when the frame is stitched, because the code then skips the new signature.
- SessionSetup.SnapshotIsOwnTranscript: the responses hashed are those of the dispatcher before stitching (Transcripts.HashedIsSentIffLast says when they are the ones sent); the opening must name no exchange under way.
- CreateContexts.RoundTrip: one direction, because contents can make a wrapped field harmless; by lengths alone the exact condition is CreateContextLimits.ExactByLengths.
- DirectoryListing.OpenDirectory.Handle: looking up the session, tree and open, and the wire form of the request, are not part of it; an entry encoder's unknown class, which the handler refused earlier, is not modelled.
- Paths.ParseComponents: starts from decoded characters; rejecting unpaired surrogates is not modelled.
- Overflow of `usize` sums in the codecs, which lengths below 2^64 exclude.
