/** Concrete runs behind the conditions of the general results. */
module Witnesses {
  import opened Bytes
  import opened Sharing
  import opened Tallies
  import opened Sessions
  import opened Servers
  import opened Numbering

  const PUB := ShareDecl("pub", false, Acl(Public, map[]))
  const PUB_SHARE := Share(0, "pub", false, false)

  function PubPolicy(): Policy {
    Initial({}, [PUB]).policy
  }

  lemma PubIsFound()
    ensures Lookup(PubPolicy(), "pub") == Some((PUB_SHARE, Acl(Public, map[])))
    ensures AnonymousAllowed(PubPolicy())
  {
    hide Lower;
    var p, p0 := PubPolicy(), Policy({}, map[], map[], 0);
    assert [PUB][..0] == [] && RegisterAll(p0, []) == p0;
    assert p == Register(p0, PUB);
    var key := Lower("pub");
    assert key in p.byName && p.byName[key] == PUB_SHARE;
    assert AclOf(p, p.byName[key]) == Acl(Public, map[]);
    NotIpc();
  }

  lemma NotIpc()
    ensures Lower("pub") != Lower(IPC)
  {
    assert |Lower("pub")| == 3 && |Lower(IPC)| == 4;
  }

  /** One step more of a run without hangups or wraps. */
  lemma More(s: Server, ops: seq<Op>, op: Op, z: Server)
    requires NeverWraps(s, ops) && HangsUpIdle(s, ops) && !op.Hangup?
    requires Step(Run(s, ops), op) == z && AllUnwrapped(z)
    ensures Run(s, ops + [op]) == z && NeverWraps(s, ops + [op]) && HangsUpIdle(s, ops + [op])
  {
    hide Step, AllUnwrapped;
    assert (ops + [op])[..|ops|] == ops;
  }

  ghost function At(c: Conn, l: Ledger): Server {
    Server(PubPolicy(), map[0 := c], 1, l)
  }

  const OPENING := OpenRequest(true, Some(OpenExisting), false, false, false, false)
  const OPEN := Open(Some(0), Read, false)

  const NEGOTIATED := Conn(true, 1, {}, map[])
  const PENDING := Conn(true, 2, {1}, map[])
  const LOGGED_ON := Conn(true, 2, {}, map[1 := Session(Anonymous, 1, map[])])
  const TREE := Tree(PUB_SHARE, ReadWrite, 1, map[])
  const CONNECTED := Conn(true, 2, {}, map[1 := Session(Anonymous, 2, map[1 := TREE])])
  const USED_TREE := TREE.(nextVolatile := 2, opens := map[FileId(1, 1) := OPEN])
  const OPENED := Conn(true, 2, {}, map[1 := Session(Anonymous, 2, map[1 := USED_TREE])])

  /** An anonymous client connects to a public share and opens a file. */
  const OPENS: seq<Op> := [Accept] + [Message(0, Negotiate)] + [Message(0, SetupOpening(true))]
    + [Message(0, SetupReply(1, Nobody))] + [Message(0, TreeConnect(1, Some("pub")))]
    + [Message(0, Create(1, Some(1), OPENING, Opened))]

  lemma Serves(c: Conn, l: Ledger, r: Request, d: Conn, m: Ledger)
    requires var moved := Serve(PubPolicy(), c, l, r); moved.conn == d && moved.ledger == m
    ensures Step(At(c, l), Message(0, r)) == At(d, m)
  {
    hide Serve, PubPolicy;
    assert map[0 := c][0 := d] == map[0 := d];
  }

  lemma SetupSteps(l: Ledger)
    ensures Step(At(FRESH_CONN, l), Message(0, Negotiate)) == At(NEGOTIATED, l)
    ensures Step(At(NEGOTIATED, l), Message(0, SetupOpening(true))) == At(PENDING, l)
    ensures Step(At(PENDING, l), Message(0, SetupReply(1, Nobody))) == At(LOGGED_ON, l)
  {
    hide Lookup, AnonymousAllowed, PubPolicy, Tally, Step, At;
    PubIsFound();
    Nothing(l.dropped);
    Serves(FRESH_CONN, l, Negotiate, NEGOTIATED, l);
    assert NEGOTIATED.pending + {1} == {1};
    Serves(NEGOTIATED, l, SetupOpening(true), PENDING, l);
    assert PENDING.pending - {1} == {};
    Serves(PENDING, l, SetupReply(1, Nobody), LOGGED_ON, l);
  }

  lemma ConnectStep(l: Ledger)
    ensures Step(At(LOGGED_ON, l), Message(0, TreeConnect(1, Some("pub")))) == At(CONNECTED, l)
  {
    hide Lookup, PubPolicy, Tally, Step, At;
    PubIsFound();
    Nothing(l.dropped);
    var m := Serve(PubPolicy(), LOGGED_ON, l, TreeConnect(1, Some("pub")));
    assert m.conn.sessions[1].trees == map[1 := TREE];
    assert m.conn.sessions == CONNECTED.sessions;
    Serves(LOGGED_ON, l, TreeConnect(1, Some("pub")), CONNECTED, l);
  }

  lemma CreateStep(l: Ledger)
    requires l.issued == 0
    ensures Step(At(CONNECTED, l), Message(0, Create(1, Some(1), OPENING, Opened))) == At(OPENED, l.(issued := 1))
  {
    hide Lookup, PubPolicy, Tally, Step, At;
    Nothing(l.dropped);
    var m := Serve(PubPolicy(), CONNECTED, l, Create(1, Some(1), OPENING, Opened));
    assert m.conn.sessions[1].trees[1].opens == map[FileId(1, 1) := OPEN];
    assert m.conn.sessions[1].trees == OPENED.sessions[1].trees;
    assert m.conn.sessions == OPENED.sessions;
    Serves(CONNECTED, l, Create(1, Some(1), OPENING, Opened), OPENED, l.(issued := 1));
  }

  lemma LogsOn()
    ensures var s := Initial({}, [PUB]);
            && Run(s, OPENS[..4]) == At(LOGGED_ON, NO_LEDGER)
            && NeverWraps(s, OPENS[..4]) && HangsUpIdle(s, OPENS[..4])
  {
    hide Step, PubPolicy, Run, NeverWraps, HangsUpIdle, At;
    var s := Initial({}, [PUB]);
    Begins();
    SetupSteps(NO_LEDGER);
    Small();
    More(s, [], Accept, At(FRESH_CONN, NO_LEDGER));
    assert [] + [Accept] == [Accept];
    More(s, [Accept], Message(0, Negotiate), At(NEGOTIATED, NO_LEDGER));
    var ops := [Accept] + [Message(0, Negotiate)];
    More(s, ops, Message(0, SetupOpening(true)), At(PENDING, NO_LEDGER));
    ops := ops + [Message(0, SetupOpening(true))];
    More(s, ops, Message(0, SetupReply(1, Nobody)), At(LOGGED_ON, NO_LEDGER));
    assert OPENS[..4] == ops + [Message(0, SetupReply(1, Nobody))];
  }

  lemma OpensAFile()
    ensures var s := Initial({}, [PUB]);
            && Run(s, OPENS) == At(OPENED, NO_LEDGER.(issued := 1))
            && NeverWraps(s, OPENS) && HangsUpIdle(s, OPENS)
  {
    hide Step, PubPolicy, Run, NeverWraps, HangsUpIdle, At;
    var s := Initial({}, [PUB]);
    LogsOn();
    Small();
    ConnectStep(NO_LEDGER);
    CreateStep(NO_LEDGER);
    var ops := OPENS[..4];
    More(s, ops, Message(0, TreeConnect(1, Some("pub"))), At(CONNECTED, NO_LEDGER));
    ops := ops + [Message(0, TreeConnect(1, Some("pub")))];
    More(s, ops, Message(0, Create(1, Some(1), OPENING, Opened)), At(OPENED, NO_LEDGER.(issued := 1)));
    assert OPENS == ops + [Message(0, Create(1, Some(1), OPENING, Opened))];
  }

  lemma Small()
    ensures forall l :: AllUnwrapped(At(FRESH_CONN, l)) && AllUnwrapped(At(NEGOTIATED, l))
    ensures forall l :: AllUnwrapped(At(PENDING, l))
    ensures forall l :: AllUnwrapped(At(LOGGED_ON, l)) && AllUnwrapped(At(CONNECTED, l)) && AllUnwrapped(At(OPENED, l))
  {
    hide PubPolicy;
  }

  lemma Begins()
    ensures var s := Initial({}, [PUB]);
            && Run(s, []) == s && NeverWraps(s, []) && HangsUpIdle(s, [])
            && Step(s, Accept) == At(FRESH_CONN, NO_LEDGER)
  {
    hide RegisterAll;
  }

  /** The client goes away with its file open: the handle was given out, and is neither owned nor closed. */
  lemma HangupLosesAHandle()
    ensures var z := Run(Initial({}, [PUB]), OPENS + [Hangup(0)]);
            && NeverWraps(Initial({}, [PUB]), OPENS + [Hangup(0)])
            && z.ledger.issued == 1 && z.ledger.dropped[0] == 1 && z.ledger.closed[0] == 0
            && ServerHandles(z.conns)[0] == 0
  {
    hide Run, PubPolicy, NeverWraps, HangsUpIdle, OPENS, Tally;
    OpensAFile();
    var s := Initial({}, [PUB]);
    OneHandle();
    var y := At(OPENED, NO_LEDGER.(issued := 1));
    var z := Step(y, Hangup(0));
    assert z.conns == map[];
    TallyNone(z.conns, Sessions.ConnHandles);
    HangsUp(s, OPENS);
  }

  lemma HangsUp(s: Server, ops: seq<Op>)
    requires NeverWraps(s, ops) && AllUnwrapped(Step(Run(s, ops), Hangup(0)))
    ensures Run(s, ops + [Hangup(0)]) == Step(Run(s, ops), Hangup(0)) && NeverWraps(s, ops + [Hangup(0)])
  {
    hide Step, AllUnwrapped;
    assert (ops + [Hangup(0)])[..|ops|] == ops;
  }

  lemma OneHandle()
    ensures ConnHandles(OPENED) == multiset{0}
  {
    hide Tally;
    var s := OPENED.sessions[1];
    var t := s.trees[1];
    TallyAt(t.opens, OpenHandles, FileId(1, 1));
    TallyNone(t.opens - {FileId(1, 1)}, OpenHandles);
    TallyAt(s.trees, TreeHandles, 1);
    TallyNone(s.trees - {1}, TreeHandles);
    TallyAt(OPENED.sessions, SessionHandles, 1);
    TallyNone(OPENED.sessions - {1}, SessionHandles);
  }

  // ---- a wrapped counter loses a handle too ----

  const CONNECT := Message(0, TreeConnect(1, Some("pub")))

  function Connects(n: nat): seq<Op> {
    if n == 0 then [] else Connects(n - 1) + [CONNECT]
  }

  /** The client has its file open in tree 1 and has connected `n` times more. */
  ghost predicate Filled(s: Server, n: nat) {
    exists trees: map<u32, Tree> ::
      && 1 in trees && trees[1] == USED_TREE
      && (forall tid :: tid in trees && tid != 1 ==> trees[tid].opens == map[])
      && s == At(Conn(true, 2, {}, map[1 := Session(Anonymous, 2 + n, trees)]), NO_LEDGER.(issued := 1))
  }

  /** One connect more: the new tree takes the counter's id, and what it overwrites is lost. */
  lemma ConnectAgain(n: nat, trees: map<u32, Tree>, l: Ledger)
    ensures var c := Conn(true, 2, {}, map[1 := Session(Anonymous, 2 + n, trees)]);
            var tid: u32 := (2 + n) % U32;
            Step(At(c, l), CONNECT)
            == At(Conn(true, 2, {}, map[1 := Session(Anonymous, 3 + n, trees[tid := TREE])]),
                  Dropping(l, Worth(trees, TreeHandles, tid)))
  {
    hide Lookup, PubPolicy, Tally, Step, At, TreeHandles;
    PubIsFound();
    var c := Conn(true, 2, {}, map[1 := Session(Anonymous, 2 + n, trees)]);
    var tid: u32 := (2 + n) % U32;
    var d := Conn(true, 2, {}, map[1 := Session(Anonymous, 3 + n, trees[tid := TREE])]);
    var m := Serve(PubPolicy(), c, l, TreeConnect(1, Some("pub")));
    assert m.conn.sessions == d.sessions;
    Serves(c, l, TreeConnect(1, Some("pub")), d, Dropping(l, Worth(trees, TreeHandles, tid)));
  }

  lemma EmptyTree(t: Tree)
    requires t.opens == map[]
    ensures TreeHandles(t) == multiset{}
  {
  }

  lemma FilledMore(s: Server, n: nat)
    requires Filled(s, n) && n + 1 < U32
    ensures Filled(Step(s, CONNECT), n + 1)
  {
    hide At, Step, Tally, TreeHandles;
    var trees: map<u32, Tree> :|
      && 1 in trees && trees[1] == USED_TREE
      && (forall tid :: tid in trees && tid != 1 ==> trees[tid].opens == map[])
      && s == At(Conn(true, 2, {}, map[1 := Session(Anonymous, 2 + n, trees)]), NO_LEDGER.(issued := 1));
    var l := NO_LEDGER.(issued := 1);
    var tid: u32 := (2 + n) % U32;
    assert tid != 1;
    ConnectAgain(n, trees, l);
    if tid in trees {
      EmptyTree(trees[tid]);
    }
    Nothing(l.dropped);
    var more := trees[tid := TREE];
    assert 1 in more && more[1] == USED_TREE;
  }

  lemma {:induction false} FilledUp(s: Server, ops: seq<Op>, n: nat)
    requires Filled(Run(s, ops), 0) && n < U32
    ensures Filled(Run(s, ops + Connects(n)), n)
  {
    hide Filled, Step, Run, Connects;
    MoreConnects(ops, n);
    if n > 0 {
      FilledUp(s, ops, n - 1);
      FilledMore(Run(s, ops + Connects(n - 1)), n - 1);
      RunSnoc(s, ops + Connects(n - 1), CONNECT);
    }
  }

  lemma RunSnoc(s: Server, ops: seq<Op>, op: Op)
    ensures Run(s, ops + [op]) == Step(Run(s, ops), op)
  {
    hide Step;
    assert (ops + [op])[..|ops|] == ops;
  }

  /** After 2^32 connects in one session the tree counter is back at 1: the last one overwrites the tree whose
      file is open, and the handle is lost although the client is still there. */
  lemma WrapLosesAHandle()
    ensures var z := Run(Initial({}, [PUB]), OPENS + Connects(U32));
            0 in z.conns && z.ledger.issued == 1 && z.ledger.dropped[0] == 1 && z.ledger.closed[0] == 0
  {
    hide Run, PubPolicy, OPENS, Connects, Step, NeverWraps, HangsUpIdle, Filled;
    var s := Initial({}, [PUB]);
    OpensAFile();
    FilledFirst();
    FilledUp(s, OPENS, U32 - 1);
    MoreConnects(OPENS, U32);
    RunSnoc(s, OPENS + Connects(U32 - 1), CONNECT);
    LastConnect(Run(s, OPENS + Connects(U32 - 1)));
  }

  lemma LastConnect(s: Server)
    requires Filled(s, U32 - 1)
    ensures var z := Step(s, CONNECT);
            0 in z.conns && z.ledger.issued == 1 && z.ledger.dropped[0] == 1 && z.ledger.closed[0] == 0
  {
    hide Step, PubPolicy, Tally, TreeHandles;
    var l := NO_LEDGER.(issued := 1);
    var trees: map<u32, Tree> :|
      && 1 in trees && trees[1] == USED_TREE
      && s == At(Conn(true, 2, {}, map[1 := Session(Anonymous, 2 + (U32 - 1), trees)]), l);
    ConnectAgain(U32 - 1, trees, l);
    OneTreeHandle();
  }

  lemma MoreConnects(ops: seq<Op>, n: nat)
    ensures ops + Connects(0) == ops
    ensures n > 0 ==> ops + Connects(n) == ops + Connects(n - 1) + [CONNECT]
  {
    if n > 0 {
      assert ops + (Connects(n - 1) + [CONNECT]) == ops + Connects(n - 1) + [CONNECT];
    }
  }

  lemma FilledFirst()
    ensures Filled(At(OPENED, NO_LEDGER.(issued := 1)), 0)
  {
    hide At;
    var trees: map<u32, Tree> := map[1 := USED_TREE];
    assert 1 in trees && trees[1] == USED_TREE;
    assert OPENED == Conn(true, 2, {}, map[1 := Session(Anonymous, 2 + 0, trees)]);
  }

  lemma OneTreeHandle()
    ensures TreeHandles(USED_TREE) == multiset{0}
  {
    hide Tally;
    TallyAt(USED_TREE.opens, OpenHandles, FileId(1, 1));
    TallyNone(USED_TREE.opens - {FileId(1, 1)}, OpenHandles);
  }
}
