/** The directory wildcard matcher: a greedy loop that remembers one star, against the declarative
    meaning of a pattern. */
module Wildcard {
  import Sharing

  /** The equality the loop uses for literal characters. */
  predicate EqIgnoreCase(a: char, b: char) {
    Sharing.LowerChar(a) == Sharing.LowerChar(b)
  }

  /** A non-star pattern character against a name character. */
  predicate MatchesOne(p: char, c: char) {
    p == '?' || EqIgnoreCase(p, c)
  }

  /** Up to case means: the same, or the same ASCII letter in upper and lower case. */
  lemma MatchesOneMeans(p: char, c: char)
    ensures MatchesOne(p, c) <==> p == '?' || Sharing.SameLetter(p, c)
  {
    Sharing.FoldsCase(p, c);
  }

  /** The meaning of a pattern: `*` stands for any run of characters, `?` for any one, every other
      character for itself up to ASCII case. */
  ghost predicate Matches(p: string, n: string) {
    if p == "" then n == ""
    else if p[0] == '*' then exists k :: 0 <= k <= |n| && Matches(p[1..], n[k..])
    else n != "" && MatchesOne(p[0], n[0]) && Matches(p[1..], n[1..])
  }

  datatype Star = NoStar | StarAt(after: nat, anchor: nat)

  /** The loop's state: next pattern character, next name character, last star seen. */
  datatype Scan = Scan(pi: nat, ni: nat, star: Star)

  ghost predicate InRange(p: string, n: string, s: Scan) {
    && s.pi <= |p| && s.ni <= |n|
    && (s.star.StarAt? ==>
          && 1 <= s.star.after <= s.pi && s.star.anchor <= s.ni
          && s.pi - s.star.after == s.ni - s.star.anchor)
  }

  function Anchor(s: Scan): nat {
    if s.star.StarAt? then s.star.anchor else 0
  }

  datatype Next = Go(s: Scan) | Fail

  /** One turn of the loop, branches in the loop's order. */
  function Step(p: string, n: string, s: Scan): (r: Next)
    requires s.ni < |n|
  {
    if s.pi < |p| && MatchesOne(p[s.pi], n[s.ni]) then Go(Scan(s.pi + 1, s.ni + 1, s.star))
    else if s.pi < |p| && p[s.pi] == '*' then Go(Scan(s.pi + 1, s.ni, StarAt(s.pi + 1, s.ni)))
    else if s.star.StarAt? then
      Go(Scan(s.star.after, s.star.anchor + 1, StarAt(s.star.after, s.star.anchor + 1)))
    else Fail
  }

  ghost predicate AllStars(p: string) {
    forall i :: 0 <= i < |p| ==> p[i] == '*'
  }

  /** What the loop answers from a given state. */
  ghost predicate Run(p: string, n: string, s: Scan)
    requires InRange(p, n, s)
    decreases |n| - Anchor(s), |p| - s.pi
  {
    if s.ni == |n| then AllStars(p[s.pi..])
    else match Step(p, n, s)
      case Fail => false
      case Go(t) => Run(p, n, t)
  }

  ghost predicate LoopAccepts(p: string, n: string) {
    Run(p, n, Scan(0, 0, NoStar))
  }

  /** Turns left at most: every turn lowers it. */
  ghost function Budget(p: string, n: string, s: Scan): int
    requires InRange(p, n, s)
  {
    (|n| - Anchor(s)) * (|p| + 1) + |p| - s.pi
  }

  lemma {:induction false} Times(b: nat, a: nat, w: nat)
    requires b <= a
    ensures 0 <= b * w <= a * w && (b < a ==> b * w + w <= a * w)
  {
    if b < a {
      Times(b, a - 1, w);
      assert a * w == (a - 1) * w + w;
    }
  }

  lemma BudgetFalls(p: string, n: string, s: Scan)
    requires InRange(p, n, s) && s.ni < |n| && Step(p, n, s).Go?
    ensures InRange(p, n, Step(p, n, s).s)
    ensures 0 <= Budget(p, n, Step(p, n, s).s) < Budget(p, n, s)
  {
    var t := Step(p, n, s).s;
    Times(|n| - Anchor(t), |n| - Anchor(s), |p| + 1);
  }

  lemma FirstBudget(p: string, n: string)
    ensures 0 <= Budget(p, n, Scan(0, 0, NoStar)) < (|p| + 1) * (|n| + 1)
  {
    assert |n| * (|p| + 1) + (|p| + 1) == (|n| + 1) * (|p| + 1);
  }

  /** The loop as the program runs it: same answer as `Run`, and fewer than
      (|pattern| + 1) * (|name| + 1) turns. */
  method DosPatternMatchesInner(p: string, n: string) returns (accepted: bool, turns: nat)
    ensures accepted <==> LoopAccepts(p, n)
    ensures turns < (|p| + 1) * (|n| + 1)
  {
    var pi: nat, ni: nat, star := 0, 0, NoStar;
    turns := 0;
    FirstBudget(p, n);
    ghost var limit := Budget(p, n, Scan(0, 0, NoStar));
    hide Budget;
    while ni < |n|
      invariant InRange(p, n, Scan(pi, ni, star))
      invariant Run(p, n, Scan(pi, ni, star)) == LoopAccepts(p, n)
      invariant turns + Budget(p, n, Scan(pi, ni, star)) <= limit
      invariant Budget(p, n, Scan(pi, ni, star)) >= 0
      decreases Budget(p, n, Scan(pi, ni, star))
    {
      ghost var s := Scan(pi, ni, star);
      if Step(p, n, s).Go? {
        BudgetFalls(p, n, s);
      }
      if pi < |p| && (p[pi] == '?' || EqIgnoreCase(p[pi], n[ni])) {
        pi, ni := pi + 1, ni + 1;
      } else if pi < |p| && p[pi] == '*' {
        star := StarAt(pi + 1, ni);
        pi := pi + 1;
      } else if star.StarAt? {
        pi, ni, star := star.after, star.anchor + 1, StarAt(star.after, star.anchor + 1);
      } else {
        return false, turns;
      }
      turns := turns + 1;
    }
    ghost var rest := p[pi..];
    while pi < |p| && p[pi] == '*'
      invariant |p| - |rest| <= pi <= |p| && rest == p[|p| - |rest|..]
      invariant AllStars(rest) == AllStars(p[pi..])
      decreases |p| - pi
    {
      assert p[pi..] == [p[pi]] + p[pi + 1..];
      pi := pi + 1;
    }
    if pi < |p| {
      assert p[pi..][0] != '*';
    }
    accepted := pi == |p|;
  }

  // ---- soundness: an accepted name matches ----

  /** What a state still promises: finishing from here, or from any later retry of its star, finishes
      the whole match. */
  ghost predicate Leads(p: string, n: string, s: Scan)
    requires InRange(p, n, s)
  {
    && (Matches(p[s.pi..], n[s.ni..]) ==> Matches(p, n))
    && (s.star.StarAt? ==>
          forall j :: s.star.anchor <= j <= |n| && Matches(p[s.star.after..], n[j..]) ==> Matches(p, n))
  }

  lemma StarAbsorbs(p: string, n: string, pi: nat, i: nat, j: nat)
    requires pi < |p| && p[pi] == '*' && i <= j <= |n|
    requires Matches(p[pi + 1..], n[j..])
    ensures Matches(p[pi..], n[i..])
  {
    assert p[pi..][1..] == p[pi + 1..];
    assert n[i..][j - i..] == n[j..];
  }

  lemma LeadsStep(p: string, n: string, s: Scan)
    requires InRange(p, n, s) && s.ni < |n| && Step(p, n, s).Go? && Leads(p, n, s)
    ensures InRange(p, n, Step(p, n, s).s) && Leads(p, n, Step(p, n, s).s)
  {
    var t := Step(p, n, s).s;
    if s.pi < |p| && MatchesOne(p[s.pi], n[s.ni]) {
      if Matches(p[t.pi..], n[t.ni..]) {
        if p[s.pi] == '*' {
          StarAbsorbs(p, n, s.pi, s.ni, t.ni);
        } else {
          assert p[s.pi..][1..] == p[t.pi..] && n[s.ni..][1..] == n[t.ni..];
        }
      }
    } else if s.pi < |p| && p[s.pi] == '*' {
      forall j | s.ni <= j <= |n| && Matches(p[t.pi..], n[j..])
        ensures Matches(p, n)
      {
        StarAbsorbs(p, n, s.pi, s.ni, j);
      }
    }
  }

  lemma {:induction false} RunSound(p: string, n: string, s: Scan)
    requires InRange(p, n, s) && Leads(p, n, s) && Run(p, n, s)
    ensures Matches(p, n)
    decreases |n| - Anchor(s), |p| - s.pi
  {
    if s.ni == |n| {
      StarsMatchEmpty(p[s.pi..]);
    } else {
      LeadsStep(p, n, s);
      RunSound(p, n, Step(p, n, s).s);
    }
  }

  lemma {:induction false} StarsMatchEmpty(p: string)
    ensures Matches(p, "") <==> AllStars(p)
  {
    if p != "" {
      StarsMatchEmpty(p[1..]);
      assert ""[0..] == "";
      if AllStars(p[1..]) && p[0] == '*' {
        assert forall i :: 0 < i < |p| ==> p[i] == p[1..][i - 1];
      }
    }
  }

  /** Whatever the loop accepts, the pattern means. */
  lemma AcceptedNamesMatch(p: string, n: string)
    requires LoopAccepts(p, n)
    ensures Matches(p, n)
  {
    assert p[0..] == p && n[0..] == n;
    RunSound(p, n, Scan(0, 0, NoStar));
  }

  // ---- completeness on names without a star ----

  /** Every match of the whole is still reachable: from here when no star was seen, from some retry of
      the last star otherwise; the text between the star and here is a literal run that fits. */
  ghost predicate Covers(p: string, n: string, s: Scan)
    requires InRange(p, n, s)
  {
    if s.star.NoStar? then Matches(p[s.pi..], n[s.ni..])
    else
      && (forall i :: s.star.after <= i < s.pi ==>
            p[i] != '*' && MatchesOne(p[i], n[s.star.anchor + (i - s.star.after)]))
      && exists j :: s.star.anchor <= j <= |n| && Matches(p[s.star.after..], n[j..])
  }

  /** A run of `m` literals consumes exactly `m` characters. */
  lemma {:induction false} LiteralRun(p: string, n: string, m: nat)
    requires m <= |p| && forall i :: 0 <= i < m ==> p[i] != '*'
    requires Matches(p, n)
    ensures m <= |n| && Matches(p[m..], n[m..])
    ensures forall i :: 0 <= i < m ==> MatchesOne(p[i], n[i])
  {
    if m == 0 {
      assert p[0..] == p && n[0..] == n;
    } else {
      LiteralRun(p[1..], n[1..], m - 1);
      assert p[1..][m - 1..] == p[m..] && n[1..][m - 1..] == n[m..];
      forall i | 0 <= i < m
        ensures MatchesOne(p[i], n[i])
      {
        if i > 0 {
          assert p[i] == p[1..][i - 1] && n[i] == n[1..][i - 1];
        }
      }
    }
  }

  /** A match from retry `j` carries on after the literal run that ends at `s`. */
  lemma RetryContinues(p: string, n: string, s: Scan, j: nat)
    requires InRange(p, n, s) && s.star.StarAt? && Covers(p, n, s)
    requires s.star.anchor <= j <= |n| && Matches(p[s.star.after..], n[j..])
    ensures var m := s.pi - s.star.after;
            j + m <= |n| && Matches(p[s.pi..], n[j + m..])
  {
    hide Matches;
    var m := s.pi - s.star.after;
    LiteralRun(p[s.star.after..], n[j..], m);
    assert p[s.star.after..][m..] == p[s.pi..] && n[j..][m..] == n[j + m..];
  }

  lemma CoversLiteral(p: string, n: string, s: Scan)
    requires InRange(p, n, s) && s.ni < |n| && Covers(p, n, s)
    requires s.pi < |p| && p[s.pi] != '*' && MatchesOne(p[s.pi], n[s.ni])
    ensures InRange(p, n, Step(p, n, s).s) && Covers(p, n, Step(p, n, s).s)
  {
    if s.star.NoStar? {
      assert p[s.pi..][1..] == p[s.pi + 1..] && n[s.ni..][1..] == n[s.ni + 1..];
    }
  }

  /** A new star forgets the old one: wherever the old star's retry ends, the new star absorbs. */
  lemma CoversStar(p: string, n: string, s: Scan, j: nat)
    requires InRange(p, n, s) && s.ni < |n|
    requires s.pi < |p| && p[s.pi] == '*' && !MatchesOne(p[s.pi], n[s.ni])
    requires s.ni <= j <= |n| && Matches(p[s.pi..], n[j..])
    ensures InRange(p, n, Step(p, n, s).s) && Covers(p, n, Step(p, n, s).s)
  {
    assert p[s.pi..][1..] == p[s.pi + 1..];
    var k :| 0 <= k <= |n[j..]| && Matches(p[s.pi..][1..], n[j..][k..]);
    assert n[j..][k..] == n[j + k..];
  }

  lemma CoversRetry(p: string, n: string, s: Scan)
    requires InRange(p, n, s) && s.ni < |n| && Covers(p, n, s) && s.star.StarAt?
    requires s.pi < |p| ==> p[s.pi] != '*' && !MatchesOne(p[s.pi], n[s.ni])
    ensures InRange(p, n, Step(p, n, s).s) && Covers(p, n, Step(p, n, s).s)
  {
    var j :| s.star.anchor <= j <= |n| && Matches(p[s.star.after..], n[j..]);
    RetryContinues(p, n, s, j);
    assert j != s.star.anchor;
  }

  lemma CoversStep(p: string, n: string, s: Scan)
    requires InRange(p, n, s) && s.ni < |n| && Covers(p, n, s) && '*' !in n
    ensures Step(p, n, s).Go? && InRange(p, n, Step(p, n, s).s) && Covers(p, n, Step(p, n, s).s)
  {
    assert n[s.ni] in n;
    if s.pi < |p| && MatchesOne(p[s.pi], n[s.ni]) {
      CoversLiteral(p, n, s);
    } else if s.pi < |p| && p[s.pi] == '*' {
      if s.star.StarAt? {
        var j :| s.star.anchor <= j <= |n| && Matches(p[s.star.after..], n[j..]);
        RetryContinues(p, n, s, j);
        CoversStar(p, n, s, j + (s.pi - s.star.after));
      } else {
        CoversStar(p, n, s, s.ni);
      }
    } else if s.star.StarAt? {
      CoversRetry(p, n, s);
    }
  }

  lemma {:induction false} RunComplete(p: string, n: string, s: Scan)
    requires InRange(p, n, s) && Covers(p, n, s) && '*' !in n
    ensures Run(p, n, s)
    decreases |n| - Anchor(s), |p| - s.pi
  {
    if s.ni == |n| {
      if s.star.StarAt? {
        var j :| s.star.anchor <= j <= |n| && Matches(p[s.star.after..], n[j..]);
        RetryContinues(p, n, s, j);
        assert n[j + (s.pi - s.star.after)..] == "";
      }
      StarsMatchEmpty(p[s.pi..]);
    } else {
      CoversStep(p, n, s);
      RunComplete(p, n, Step(p, n, s).s);
    }
  }

  /** On a name without `*`, the loop accepts exactly the names the pattern means. */
  lemma ExactOnStarFreeNames(p: string, n: string)
    requires '*' !in n
    ensures LoopAccepts(p, n) <==> Matches(p, n)
  {
    assert p[0..] == p && n[0..] == n;
    if Matches(p, n) {
      RunComplete(p, n, Scan(0, 0, NoStar));
    }
    if LoopAccepts(p, n) {
      AcceptedNamesMatch(p, n);
    }
  }

  // ---- a name with `*` always has a pattern the loop gets wrong ----

  function Questions(k: nat): (s: string)
    ensures |s| == k && forall i :: 0 <= i < k ==> s[i] == '?'
  {
    seq(k, i => '?')
  }

  /** `?` up to the name's first star, a star, then one `?` for each remaining character. */
  function Breaker(n: string, at: nat): string
    requires at < |n|
  {
    Questions(at) + "*" + Questions(|n| - at)
  }

  lemma {:induction false} QuestionsMatch(p: string, n: string, m: nat)
    requires m <= |p| && m <= |n| && forall i :: 0 <= i < m ==> p[i] == '?'
    requires Matches(p[m..], n[m..])
    ensures Matches(p, n)
  {
    if m == 0 {
      assert p[0..] == p && n[0..] == n;
    } else {
      assert p[1..][m - 1..] == p[m..] && n[1..][m - 1..] == n[m..];
      QuestionsMatch(p[1..], n[1..], m - 1);
    }
  }

  lemma BreakerMatches(n: string, at: nat)
    requires at < |n|
    ensures Matches(Breaker(n, at), n)
  {
    hide Matches;
    var p := Breaker(n, at);
    var tail := Questions(|n| - at);
    assert p[at..] == "*" + tail;
    StarThenQuestions(tail, n[at..]);
    QuestionsMatch(p, n, at);
  }

  lemma StarThenQuestions(tail: string, n: string)
    requires |tail| == |n| && forall i :: 0 <= i < |tail| ==> tail[i] == '?'
    ensures Matches("*" + tail, n)
  {
    assert tail[|tail|..] == "" && n[|tail|..] == "";
    QuestionsMatch(tail, n, |tail|);
    var p := "*" + tail;
    assert p[1..] == tail && n[0..] == n;
  }

  /** Without a remembered star the loop can only walk both strings together. */
  lemma {:induction false} BreakerRejected(n: string, at: nat, i: nat)
    requires at < |n| && n[at] == '*' && i <= |n|
    requires forall k :: 0 <= k < at ==> n[k] != '*'
    ensures !Run(Breaker(n, at), n, Scan(i, i, NoStar))
    decreases |n| - i
  {
    var p := Breaker(n, at);
    if i == |n| {
      assert p[i..][0] == '?';
    } else {
      assert MatchesOne(p[i], n[i]);
      BreakerRejected(n, at, i + 1);
    }
  }

  lemma FirstStar(n: string) returns (at: nat)
    requires '*' in n
    ensures at < |n| && n[at] == '*' && forall k :: 0 <= k < at ==> n[k] != '*'
  {
    at := 0;
    while n[at] != '*'
      invariant at < |n| && forall k :: 0 <= k < at ==> n[k] != '*'
      decreases |n| - at
    {
      if at + 1 == |n| {
        assert forall k :: 0 <= k < |n| ==> n[k] != '*';
        assert false;
      }
      at := at + 1;
    }
  }

  /** Exactly when the loop decides the relation for every pattern: when the name has no `*`. */
  lemma ExactIffNameHasNoStar(n: string)
    ensures (forall p :: LoopAccepts(p, n) <==> Matches(p, n)) <==> '*' !in n
  {
    if '*' in n {
      var at := FirstStar(n);
      BreakerMatches(n, at);
      BreakerRejected(n, at, 0);
      assert !(LoopAccepts(Breaker(n, at), n) <==> Matches(Breaker(n, at), n));
    } else {
      forall p
        ensures LoopAccepts(p, n) <==> Matches(p, n)
      {
        ExactOnStarFreeNames(p, n);
      }
    }
  }

  // ---- a pattern with `*` always has a name the loop gets wrong ----

  lemma EqSelf(c: char)
    ensures MatchesOne(c, c)
  {
  }

  /** A pattern means itself, read as a name, and whatever its parts mean side by side. */
  lemma {:induction false} MatchesConcat(p: string, n: string, q: string, m: string)
    requires Matches(p, n) && Matches(q, m)
    ensures Matches(p + q, n + m)
  {
    if p == "" {
      assert p + q == q && n + m == m;
    } else if p[0] == '*' {
      var k :| 0 <= k <= |n| && Matches(p[1..], n[k..]);
      MatchesConcat(p[1..], n[k..], q, m);
      assert (p + q)[1..] == p[1..] + q && (n + m)[k..] == n[k..] + m;
    } else {
      MatchesConcat(p[1..], n[1..], q, m);
      assert (p + q)[1..] == p[1..] + q && (n + m)[1..] == n[1..] + m;
    }
  }

  lemma {:induction false} MatchesSelf(p: string)
    ensures Matches(p, p)
  {
    if p != "" {
      MatchesSelf(p[1..]);
    }
  }

  /** From any place where pattern and name agree to the pattern's end, with name left over and no star seen,
      the loop fails. */
  lemma {:induction false} LiteralReadingFails(p: string, t: string, i: nat)
    requires i <= |p| && t != ""
    ensures !Run(p, p + t, Scan(i, i, NoStar))
    decreases |p| - i
  {
    if i < |p| {
      EqSelf(p[i]);
      assert (p + t)[i] == p[i];
      LiteralReadingFails(p, t, i + 1);
    }
  }

  lemma LastStar(p: string) returns (at: nat)
    requires '*' in p
    ensures at < |p| && p[at] == '*' && '*' !in p[at + 1..]
  {
    at := |p| - 1;
    assert p[|p|..] == "";
    while p[at] != '*'
      invariant at < |p| && '*' !in p[at + 1..]
      invariant '*' in p[..at + 1]
      decreases at
    {
      assert p[at..] == [p[at]] + p[at + 1..] && p[..at + 1] == p[..at] + [p[at]];
      assert '*' in p[..at];
      at := at - 1;
    }
  }

  /** The pattern read as a name, and then what stands behind its last star once more. */
  function Repeated(p: string, at: nat): string
    requires at < |p|
  {
    if at + 1 == |p| then "x" else p[at + 1..]
  }

  lemma RepeatedMatches(p: string, at: nat)
    requires at < |p| && p[at] == '*'
    ensures Matches(p, p + Repeated(p, at)) && Repeated(p, at) != ""
  {
    var front, back, t := p[..at], p[at..], Repeated(p, at);
    assert p == front + back && p + t == front + (back + t);
    assert back[1..] == p[at + 1..];
    MatchesSelf(front);
    if at + 1 == |p| {
      assert (back + t)[|back + t|..] == "" && back[1..] == "";
      assert Matches(back, back + t);
    } else {
      MatchesSelf(t);
      assert (back + t)[|back|..] == t;
      assert Matches(back, back + t);
    }
    MatchesConcat(front, front, back, back + t);
  }

  /** Without a star in the pattern, matching is character by character and so is the loop. */
  lemma {:induction false} StarFreeRun(p: string, n: string, i: nat)
    requires '*' !in p && i <= |p| && i <= |n| && Matches(p[i..], n[i..])
    ensures Run(p, n, Scan(i, i, NoStar))
    decreases |n| - i
  {
    if i == |n| {
      StarsMatchEmpty(p[i..]);
    } else {
      assert i < |p| && p[i] in p;
      assert p[i..][1..] == p[i + 1..] && n[i..][1..] == n[i + 1..];
      StarFreeRun(p, n, i + 1);
    }
  }

  /** Exactly when the loop decides the relation for every name: when the pattern has no `*`. */
  lemma ExactIffPatternHasNoStar(p: string)
    ensures (forall n :: LoopAccepts(p, n) <==> Matches(p, n)) <==> '*' !in p
  {
    if '*' in p {
      var at := LastStar(p);
      var n := p + Repeated(p, at);
      RepeatedMatches(p, at);
      LiteralReadingFails(p, Repeated(p, at), 0);
      assert !(LoopAccepts(p, n) <==> Matches(p, n));
    } else {
      forall n
        ensures LoopAccepts(p, n) <==> Matches(p, n)
      {
        assert p[0..] == p && n[0..] == n;
        if LoopAccepts(p, n) {
          AcceptedNamesMatch(p, n);
        } else if Matches(p, n) {
          StarFreeRun(p, n, 0);
        }
      }
    }
  }

  /** The public entry point, with its three match-all spellings. */
  method DosPatternMatches(p: string, n: string) returns (accepted: bool)
    ensures accepted <==> p in {"", "*", "*.*"} || LoopAccepts(p, n)
    ensures '*' !in n && p !in {"", "*.*"} ==> (accepted <==> Matches(p, n))
  {
    if p == "" || p == "*" || p == "*.*" {
      if p == "*" {
        assert n[|n|..] == "" && p[1..] == "";
        assert Matches(p, n);
      }
      return true;
    }
    var turns;
    accepted, turns := DosPatternMatchesInner(p, n);
    if '*' !in n {
      ExactOnStarFreeNames(p, n);
    }
  }
}
