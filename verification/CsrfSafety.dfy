/** What every run of the CSRF protocol keeps. */
module CsrfSafety {
  import opened Options
  import opened CsrfProtocol

  ghost predicate InFlight(c: Client, f: FetchId) { f < |c.fetches| && c.fetches[f].status.InFlight() }

  /** The fetch in progress: it is the only one of its generation, and pending if it is current. */
  ghost predicate FetchInv(c: Client) {
    (c.pending.Some? ==> c.pending.value < |c.fetches| && c.fetches[c.pending.value].session == c.pendingSession) &&
    (forall f :: 0 <= f < |c.fetches| ==> c.fetches[f].session <= c.session) &&
    (forall f: FetchId :: InFlight(c, f) && c.fetches[f].session == c.session ==> c.pending == Some(f)) &&
    (forall f: FetchId, g: FetchId :: InFlight(c, f) && InFlight(c, g) && c.fetches[f].session == c.fetches[g].session ==> f == g) &&
    (forall f: FetchId :: InFlight(c, f) ==> Present(c.fetches[f].sid)) &&
    (forall f :: 0 <= f < |c.fetches| && c.fetches[f].session == c.session ==> c.fetches[f].sid == GetSessionId(c))
  }

  ghost predicate Carries(c: Client, f: FetchId, t: Token) {
    f < |c.fetches| && c.fetches[f].status == Answered(Issued(t))
  }

  /** A token on its way to the client was issued for the session that asked, and never held. */
  ghost predicate CarryInv(w: World) {
    (forall f: FetchId, t :: Carries(w.client, f, t) ==>
       t !in w.installed && t in w.owner && w.client.fetches[f].sid == Some(w.owner[t])) &&
    (forall f: FetchId, g: FetchId, t :: Carries(w.client, f, t) && Carries(w.client, g, t) ==> f == g)
  }

  /** The token held was issued for the current session, and no request was refused with it. */
  ghost predicate TokenInv(w: World) {
    w.client.token.Some? ==>
      var t := w.client.token.value;
      t in w.owner && t in w.installed && t !in w.discards &&
      Present(GetSessionId(w.client)) && GetSessionId(w.client) == Some(w.owner[t])
  }

  ghost predicate NoRepeats(s: seq<Token>) {
    forall i, j :: 0 <= i < j < |s| ==> s[i] != s[j]
  }

  ghost predicate HistoryInv(w: World) {
    NoRepeats(w.discards) &&
    (forall t :: t in w.discards ==> t in w.installed) &&
    (forall t :: t in w.installed ==> t in w.owner) &&
    (forall sid :: sid in w.current ==> w.current[sid] in w.owner && w.owner[w.current[sid]] == sid)
  }

  /** A refused token is gone: it was held once and is not held now. */
  ghost predicate Gone(w: World, t: Token) { t in w.installed && w.client.token != Some(t) }

  ghost predicate AttemptInv(w: World, a: Attempt) { a.Again? ==> Gone(w, a.refused) }

  /** The token was read when the session id was `read`, for which it had been issued. */
  ghost predicate ReadInv(w: World, t: Task, token: Token) {
    token in w.installed && token in w.owner && t.read == Some(w.owner[token]) &&
    (t.readIn == t.born ==> t.read == t.sid)
  }

  /** What the first send has left behind when the second one is under way. */
  ghost predicate FirstRefused(t: Task, refused: Token) {
    |t.headers| >= 1 && t.headers[0] == Some(refused) && |t.answers| >= 1 && t.answers[0] == RefusedCsrf
  }

  /** Sends, answers and effects at the end of either attempt. */
  ghost predicate Tally(t: Task, sends: nat, answers: nat) {
    |t.headers| == sends && |t.answers| == answers &&
    (sends == 2 ==> t.headers[0].Some? && t.headers[1].Some? && t.headers[0] != t.headers[1] &&
                    answers >= 1 && t.answers[0] == RefusedCsrf) &&
    t.effects <= 1 && (answers == 0 || t.answers[answers - 1] == RefusedCsrf ==> t.effects == 0) &&
    (answers < sends ==> t.effects == 0)
  }

  ghost predicate SentInv(w: World, t: Task, attempt: Attempt) {
    AttemptInv(w, attempt) && |t.headers| == (if attempt.First? then 1 else 2) &&
    (attempt.Again? ==> FirstRefused(t, attempt.refused)) &&
    var header := t.headers[|t.headers| - 1];
    (header.Some? ==> ReadInv(w, t, header.value)) && (header.None? ==> attempt.First?)
  }

  /** A change that took effect named the session its token was issued for. */
  ghost predicate EffectInv(w: World, t: Task) {
    t.effects > 0 && Present(t.sid) ==> |t.headers| > 0 && Paired(w, t, t.headers[|t.headers| - 1])
  }

  ghost predicate Paired(w: World, t: Task, header: Option<Token>) {
    header.Some? && header.value in w.owner && t.sid == Some(w.owner[header.value])
  }

  ghost predicate TaskInv(w: World, t: Task) {
    EffectInv(w, t) && t.born <= w.client.session && t.readIn <= w.client.session &&
    (t.born == w.client.session ==> t.sid == GetSessionId(w.client)) &&
    match t.at
    case Ensuring(a, f) =>
      f < |w.client.fetches| && AttemptInv(w, a) &&
      Tally(t, if a.First? then 0 else 1, if a.First? then 0 else 1) && (a.Again? ==> FirstRefused(t, a.refused))
    case Refetching(r, f) =>
      f < |w.client.fetches| && Gone(w, r) && Tally(t, 1, 1) && FirstRefused(t, r)
    case Holding(a, token) =>
      AttemptInv(w, a) && ReadInv(w, t, token) && (a.Again? ==> token != a.refused && FirstRefused(t, a.refused)) &&
      Tally(t, if a.First? then 0 else 1, if a.First? then 0 else 1)
    case Sent(a) => SentInv(w, t, a) && Tally(t, |t.headers|, |t.headers| - 1)
    case Received(a) => SentInv(w, t, a) && Tally(t, |t.headers|, |t.headers|)
    case Refused(token) => token in w.installed && FirstRefused(t, token) && Tally(t, 1, 1)
    case Returned => |t.headers| <= 2 && Tally(t, |t.headers|, |t.headers|)
    case Threw => |t.headers| <= 2 && Tally(t, |t.headers|, |t.headers|)
  }

  ghost predicate Inv(w: World) {
    FetchInv(w.client) && CarryInv(w) && TokenInv(w) && HistoryInv(w) &&
    forall i :: 0 <= i < |w.tasks| ==> TaskInv(w, w.tasks[i])
  }

  // ---------------------------------------------------------------------------
  // Every step keeps the invariant
  // ---------------------------------------------------------------------------

  /** What a step may do to the world around a task that does not move itself. */
  ghost predicate Around(w: World, w': World) {
    |w.client.fetches| <= |w'.client.fetches| && w.installed <= w'.installed &&
    (forall t :: t in w.owner ==> t in w'.owner && w'.owner[t] == w.owner[t]) &&
    (w'.client.token == w.client.token || w'.client.token.None? || w'.client.token.value !in w.installed) &&
    w.client.session <= w'.client.session &&
    (w.client.session == w'.client.session ==> GetSessionId(w'.client) == GetSessionId(w.client))
  }

  lemma TaskStays(w: World, w': World, t: Task)
    requires TaskInv(w, t) && Around(w, w')
    ensures TaskInv(w', t)
  {}

  lemma AllTasksStay(w: World, w': World)
    requires Inv(w) && Around(w, w') && w'.tasks == w.tasks
    ensures forall j :: 0 <= j < |w'.tasks| ==> TaskInv(w', w'.tasks[j])
  {}

  /** A task that moves, or a new one, in a world that otherwise stays as it is. */
  lemma TaskMoves(w: World, tasks: seq<Task>, i: nat)
    requires Inv(w) && i < |tasks| && TaskInv(w, tasks[i])
    requires (i == |w.tasks| && tasks == w.tasks + [tasks[i]]) || (i < |w.tasks| && tasks == w.tasks[i := tasks[i]])
    ensures Inv(w.(tasks := tasks))
  {
    var w' := w.(tasks := tasks);
    forall j | 0 <= j < |tasks|
      ensures TaskInv(w', tasks[j])
    {
      TaskStays(w, w', if j == i then tasks[i] else w.tasks[j]);
    }
  }

  /** fetchCsrf returns the fetch of the current generation: the pending one if there is one. */
  lemma FetchCsrfShares(c: Client)
    requires FetchInv(c)
    ensures var (c', f) := FetchCsrf(c);
            FetchInv(c') && f < |c'.fetches| && c'.fetches[f].session == c.session == c'.session && c'.pending == Some(f) &&
            (forall g: FetchId :: InFlight(c', g) && c'.fetches[g].session == c.session ==> g == f) &&
            |c.fetches| <= |c'.fetches| <= |c.fetches| + 1 && c'.fetches[..|c.fetches|] == c.fetches &&
            (c'.token == c.token || c'.token.None?) && GetSessionId(c') == GetSessionId(c)
  {}

  /** A client that differs only by a call of fetchCsrf, and possibly by a dropped token. */
  ghost predicate Fetched(c: Client, c': Client) {
    FetchInv(c') && |c.fetches| <= |c'.fetches| && c'.fetches[..|c.fetches|] == c.fetches &&
    (forall f :: |c.fetches| <= f < |c'.fetches| ==> !c'.fetches[f].status.Answered?) &&
    (c'.token == c.token || c'.token.None?) && GetSessionId(c') == GetSessionId(c) && c'.session == c.session
  }

  lemma CarriesStay(w: World, w': World)
    requires CarryInv(w) && Fetched(w.client, w'.client) && w'.installed == w.installed && w'.owner == w.owner
    ensures CarryInv(w')
  {
    assert forall f: FetchId, t :: Carries(w'.client, f, t) ==> Carries(w.client, f, t);
  }

  lemma FetchKeeps(w: World, c: Client)
    requires Inv(w) && Fetched(w.client, c)
    ensures Inv(w.(client := c)) && Around(w, w.(client := c))
  {
    CarriesStay(w, w.(client := c));
    AllTasksStay(w, w.(client := c));
  }

  lemma EnsureKeeps(c: Client, a: Attempt)
    requires FetchInv(c)
    ensures var (c', at) := Ensure(c, a);
            Fetched(c, c') &&
            (if c.token.Some? then c' == c && at == Holding(a, c.token.value)
             else at.Ensuring? && at.attempt == a && at.fetch < |c'.fetches|)
  {
    FetchCsrfShares(c);
  }

  lemma CallKeeps(w: World, caller: Caller)
    requires Inv(w)
    ensures Inv(ApplyCall(w, caller))
  {
    var w' := ApplyCall(w, caller);
    if Present(GetSessionId(w.client)) {
      EnsureKeeps(w.client, First);
      FetchKeeps(w, w'.client);
      TaskMoves(w.(client := w'.client), w'.tasks, |w.tasks|);
    } else {
      TaskMoves(w, w'.tasks, |w.tasks|);
    }
  }

  lemma InitKeeps(w: World)
    requires Inv(w)
    ensures Inv(Apply(w, InitCsrf))
  {
    FetchCsrfShares(w.client);
    FetchKeeps(w, FetchCsrf(w.client).0);
  }

  /** ensureCsrfToken for the second send. */
  lemma EnsureAgainKeeps(w: World, i: nat, refused: Token)
    requires Inv(w) && i < |w.tasks| && Gone(w, refused)
    requires FirstRefused(w.tasks[i], refused) && Tally(w.tasks[i], 1, 1) && TaskInv(w, w.tasks[i])
    ensures var (c, at) := Ensure(w.client, Again(refused)); Inv(Moved(w, i, c, at))
  {
    var (c, at) := Ensure(w.client, Again(refused));
    EnsureKeeps(w.client, Again(refused));
    FetchKeeps(w, c);
    TaskStays(w, w.(client := c), w.tasks[i]);
    TaskMoves(w.(client := c), Moved(w, i, c, at).tasks, i);
  }

  lemma ResumeKeeps(w: World, i: nat)
    requires Inv(w) && Enabled(w, Resume(i))
    ensures Inv(ApplyResume(w, i))
  {
    assert TaskInv(w, w.tasks[i]);
    if w.tasks[i].at.Refetching? && !w.client.fetches[w.tasks[i].at.fetch].status.Rejected? {
      EnsureAgainKeeps(w, i, w.tasks[i].at.refused);
    } else {
      TaskMoves(w, ApplyResume(w, i).tasks, i);
    }
  }

  lemma SendKeeps(w: World, i: nat)
    requires Inv(w) && Enabled(w, Send(i))
    ensures Inv(ApplySend(w, i))
  {}

  lemma ProcessKeeps(w: World, i: nat, answer: Answer, applied: bool)
    requires Inv(w) && Enabled(w, Process(i, answer, applied))
    ensures Inv(ApplyProcess(w, i, answer, applied))
  {
    assert TaskInv(w, w.tasks[i]);
    TaskMoves(w, ApplyProcess(w, i, answer, applied).tasks, i);
  }

  /** A login or a logout starts a new generation without a token. */
  lemma NewSessionKeeps(w: World, c: Client)
    requires Inv(w) && c.session == w.client.session + 1 && c.token.None?
    requires c.fetches == w.client.fetches && c.pending == w.client.pending && c.pendingSession == w.client.pendingSession
    ensures Inv(w.(client := c))
  {
    var w' := w.(client := c);
    assert forall f: FetchId, t :: Carries(w'.client, f, t) ==> Carries(w.client, f, t);
    assert forall f: FetchId :: InFlight(c, f) ==> InFlight(w.client, f);
    AllTasksStay(w, w');
  }

  lemma VerdictKeeps(w: World, t: Task)
    requires TaskInv(w, t) && t.at.Received?
    ensures |t.headers| > 0 && |t.answers| > 0 && TaskInv(w, t.(at := Verdict(t)))
  {}

  lemma JudgeKeeps(w: World, i: nat)
    requires Inv(w) && Enabled(w, Judge(i))
    ensures Inv(ApplyJudge(w, i))
  {
    var t := w.tasks[i];
    assert TaskInv(w, t);
    var w1 := if LogsOut(t) then w.(client := ClearSession(w.client)) else w;
    if LogsOut(t) {
      NewSessionKeeps(w, w1.client);
    }
    assert TaskInv(w1, w1.tasks[i]);
    VerdictKeeps(w1, t);
    TaskMoves(w1, w.tasks[i := t.(at := Verdict(t))], i);
  }

  /** Dropping a token that was refused. */
  lemma DropKeeps(w: World, refused: Token)
    requires Inv(w) && w.client.token == Some(refused)
    ensures Inv(w.(discards := w.discards + [refused], client := w.client.(token := None)))
  {
    var w' := w.(discards := w.discards + [refused], client := w.client.(token := None));
    assert forall f: FetchId :: InFlight(w'.client, f) <==> InFlight(w.client, f);
    assert forall f: FetchId, t :: Carries(w'.client, f, t) ==> Carries(w.client, f, t);
    AllTasksStay(w, w');
  }

  lemma DiscardKeeps(w: World, i: nat, refused: Token)
    requires Inv(w) && i < |w.tasks| && w.client.token == Some(refused)
    requires FirstRefused(w.tasks[i], refused) && Tally(w.tasks[i], 1, 1) && TaskInv(w, w.tasks[i])
    ensures var (c, f) := FetchCsrf(w.client.(token := None));
            Inv(Moved(w.(discards := w.discards + [refused]), i, c, Refetching(refused, f)))
  {
    var w1 := w.(discards := w.discards + [refused], client := w.client.(token := None));
    DropKeeps(w, refused);
    var (c, f) := FetchCsrf(w1.client);
    FetchCsrfShares(w1.client);
    FetchKeeps(w1, c);
    var w2 := w1.(client := c);
    assert TaskInv(w2, w2.tasks[i]);
    TaskMoves(w2, Moved(w2, i, c, Refetching(refused, f)).tasks, i);
  }

  lemma RefreshKeeps(w: World, i: nat)
    requires Inv(w) && Enabled(w, Refresh(i))
    ensures Inv(ApplyRefresh(w, i))
  {
    assert TaskInv(w, w.tasks[i]);
    var refused := w.tasks[i].at.token;
    if w.client.token == Some(refused) {
      DiscardKeeps(w, i, refused);
    } else {
      assert w.(discards := w.discards) == w;
      EnsureAgainKeeps(w, i, refused);
    }
  }

  lemma IssueKeeps(w: World, f: FetchId, t: Token)
    requires Inv(w) && Enabled(w, Issue(f, t))
    ensures Inv(Apply(w, Issue(f, t)))
  {
    var w' := Apply(w, Issue(f, t));
    assert forall g: FetchId :: InFlight(w'.client, g) <==> InFlight(w.client, g);
    assert forall g: FetchId, u :: Carries(w'.client, g, u) ==> (g == f && u == t) || Carries(w.client, g, u);
    AllTasksStay(w, w');
  }

  lemma StatusKeeps(w: World, f: FetchId, status: Status)
    requires Inv(w) && InFlight(w.client, f) && status in {Answered(Failed), Resolved, Rejected}
    ensures Inv(SetFetch(w, f, status))
  {
    var w' := SetFetch(w, f, status);
    assert forall g: FetchId :: InFlight(w'.client, g) ==> InFlight(w.client, g);
    assert forall g: FetchId, u :: Carries(w'.client, g, u) ==> Carries(w.client, g, u);
    AllTasksStay(w, w');
  }

  /** The client takes a token that was issued for its session and never held before. */
  lemma InstallKeeps(w: World, t: Token)
    requires Inv(w) && t in w.owner && t !in w.installed && Present(GetSessionId(w.client))
    requires GetSessionId(w.client) == Some(w.owner[t]) && forall f: FetchId :: !Carries(w.client, f, t)
    ensures Inv(w.(client := w.client.(token := Some(t)), installed := w.installed + {t}))
  {
    var w' := w.(client := w.client.(token := Some(t)), installed := w.installed + {t});
    assert forall f: FetchId :: InFlight(w'.client, f) <==> InFlight(w.client, f);
    assert forall f: FetchId, u :: Carries(w'.client, f, u) ==> Carries(w.client, f, u);
    AllTasksStay(w, w');
  }

  lemma ReceiveKeeps(w: World, f: FetchId)
    requires Inv(w) && Enabled(w, ReceiveToken(f))
    ensures Inv(ApplyReceive(w, f))
  {
    var fetch := w.client.fetches[f];
    assert InFlight(w.client, f);
    var w1 := SetFetch(w, f, if fetch.status.reply.Issued? then Resolved else Rejected);
    StatusKeeps(w, f, w1.client.fetches[f].status);
    if fetch.status.reply.Issued? && fetch.session == w.client.session {
      var t := fetch.status.reply.token;
      assert Carries(w.client, f, t);
      assert forall g: FetchId, u :: Carries(w1.client, g, u) ==> Carries(w.client, g, u) && g != f;
      InstallKeeps(w1, t);
    } else {
      assert ApplyReceive(w, f) == w1.(installed := w1.installed + if w1.client.token.Some? then {w1.client.token.value} else {});
      assert w1.installed + (if w1.client.token.Some? then {w1.client.token.value} else {}) == w1.installed;
    }
  }

  lemma CleanKeeps(w: World, f: FetchId)
    requires Inv(w) && Enabled(w, CleanUp(f))
    ensures Inv(Apply(w, CleanUp(f)))
  {
    var w' := Apply(w, CleanUp(f));
    assert forall g: FetchId :: InFlight(w'.client, g) <==> InFlight(w.client, g);
    assert forall g: FetchId, u :: Carries(w'.client, g, u) ==> Carries(w.client, g, u);
    AllTasksStay(w, w');
  }

  lemma OtherTabKeeps(w: World, sid: SessionId, t: Token)
    requires Inv(w) && Enabled(w, OtherTab(sid, t))
    ensures Inv(Apply(w, OtherTab(sid, t)))
  {
    AllTasksStay(w, Apply(w, OtherTab(sid, t)));
  }

  lemma StepKeeps(w: World, s: Step)
    requires Inv(w) && Enabled(w, s)
    ensures Inv(Apply(w, s))
  {
    match s
    case Call(caller) => CallKeeps(w, caller);
    case InitCsrf => InitKeeps(w);
    case Resume(i) => ResumeKeeps(w, i);
    case Send(i) => SendKeeps(w, i);
    case Process(i, answer, applied) => ProcessKeeps(w, i, answer, applied);
    case Judge(i) => JudgeKeeps(w, i);
    case Refresh(i) => RefreshKeeps(w, i);
    case Issue(f, t) => IssueKeeps(w, f, t);
    case Fail(f) => StatusKeeps(w, f, Answered(Failed));
    case ReceiveToken(f) => ReceiveKeeps(w, f);
    case CleanUp(f) => CleanKeeps(w, f);
    case Login(sid, persistent) => NewSessionKeeps(w, StoreSession(w.client, sid, persistent));
    case Logout => NewSessionKeeps(w, ClearSession(w.client));
    case OtherTab(sid, t) => OtherTabKeeps(w, sid, t);
  }
}
