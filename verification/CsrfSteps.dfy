/** What single steps of the CSRF protocol do, and what keeps a token and a refused change alive. */
module CsrfSteps {
  import opened Options
  import opened CsrfProtocol
  import opened CsrfSafety
  import opened CsrfTheorems
  import opened CsrfProgress

  // ---------------------------------------------------------------------------
  // Sessions and fetches
  // ---------------------------------------------------------------------------

  /** Some storage holds an id that is not empty, and it is the one read back. */
  ghost predicate LoggedIn(c: Client, sid: SessionId) {
    sid != "" && if c.local.Some? then c.local.value == sid else c.tab == Some(sid)
  }

  /** A login writes one storage only, drops the token and begins a generation; a logout empties both. */
  lemma SessionChanges(w: World, sid: SessionId, persistent: bool)
    ensures var (c, v) := (w.client, Apply(w, Login(sid, persistent)));
            var d := v.client;
            v == w.(client := d) && (if persistent then d.local == Some(sid) && d.tab == c.tab else d.tab == Some(sid) && d.local == c.local) &&
            d.token == None && d.session == c.session + 1 && d.pending == c.pending &&
            d.pendingSession == c.pendingSession && d.fetches == c.fetches
    ensures var (c, v) := (w.client, Apply(w, Logout));
            var d := v.client;
            v == w.(client := d) && d.local == None && d.tab == None && d.token == None && d.session == c.session + 1 &&
            d.pending == c.pending && d.pendingSession == c.pendingSession && d.fetches == c.fetches
  {}

  /** Without a pending fetch of this generation a new one is made: in flight for the id read back, or over
      at once, and then no token is left. */
  lemma FetchAsks(c: Client)
    requires c.pending.None? || c.pendingSession != c.session
    ensures var (d, f) := FetchCsrf(c);
            f == |c.fetches| && |d.fetches| == f + 1 && d.fetches[..f] == c.fetches && d.pending == Some(f) &&
            d.pendingSession == c.session == d.session == d.fetches[f].session &&
            d.local == c.local && d.tab == c.tab && !d.fetches[f].cleaned &&
            if exists sid :: LoggedIn(c, sid)
            then d.fetches[f].status == Requested && d.fetches[f].sid.Some? && LoggedIn(c, d.fetches[f].sid.value) && d.token == c.token
            else d.fetches[f].status == Resolved && d.token == None
  {
    if Present(GetSessionId(c)) {
      assert LoggedIn(c, GetSessionId(c).value);
    }
  }

  /** What the page does first: the fetch of this generation is under way or made, for no one to wait. */
  lemma InitAsks(w: World)
    ensures var v := Apply(w, InitCsrf);
            v == w.(client := v.client) && v.client.pending.Some? && v.client.pendingSession == v.client.session == w.client.session &&
            if w.client.pending.Some? && w.client.pendingSession == w.client.session then v == w
            else |v.client.fetches| == |w.client.fetches| + 1 && v.client.pending == Some(|w.client.fetches|)
  {}

  /** A failed fetch leaves the token alone, and everyone who waited for it throws. */
  lemma FetchFails(w: World, f: FetchId, a: nat)
    requires Enabled(w, ReceiveToken(f)) && w.client.fetches[f].status == Answered(Failed)
    ensures var v := Apply(w, ReceiveToken(f));
            v.client == w.client.(fetches := v.client.fetches) && v.client.fetches[f].status == Rejected && v.tasks == w.tasks
    ensures a < |w.tasks| && (w.tasks[a].at.Ensuring? || w.tasks[a].at.Refetching?) && w.tasks[a].at.fetch == f ==>
              var v := Apply(w, ReceiveToken(f));
              Enabled(v, Resume(a)) && Apply(v, Resume(a)).tasks[a].at == Threw && Apply(v, Resume(a)).client == v.client
  {}

  /** The end of a fetch clears the pending entry if that is its own, and changes nothing else. */
  lemma FetchEnds(c: Client, f: FetchId)
    requires f < |c.fetches|
    ensures var d := Clean(c, f);
            (c.pending == Some(f) ==> d.pending == None) && (c.pending != Some(f) ==> d.pending == c.pending) &&
            d == c.(pending := d.pending, fetches := d.fetches) && d.fetches == c.fetches[f := c.fetches[f].(cleaned := true)]
  {}

  // ---------------------------------------------------------------------------
  // Tokens
  // ---------------------------------------------------------------------------

  /** A refresh while another token is held leaves the client as it was and hands that token over. */
  lemma RefreshKeepsNewer(c: Client, refused: Token, held: Token)
    requires c.token == Some(held) && held != refused
    ensures RefreshToken(c, refused) == (c, Holding(Again(refused), held), false)
  {}

  /** A refresh while the refused token is held drops it and waits for a fetch of this generation. */
  lemma RefreshDropsRefused(c: Client, refused: Token)
    requires FetchInv(c) && c.token == Some(refused)
    ensures var (d, at, dropped) := RefreshToken(c, refused);
            dropped && d.token == None && at.Refetching? && at.refused == refused &&
            at.fetch < |d.fetches| && d.fetches[at.fetch].session == c.session && d.pending == Some(at.fetch)
  {
    FetchCsrfShares(c.(token := None));
  }

  /** The session has ended or another has begun. */
  ghost predicate SessionEnds(w: World, s: Step) {
    s.Login? || s.Logout? ||
    (s.Judge? && s.task < |w.tasks| && w.tasks[s.task].caller == ApiFetch &&
     |w.tasks[s.task].answers| > 0 && w.tasks[s.task].answers[|w.tasks[s.task].answers| - 1] == Unauthorized)
  }

  /** A caller was refused with this very token. */
  ghost predicate RefreshesAfter(w: World, s: Step, t: Token) {
    s.Refresh? && s.task < |w.tasks| && w.tasks[s.task].at == Refused(t)
  }

  /** A newer token of the same session has come. */
  ghost predicate Replaces(w: World, s: Step) {
    s.ReceiveToken? && s.fetch < |w.client.fetches| && w.client.fetches[s.fetch].session == w.client.session &&
    w.client.fetches[s.fetch].status.Answered? && w.client.fetches[s.fetch].status.reply.Issued?
  }

  /** A token that is held goes in no other way. */
  lemma TokenGoes(w: World, s: Step, t: Token)
    requires Inv(w) && Enabled(w, s) && w.client.token == Some(t) && Apply(w, s).client.token != Some(t)
    ensures SessionEnds(w, s) || RefreshesAfter(w, s, t) || Replaces(w, s)
  {
    assert Present(GetSessionId(w.client));
  }

  /** So it is at every point of every run. */
  lemma TokenGoesInRuns(ws: seq<World>, i: nat, t: Token) returns (s: Step)
    requires Run(ws) && i < |ws| - 1 && ws[i].client.token == Some(t) && ws[i + 1].client.token != Some(t)
    ensures Enabled(ws[i], s) && ws[i + 1] == Apply(ws[i], s)
    ensures SessionEnds(ws[i], s) || RefreshesAfter(ws[i], s, t) || Replaces(ws[i], s)
  {
    RunKeeps(ws, i);
    assert Next(ws[i], ws[i + 1]);
    s :| Enabled(ws[i], s) && ws[i + 1] == Apply(ws[i], s);
    TokenGoes(ws[i], s, t);
  }

  // ---------------------------------------------------------------------------
  // Callers
  // ---------------------------------------------------------------------------

  /** A change names the session id read when it is made; it waits for a token exactly if there is one. */
  lemma CallReads(w: World, caller: Caller)
    ensures var v := Apply(w, Call(caller));
            |v.tasks| == |w.tasks| + 1 && v.tasks[..|w.tasks|] == w.tasks &&
            var t := v.tasks[|w.tasks|];
            t.caller == caller && t.sid == GetSessionId(w.client) && t.answers == [] && t.effects == 0 &&
            if exists sid :: LoggedIn(w.client, sid) then
              t.headers == [] && (if w.client.token.Some? then t.at == Holding(First, w.client.token.value) else t.at.Ensuring?)
            else t.headers == [None] && t.at == Sent(First) && v.client == w.client
  {
    if Present(GetSessionId(w.client)) {
      assert LoggedIn(w.client, GetSessionId(w.client).value);
    }
  }

  /** When its fetch is over, a caller goes on with the token held then; without one it throws, unless it
      has only now to ask for one after a refusal. */
  lemma ResumeGoesOn(w: World, a: nat)
    requires Enabled(w, Resume(a)) && !w.client.fetches[w.tasks[a].at.fetch].status.Rejected?
    ensures var (at, v) := (w.tasks[a].at, Apply(w, Resume(a)));
            if w.client.token.Some? then
              v.client == w.client &&
              v.tasks[a].at == Holding(if at.Ensuring? then at.attempt else Again(at.refused), w.client.token.value)
            else if at.Ensuring? then v.client == w.client && v.tasks[a].at == Threw
            else v.tasks[a].at.Ensuring? && v.tasks[a].at.attempt == Again(at.refused)
  {}

  /** The daemon may give any answer, a refusal only if the token sent is not the session's current one;
      with that token, or without a session, the change may take effect even if the answer is lost. */
  lemma DaemonMay(w: World, a: nat, answer: Answer, sid: SessionId)
    requires a < |w.tasks| && w.tasks[a].at.Sent? && |w.tasks[a].headers| > 0 && w.tasks[a].sid == Some(sid)
    ensures var t := w.tasks[a];
            var good := sid != "" && sid in w.current && t.headers[|t.headers| - 1] == Some(w.current[sid]);
            (Enabled(w, Process(a, answer, false)) <==> answer != RefusedCsrf || !good) &&
            (Enabled(w, Process(a, answer, true)) <==> (answer == Other || answer == NoConnection) && (good || sid == ""))
  {}

  /** The last header and the last answer of a task. */
  ghost predicate CameBack(t: Task, header: Option<Token>, answer: Answer) {
    t.at.Received? && |t.headers| > 0 && |t.answers| > 0 &&
    t.headers[|t.headers| - 1] == header && t.answers[|t.answers| - 1] == answer
  }

  /** What follows an answer: the first send with a token that came back refused is to be repeated; a broken
      connection throws, and so does a 401 to apiFetch, which ends the session; all else is returned. */
  lemma JudgeDecides(w: World, a: nat, header: Option<Token>, answer: Answer)
    requires Enabled(w, Judge(a)) && CameBack(w.tasks[a], header, answer)
    ensures var (t, v) := (w.tasks[a], Apply(w, Judge(a)));
            v.tasks[a] == t.(at := v.tasks[a].at) &&
            (v.tasks[a].at == Refused(if header.Some? then header.value else 0) <==>
               answer == RefusedCsrf && t.at.attempt == First && header.Some?) &&
            (v.tasks[a].at == Threw <==> answer == NoConnection || (answer == Unauthorized && t.caller == ApiFetch)) &&
            (v.tasks[a].at.Returned? || v.tasks[a].at.Threw? || v.tasks[a].at.Refused?) &&
            v.client == if answer == Unauthorized && t.caller == ApiFetch then ClearSession(w.client) else w.client
  {}

  // ---------------------------------------------------------------------------
  // Over whole runs
  // ---------------------------------------------------------------------------

  /** A change that names a session is sent with a token, one that names none without. */
  ghost predicate TokenIfNamed(t: Task) {
    (Present(t.sid) ==> forall k :: 0 <= k < |t.headers| ==> t.headers[k].Some?) &&
    (!Present(t.sid) ==> t.headers == [None] && (t.at.Sent? || t.at.Received? || Done(t)))
  }

  /** A change that was refused with a token is not over before it has been sent again, or has thrown. */
  ghost predicate NotGivenUp(t: Task) {
    t.at.Returned? && |t.answers| > 0 && |t.headers| > 0 && t.answers[0] == RefusedCsrf && t.headers[0].Some? ==> |t.headers| > 1
  }

  ghost predicate CallerInv(w: World) {
    forall a :: 0 <= a < |w.tasks| ==> TokenIfNamed(w.tasks[a]) && NotGivenUp(w.tasks[a])
  }

  lemma CallKeepsCallers(w: World, caller: Caller)
    ensures var t := ApplyCall(w, caller).tasks[|w.tasks|]; TokenIfNamed(t) && NotGivenUp(t)
  {}

  lemma OwnStepKeepsCaller(w: World, s: Step, a: nat)
    requires Inv(w) && Enabled(w, s) && Mover(s) == Some(a) && TokenIfNamed(w.tasks[a]) && NotGivenUp(w.tasks[a])
    ensures TokenIfNamed(Apply(w, s).tasks[a]) && NotGivenUp(Apply(w, s).tasks[a])
  {
    assert TaskInv(w, w.tasks[a]);
  }

  lemma CallersStay(w: World, s: Step)
    requires Inv(w) && Enabled(w, s) && CallerInv(w)
    ensures CallerInv(Apply(w, s))
  {
    var v := Apply(w, s);
    forall a | 0 <= a < |v.tasks|
      ensures TokenIfNamed(v.tasks[a]) && NotGivenUp(v.tasks[a])
    {
      if a >= |w.tasks| {
        CallKeepsCallers(w, s.caller);
      } else if Mover(s) == Some(a) {
        OwnStepKeepsCaller(w, s, a);
      } else {
        StepDescends(w, s, a);
      }
    }
  }

  lemma NextKeepsCallers(w: World, w': World)
    requires Inv(w) && Next(w, w') && CallerInv(w)
    ensures CallerInv(w')
  {
    var s :| Enabled(w, s) && w' == Apply(w, s);
    CallersStay(w, s);
  }

  /** In every run a change that names a session is sent with a token only, and a refused change does not
      return before it has been sent again. */
  lemma {:induction false} CallersKept(ws: seq<World>, i: nat)
    requires Run(ws) && i < |ws|
    ensures CallerInv(ws[i])
    decreases i
  {
    if i > 0 {
      CallersKept(ws, i - 1);
      RunKeeps(ws, i - 1);
      assert Next(ws[i - 1], ws[i]);
      NextKeepsCallers(ws[i - 1], ws[i]);
    }
  }

  lemma {:induction false} EndlessKeepsCallers(ws: Behaviour, i: nat)
    requires Endless(ws)
    ensures CallerInv(ws(i))
    decreases i
  {
    if i > 0 {
      EndlessKeepsCallers(ws, i - 1);
      EndlessKeeps(ws, i - 1);
      assert NextAt(ws, i - 1);
      NextKeepsCallers(ws(i - 1), ws(i));
    }
  }

  /** The task has come so far: what was sent and answered stays. */
  ghost predicate GoesOn(t: Task, t': Task) {
    t.headers <= t'.headers && t.answers <= t'.answers
  }

  lemma StepGoesOn(w: World, s: Step, a: nat)
    requires Enabled(w, s) && a < |w.tasks|
    ensures a < |Apply(w, s).tasks| && GoesOn(w.tasks[a], Apply(w, s).tasks[a])
  {
    if Mover(s) != Some(a) {
      StepDescends(w, s, a);
    }
  }

  lemma NextGoesOn(w: World, w': World, a: nat)
    requires Next(w, w') && a < |w.tasks|
    ensures a < |w'.tasks| && GoesOn(w.tasks[a], w'.tasks[a])
  {
    var s :| Enabled(w, s) && w' == Apply(w, s);
    StepGoesOn(w, s, a);
  }

  lemma {:induction false} EndlessGoesOn(ws: Behaviour, a: nat, i: nat, j: nat)
    requires Endless(ws) && i <= j && a < |ws(i).tasks|
    ensures a < |ws(j).tasks| && GoesOn(ws(i).tasks[a], ws(j).tasks[a])
    decreases j
  {
    if i < j {
      EndlessGoesOn(ws, a, i, j - 1);
      assert NextAt(ws, j - 1);
      NextGoesOn(ws(j - 1), ws(j), a);
    }
  }

  /** The first send carried a token and came back refused. */
  ghost predicate FirstWasRefused(w: World, a: nat) {
    a < |w.tasks| && |w.tasks[a].headers| > 0 && |w.tasks[a].answers| > 0 &&
    w.tasks[a].headers[0].Some? && w.tasks[a].answers[0] == RefusedCsrf
  }

  /** In every endless run that is fair to it, a caller refused with a token sends its change a second
      time, unless it throws. */
  lemma RefusedSendsAgain(ws: Behaviour, a: nat, i: nat) returns (end: nat)
    requires Endless(ws) && Fair(ws, a) && FirstWasRefused(ws(i), a)
    ensures end >= i && a < |ws(end).tasks|
    ensures |ws(end).tasks[a].headers| == 2 || ws(end).tasks[a].at == Threw
  {
    end := FairRunEnds(ws, a, i);
    EndlessGoesOn(ws, a, i, end);
    EndlessKeepsCallers(ws, end);
    EndlessKeeps(ws, end);
    var (t, t') := (ws(i).tasks[a], ws(end).tasks[a]);
    assert TaskInv(ws(end), t') && NotGivenUp(t');
    assert t'.headers[0] == t.headers[0] && t'.answers[0] == t.answers[0];
  }

  // ---------------------------------------------------------------------------
  // A run with a second send
  // ---------------------------------------------------------------------------

  ghost function Logged(): Client { Client(Some("a"), None, None, None, -1, 0, []) }

  ghost function Fetched(token: Token, fetches: seq<Fetch>): Client {
    Logged().(token := Some(token), pendingSession := 0, fetches := fetches)
  }

  ghost function TaskAt(at: Point, headers: seq<Option<Token>>, answers: seq<Answer>): Task {
    Task(ApiFetch, Some("a"), 0, if headers == [] then None else Some("a"), 0, at, headers, answers, 0)
  }

  const OVER := Fetch(0, Some("a"), Resolved, true)

  /** The caller waits for its token, which has come. */
  ghost function HasAsked(): World {
    World(Fetched(1, [OVER]), [TaskAt(Ensuring(First, 0), [], [])], map["a" := 1], map[1 := "a"], {1}, [])
  }

  /** The daemon has answered the first fetch. */
  ghost function Answering(): World {
    World(Logged().(pending := Some(0), pendingSession := 0, fetches := [Fetch(0, Some("a"), Answered(Issued(1)), false)]),
          [TaskAt(Ensuring(First, 0), [], [])], map["a" := 1], map[1 := "a"], {}, [])
  }

  lemma RunToAnswer() returns (ws: seq<World>)
    ensures Run(ws) && ws[|ws| - 1] == Answering()
  {
    ws := [World(Logged(), [], map[], map[], {}, [])];
    ws := Extend(ws, Call(ApiFetch));
    ws := Extend(ws, Issue(0, 1));
    assert ws[|ws| - 1].client.fetches == Answering().client.fetches;
  }

  lemma RunToToken(ws: seq<World>) returns (more: seq<World>)
    requires Run(ws) && ws[|ws| - 1] == Answering()
    ensures Run(more) && more[|more| - 1] == HasAsked()
  {
    more := Extend(ws, ReceiveToken(0));
    more := Extend(more, CleanUp(0));
    assert more[|more| - 1].client.fetches == [OVER];
  }

  /** The first send is on its way, and another tab has fetched a token since. */
  ghost function SentOnce(): World {
    World(Fetched(1, [OVER]), [TaskAt(Sent(First), [Some(1)], [])], map["a" := 2], map[1 := "a", 2 := "a"], {1}, [])
  }

  lemma RunToFirst(ws: seq<World>) returns (more: seq<World>)
    requires Run(ws) && ws[|ws| - 1] == HasAsked()
    ensures Run(more) && more[|more| - 1] == SentOnce()
  {
    more := Extend(ws, Resume(0));
    more := Extend(more, Send(0));
    more := Extend(more, OtherTab("a", 2));
    assert more[|more| - 1].tasks[0].headers == [Some(1)];
    assert more[|more| - 1].tasks == SentOnce().tasks && more[|more| - 1].owner == SentOnce().owner;
  }

  /** The refusal has been read and the refused token dropped. */
  ghost function Asking(): World {
    World(Logged().(pending := Some(1), pendingSession := 0, fetches := [OVER, Fetch(0, Some("a"), Requested, false)]),
          [TaskAt(Refetching(1, 1), [Some(1)], [RefusedCsrf])], map["a" := 2], map[1 := "a", 2 := "a"], {1}, [1])
  }

  lemma RunToRefusal(ws: seq<World>) returns (more: seq<World>)
    requires Run(ws) && ws[|ws| - 1] == SentOnce()
    ensures Run(more) && more[|more| - 1] == SentOnce().(tasks := [TaskAt(Refused(1), [Some(1)], [RefusedCsrf])])
  {
    more := Extend(ws, Process(0, RefusedCsrf, false));
    more := Extend(more, Judge(0));
    assert more[|more| - 1].tasks[0].answers == [RefusedCsrf];
    assert more[|more| - 1].tasks == [TaskAt(Refused(1), [Some(1)], [RefusedCsrf])];
  }

  lemma RunToAsking(ws: seq<World>) returns (more: seq<World>)
    requires Run(ws) && ws[|ws| - 1] == SentOnce().(tasks := [TaskAt(Refused(1), [Some(1)], [RefusedCsrf])])
    ensures Run(more) && more[|more| - 1] == Asking()
  {
    more := Extend(ws, Refresh(0));
    var w := more[|more| - 1];
    assert w.tasks == Asking().tasks && w.client.fetches == Asking().client.fetches && w.discards == [1];
  }

  /** A new token has been installed. */
  ghost function Refreshed(): World {
    World(Fetched(3, [OVER, OVER]), [TaskAt(Refetching(1, 1), [Some(1)], [RefusedCsrf])],
          map["a" := 3], map[1 := "a", 2 := "a", 3 := "a"], {1, 3}, [1])
  }

  /** Its fetch has not been cleaned up yet. */
  ghost function Installed(): World {
    Refreshed().(client := Fetched(3, [OVER, OVER.(cleaned := false)]).(pending := Some(1)))
  }

  lemma RunToInstalled(ws: seq<World>) returns (more: seq<World>)
    requires Run(ws) && ws[|ws| - 1] == Asking()
    ensures Run(more) && more[|more| - 1] == Installed()
  {
    more := Extend(ws, Issue(1, 3));
    more := Extend(more, ReceiveToken(1));
    assert more[|more| - 1].client.fetches == Installed().client.fetches;
  }

  lemma RunToRefresh(ws: seq<World>) returns (more: seq<World>)
    requires Run(ws) && ws[|ws| - 1] == Installed()
    ensures Run(more) && more[|more| - 1] == Refreshed()
  {
    more := Extend(ws, CleanUp(1));
    assert more[|more| - 1].client.fetches == [OVER, OVER];
  }

  /** The second send is on its way. */
  ghost function SentAgain(): World {
    Refreshed().(tasks := [TaskAt(Sent(Again(1)), [Some(1), Some(3)], [RefusedCsrf])])
  }

  lemma RunToSecond(ws: seq<World>) returns (more: seq<World>)
    requires Run(ws) && ws[|ws| - 1] == Refreshed()
    ensures Run(more) && more[|more| - 1] == SentAgain()
  {
    more := Extend(ws, Resume(0));
    more := Extend(more, Send(0));
    assert more[|more| - 1].tasks[0].headers == [Some(1), Some(3)];
    assert more[|more| - 1].tasks == SentAgain().tasks;
  }

  /** Another tab fetches a token, the change is refused, sent again with a new token, and takes effect. */
  lemma SentTwice() returns (ws: seq<World>)
    ensures Run(ws)
    ensures var w := ws[|ws| - 1];
            |w.tasks| == 1 && w.tasks[0].at == Returned && w.tasks[0].headers == [Some(1), Some(3)] &&
            w.tasks[0].answers == [RefusedCsrf, Other] && w.tasks[0].effects == 1 && w.client.token == Some(3)
  {
    ws := RunToAnswer();
    ws := RunToToken(ws);
    ws := RunToFirst(ws);
    ws := RunToRefusal(ws);
    ws := RunToAsking(ws);
    ws := RunToInstalled(ws);
    ws := RunToRefresh(ws);
    ws := RunToSecond(ws);
    ws := Extend(ws, Process(0, Other, true));
    ws := Extend(ws, Judge(0));
  }
}
