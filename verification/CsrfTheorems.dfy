/** The CSRF protocol over whole runs. */
module CsrfTheorems {
  import opened Options
  import opened CsrfProtocol
  import opened CsrfSafety

  lemma {:induction false} RunKeeps(ws: seq<World>, i: nat)
    requires Run(ws) && i < |ws|
    ensures Inv(ws[i])
  {
    if i > 0 {
      RunKeeps(ws, i - 1);
      assert Next(ws[i - 1], ws[i]);
      var s :| Enabled(ws[i - 1], s) && ws[i] == Apply(ws[i - 1], s);
      StepKeeps(ws[i - 1], s);
    }
  }

  /** A token the client holds was issued for the session it is logged in to. */
  lemma TokenOfCurrentSession(ws: seq<World>, i: nat)
    requires Run(ws) && i < |ws| && ws[i].client.token.Some?
    ensures ws[i].client.token.value in ws[i].owner
    ensures GetSessionId(ws[i].client) == Some(ws[i].owner[ws[i].client.token.value])
  {
    RunKeeps(ws, i);
  }

  /** A response that arrives for an earlier generation installs nothing; one for the current
      generation installs a token issued for the current session. */
  lemma LateResponse(ws: seq<World>, i: nat, f: FetchId, t: Token)
    requires Run(ws) && i < |ws| && Carries(ws[i].client, f, t)
    ensures ws[i].client.fetches[f].session <= ws[i].client.session
    ensures ws[i].client.fetches[f].session < ws[i].client.session ==>
              Receive(ws[i].client, f).token == ws[i].client.token
    ensures ws[i].client.fetches[f].session == ws[i].client.session ==>
              Receive(ws[i].client, f).token == Some(t) && t in ws[i].owner &&
              GetSessionId(ws[i].client) == Some(ws[i].owner[t])
  {
    RunKeeps(ws, i);
  }

  ghost predicate Waits(w: World, a: nat) {
    a < |w.tasks| && (w.tasks[a].at.Ensuring? || w.tasks[a].at.Refetching?) && InFlight(w.client, w.tasks[a].at.fetch)
  }

  /** At most one fetch is in flight per generation; the one of the current generation is the
      pending one. */
  lemma OneFetchPerGeneration(ws: seq<World>, i: nat, f: FetchId, g: FetchId)
    requires Run(ws) && i < |ws| && InFlight(ws[i].client, f) && InFlight(ws[i].client, g)
    ensures ws[i].client.fetches[f].session == ws[i].client.fetches[g].session ==> f == g
    ensures ws[i].client.fetches[f].session == ws[i].client.session ==> ws[i].client.pending == Some(f)
  {
    RunKeeps(ws, i);
  }

  /** The callers of a generation that wait for a fetch in flight all wait for the same one. */
  lemma WaitTogether(ws: seq<World>, i: nat, a: nat, b: nat)
    requires Run(ws) && i < |ws| && Waits(ws[i], a) && Waits(ws[i], b)
    ensures var (f, g) := (ws[i].tasks[a].at.fetch, ws[i].tasks[b].at.fetch);
            ws[i].client.fetches[f].session == ws[i].client.fetches[g].session <==> f == g
  {
    RunKeeps(ws, i);
  }

  /** A call of fetchCsrf now gets a fetch of this generation: the one in flight if there is one. */
  lemma CallJoins(ws: seq<World>, i: nat, f: FetchId)
    requires Run(ws) && i < |ws|
    ensures var (c, g) := FetchCsrf(ws[i].client);
            g < |c.fetches| && c.fetches[g].session == ws[i].client.session && c.pending == Some(g)
    ensures InFlight(ws[i].client, f) && ws[i].client.fetches[f].session == ws[i].client.session ==>
              FetchCsrf(ws[i].client) == (ws[i].client, f)
  {
    RunKeeps(ws, i);
    FetchCsrfShares(ws[i].client);
  }

  /** The end of a fetch of another generation leaves the pending entry alone. */
  lemma OldFetchEnds(ws: seq<World>, i: nat, f: FetchId)
    requires Run(ws) && i < |ws| && Enabled(ws[i], CleanUp(f))
    requires ws[i].client.fetches[f].session != ws[i].client.pendingSession
    ensures Clean(ws[i].client, f).pending == ws[i].client.pending
  {
    RunKeeps(ws, i);
  }

  lemma DiscardsGrow(w: World, s: Step)
    requires Enabled(w, s)
    ensures w.discards <= Apply(w, s).discards
  {}

  lemma {:induction false} DiscardsStay(ws: seq<World>, i: nat, j: nat)
    requires Run(ws) && i <= j < |ws|
    ensures ws[i].discards <= ws[j].discards
    decreases j
  {
    if i < j {
      DiscardsStay(ws, i, j - 1);
      assert Next(ws[j - 1], ws[j]);
      var s :| Enabled(ws[j - 1], s) && ws[j] == Apply(ws[j - 1], s);
      DiscardsGrow(ws[j - 1], s);
    }
  }

  /** However many requests were refused with it, a token is discarded at most once, and it is
      never held again. */
  lemma RefusedOnceAndGone(ws: seq<World>, i: nat, j: nat, t: Token)
    requires Run(ws) && i <= j < |ws| && t in ws[i].discards
    ensures NoRepeats(ws[j].discards) && t in ws[j].discards && ws[j].client.token != Some(t)
  {
    RunKeeps(ws, j);
    DiscardsStay(ws, i, j);
  }

  /** A change is sent at most twice, the second time only after a refusal and with another
      token; it takes effect at most once, and only under its own session's token. */
  lemma ChangeAtMostOnce(ws: seq<World>, i: nat, a: nat)
    requires Run(ws) && i < |ws| && a < |ws[i].tasks|
    ensures var t := ws[i].tasks[a];
            |t.headers| <= 2 && t.effects <= 1 &&
            (|t.headers| == 2 ==> |t.answers| >= 1 && t.answers[0] == RefusedCsrf &&
                                  t.headers[0].Some? && t.headers[1].Some? && t.headers[0] != t.headers[1]) &&
            (t.effects > 0 && Present(t.sid) ==> |t.headers| > 0 && Paired(ws[i], t, t.headers[|t.headers| - 1]))
  {
    RunKeeps(ws, i);
    assert TaskInv(ws[i], ws[i].tasks[a]);
  }

  /** The two headers of a change belong together exactly when the session id was still the
      same when the token was read, so in any case within one generation. */
  lemma HeadersPaired(ws: seq<World>, i: nat, a: nat)
    requires Run(ws) && i < |ws| && a < |ws[i].tasks|
    requires ws[i].tasks[a].at.Sent? && Present(ws[i].tasks[a].sid)
    requires |ws[i].tasks[a].headers| > 0 && ws[i].tasks[a].headers[|ws[i].tasks[a].headers| - 1].Some?
    ensures var t := ws[i].tasks[a];
            (Paired(ws[i], t, t.headers[|t.headers| - 1]) <==> t.sid == t.read) &&
            (t.readIn == t.born ==> t.sid == t.read)
  {
    RunKeeps(ws, i);
    assert TaskInv(ws[i], ws[i].tasks[a]);
  }

  // ---------------------------------------------------------------------------
  // A run in which the two headers do not belong together
  // ---------------------------------------------------------------------------

  lemma Extend(ws: seq<World>, s: Step) returns (more: seq<World>)
    requires Run(ws) && Enabled(ws[|ws| - 1], s)
    ensures Run(more) && more == ws + [Apply(ws[|ws| - 1], s)]
  {
    more := ws + [Apply(ws[|ws| - 1], s)];
    assert Next(ws[|ws| - 1], Apply(ws[|ws| - 1], s));
  }

  /** A login that is not persistent while another id is kept for all tabs: the id read back is the other one. */
  lemma ShadowedLogin() returns (ws: seq<World>)
    ensures Run(ws) && |ws| == 2 && ws[0].client.local == Some("x")
    ensures ws[1] == Apply(ws[0], Login("y", false)) && GetSessionId(ws[1].client) == Some("x")
  {
    ws := [World(Client(Some("x"), None, None, None, -1, 0, []), [], map[], map[], {}, [])];
    ws := Extend(ws, Login("y", false));
    assert "x"[0] != "y"[0];
  }

  /** Two changes wait, each for the fetch of its own session. */
  ghost function TwoWaiting(): World {
    World(Client(None, Some("b"), None, Some(1), 1, 1,
                 [Fetch(0, Some("a"), Requested, false), Fetch(1, Some("b"), Requested, false)]),
          [Task(ApiFetch, Some("a"), 0, None, 0, Ensuring(First, 0), [], [], 0),
           Task(ApiFetch, Some("b"), 1, None, 0, Ensuring(First, 1), [], [], 0)],
          map[], map[], {}, [])
  }

  lemma BothWait() returns (ws: seq<World>)
    ensures Run(ws) && ws[|ws| - 1] == TwoWaiting()
  {
    ws := [World(Client(None, Some("a"), None, None, -1, 0, []), [], map[], map[], {}, [])];
    ws := Extend(ws, Call(ApiFetch));
    ws := Extend(ws, Login("b", false));
    ws := Extend(ws, Call(ApiFetch));
    assert ws[|ws| - 1].tasks == TwoWaiting().tasks;
  }

  /** Both fetches are over; only b's token was installed. */
  ghost function BothAnswered(): World {
    World(Client(None, Some("b"), Some(1), Some(1), 1, 1,
                 [Fetch(0, Some("a"), Resolved, false), Fetch(1, Some("b"), Resolved, false)]),
          TwoWaiting().tasks, map["b" := 1, "a" := 2], map[1 := "b", 2 := "a"], {1}, [])
  }

  lemma BothAnswer(ws: seq<World>) returns (more: seq<World>)
    requires Run(ws) && ws[|ws| - 1] == TwoWaiting()
    ensures Run(more) && more[|more| - 1] == BothAnswered()
  {
    more := Extend(ws, Issue(1, 1));
    more := Extend(more, ReceiveToken(1));
    more := Extend(more, Issue(0, 2));
    more := Extend(more, ReceiveToken(0));
    assert more[|more| - 1].client.fetches == BothAnswered().client.fetches;
  }

  /** A change starts under session "a" and waits; the user logs in as "b"; another change
      fetches b's token; the first change then sends a's session id with b's token. */
  lemma MispairedRun() returns (ws: seq<World>)
    ensures Run(ws)
    ensures var w := ws[|ws| - 1];
            |w.tasks| == 2 && w.tasks[0].at == Sent(First) && w.tasks[0].sid == Some("a") &&
            w.tasks[0].headers == [Some(1)] && 1 in w.owner && w.owner[1] == "b" &&
            !Paired(w, w.tasks[0], w.tasks[0].headers[0])
  {
    ws := BothWait();
    ws := BothAnswer(ws);
    ws := Extend(ws, Resume(0));
    ws := Extend(ws, Send(0));
  }
}
