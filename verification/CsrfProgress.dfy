/** No caller of the CSRF protocol is ever stuck, and none goes on for ever. */
module CsrfProgress {
  import opened Options
  import opened CsrfProtocol
  import opened CsrfSafety
  import opened CsrfTheorems

  // ---------------------------------------------------------------------------
  // A caller takes a bounded number of steps
  // ---------------------------------------------------------------------------

  predicate Done(t: Task) { t.at.Returned? || t.at.Threw? }

  /** How many steps of its own a caller may still take. */
  function Rank(at: Point): nat {
    match at
    case Ensuring(attempt, _) => if attempt.First? then 10 else 4
    case Holding(attempt, _) => if attempt.First? then 9 else 3
    case Sent(attempt) => if attempt.First? then 8 else 2
    case Received(attempt) => if attempt.First? then 7 else 1
    case Refused(_) => 6
    case Refetching(_, _) => 5
    case Returned => 0
    case Threw => 0
  }

  /** The caller whose step it is. */
  function Mover(s: Step): Option<nat> {
    match s
    case Resume(i) => Some(i)
    case Send(i) => Some(i)
    case Process(i, _, _) => Some(i)
    case Judge(i) => Some(i)
    case Refresh(i) => Some(i)
    case _ => None
  }

  lemma OthersLeave(w: World, s: Step, a: nat)
    requires Enabled(w, s) && a < |w.tasks| && Mover(s) != Some(a)
    ensures a < |Apply(w, s).tasks| && Apply(w, s).tasks[a] == w.tasks[a]
  {}

  lemma ResumeDescends(w: World, a: nat)
    requires Enabled(w, Resume(a))
    ensures a < |ApplyResume(w, a).tasks| && Rank(ApplyResume(w, a).tasks[a].at) < Rank(w.tasks[a].at)
  {}

  lemma RefreshDescends(w: World, a: nat)
    requires Enabled(w, Refresh(a))
    ensures a < |ApplyRefresh(w, a).tasks| && Rank(ApplyRefresh(w, a).tasks[a].at) < Rank(w.tasks[a].at)
  {}

  /** A step of its own takes a caller down, and no other step moves it. */
  lemma StepDescends(w: World, s: Step, a: nat)
    requires Enabled(w, s) && a < |w.tasks|
    ensures var w' := Apply(w, s);
            a < |w'.tasks| &&
            if Mover(s) == Some(a) then Rank(w'.tasks[a].at) < Rank(w.tasks[a].at) else w'.tasks[a] == w.tasks[a]
  {
    if Mover(s) != Some(a) {
      OthersLeave(w, s, a);
    } else if s.Resume? {
      ResumeDescends(w, a);
    } else if s.Refresh? {
      RefreshDescends(w, a);
    }
  }

  function TaskOf(w: World, a: nat): Option<Task> { if a < |w.tasks| then Some(w.tasks[a]) else None }

  /** How many steps from i to j have moved caller a. */
  ghost function OwnSteps(ws: seq<World>, a: nat, i: nat, j: nat): nat
    requires i <= j < |ws|
    decreases j
  {
    if i == j then 0 else OwnSteps(ws, a, i, j - 1) + if TaskOf(ws[j], a) != TaskOf(ws[j - 1], a) then 1 else 0
  }

  lemma RankAtMostTen(at: Point)
    ensures Rank(at) <= 10
  {}

  /** The caller stays, and pays for every step of its own with its rank. */
  ghost predicate Pays(w: World, w': World, a: nat) {
    a < |w.tasks| ==>
      a < |w'.tasks| &&
      (if TaskOf(w', a) != TaskOf(w, a) then 1 else 0) + Rank(w'.tasks[a].at) <= Rank(w.tasks[a].at)
  }

  lemma NextPays(w: World, w': World, a: nat)
    requires Next(w, w')
    ensures Pays(w, w', a)
  {
    if a < |w.tasks| {
      var s :| Enabled(w, s) && w' == Apply(w, s);
      StepDescends(w, s, a);
    }
  }

  lemma {:induction false} PaidSteps(ws: seq<World>, a: nat, i: nat, j: nat)
    requires i <= j < |ws| && a < |ws[i].tasks| && forall k :: 0 < k < |ws| ==> Pays(ws[k - 1], ws[k], a)
    ensures a < |ws[j].tasks| && OwnSteps(ws, a, i, j) + Rank(ws[j].tasks[a].at) <= Rank(ws[i].tasks[a].at)
    decreases j
  {
    if i < j {
      PaidSteps(ws, a, i, j - 1);
      assert Pays(ws[j - 1], ws[j], a);
    }
  }

  /** Over any stretch of any run a caller takes at most ten steps of its own. */
  lemma {:induction false} FewSteps(ws: seq<World>, a: nat, i: nat, j: nat)
    requires Run(ws) && i <= j < |ws| && a < |ws[i].tasks|
    ensures a < |ws[j].tasks| && OwnSteps(ws, a, i, j) + Rank(ws[j].tasks[a].at) <= Rank(ws[i].tasks[a].at) <= 10
  {
    RankAtMostTen(ws[i].tasks[a].at);
    forall k | 0 < k < |ws|
      ensures Pays(ws[k - 1], ws[k], a)
    {
      assert Next(ws[k - 1], ws[k - 1 + 1]);
      NextPays(ws[k - 1], ws[k], a);
    }
    PaidSteps(ws, a, i, j);
  }

  // ---------------------------------------------------------------------------
  // There is always a next step
  // ---------------------------------------------------------------------------

  /** The answers a fetch still lacks. */
  function ToSettle(c: Client, f: FetchId): nat {
    if f >= |c.fetches| then 0 else if c.fetches[f].status.Requested? then 2 else if c.fetches[f].status.Answered? then 1 else 0
  }

  function Awaited(w: World, t: Task): nat {
    if t.at.Ensuring? || t.at.Refetching? then ToSettle(w.client, t.at.fetch) else 0
  }

  /** The steps that take caller a to its end, counting those of the fetch it waits for. */
  function Left(w: World, a: nat): nat
    requires a < |w.tasks|
  {
    3 * Rank(w.tasks[a].at) + Awaited(w, w.tasks[a])
  }

  lemma {:induction false} FreshToken(used: set<Token>) returns (t: Token)
    ensures t !in used && forall u :: u in used ==> u < t
    decreases |used|
  {
    if used == {} {
      t := 0;
    } else {
      var u :| u in used;
      var rest := FreshToken(used - {u});
      t := if rest <= u then u + 1 else rest;
      forall v | v in used
        ensures v < t
      {
        assert v == u || v in used - {u};
      }
    }
  }

  lemma OwnStepNears(w: World, s: Step, a: nat)
    requires Enabled(w, s) && a < |w.tasks| && Mover(s) == Some(a)
    ensures a < |Apply(w, s).tasks| && Left(Apply(w, s), a) < Left(w, a)
  {
    StepDescends(w, s, a);
    var w' := Apply(w, s);
    assert Awaited(w', w'.tasks[a]) <= 2;
  }

  /** A caller that has not ended has a step of its own, or the fetch it waits for has one, which a
      daemon that answers will take; either brings its end nearer. */
  lemma HasStep(w: World, a: nat) returns (s: Step)
    requires Inv(w) && a < |w.tasks| && !Done(w.tasks[a])
    ensures Enabled(w, s) && (Mover(s) == Some(a) || Waits(w, a))
    ensures a < |Apply(w, s).tasks| && Left(Apply(w, s), a) < Left(w, a)
  {
    var t := w.tasks[a];
    assert TaskInv(w, t);
    if t.at.Ensuring? || t.at.Refetching? {
      s := FetchStep(w, a, t.at.fetch);
      StepDescends(w, s, a);
    } else {
      s := OwnStep(w, a);
    }
    if Mover(s) == Some(a) {
      OwnStepNears(w, s, a);
    }
  }

  lemma OwnStep(w: World, a: nat) returns (s: Step)
    requires Inv(w) && a < |w.tasks| && !Done(w.tasks[a]) && !w.tasks[a].at.Ensuring? && !w.tasks[a].at.Refetching?
    ensures Enabled(w, s) && Mover(s) == Some(a)
  {
    var t := w.tasks[a];
    assert TaskInv(w, t);
    s := if t.at.Holding? then Send(a) else if t.at.Sent? then Process(a, Other, false)
         else if t.at.Received? then Judge(a) else Refresh(a);
  }

  lemma FetchStep(w: World, a: nat, f: FetchId) returns (s: Step)
    requires Inv(w) && a < |w.tasks| && f < |w.client.fetches|
    requires (w.tasks[a].at.Ensuring? || w.tasks[a].at.Refetching?) && w.tasks[a].at.fetch == f
    ensures Enabled(w, s)
    ensures if InFlight(w.client, f) then Mover(s) == None && ToSettle(Apply(w, s).client, f) < ToSettle(w.client, f)
            else s == Resume(a)
    ensures s.Issue? || s.ReceiveToken? ==> s.fetch == f
  {
    if w.client.fetches[f].status.Requested? {
      assert InFlight(w.client, f);
      var t := FreshToken(w.owner.Keys);
      s := Issue(f, t);
    } else if w.client.fetches[f].status.Answered? {
      s := ReceiveToken(f);
    } else {
      s := Resume(a);
    }
  }

  ghost predicate LeftOf(w: World, a: nat, left: nat) { a < |w.tasks| && Left(w, a) <= left }

  predicate Ended(w: World, a: nat) { a < |w.tasks| && Done(w.tasks[a]) }

  lemma GoOn(ws: seq<World>, a: nat, left: nat) returns (more: seq<World>)
    requires Run(ws) && LeftOf(ws[|ws| - 1], a, left) && !Ended(ws[|ws| - 1], a)
    ensures Run(more) && ws <= more && left > 0 && LeftOf(more[|more| - 1], a, left - 1)
  {
    var w := ws[|ws| - 1];
    RunKeeps(ws, |ws| - 1);
    var s := HasStep(w, a);
    more := Extend(ws, s);
    assert more[|more| - 1] == Apply(w, s);
  }

  lemma {:induction false} FinishWithin(ws: seq<World>, a: nat, left: nat) returns (more: seq<World>)
    requires Run(ws) && LeftOf(ws[|ws| - 1], a, left)
    ensures Run(more) && ws <= more && Ended(more[|more| - 1], a)
    decreases left
  {
    more := ws;
    if !Ended(ws[|ws| - 1], a) {
      var longer := GoOn(ws, a, left);
      more := FinishWithin(longer, a, left - 1);
    }
  }

  /** Whatever has happened, the run can go on so that the caller returns or throws. */
  lemma CanFinish(ws: seq<World>, a: nat) returns (more: seq<World>)
    requires Run(ws) && a < |ws[|ws| - 1].tasks|
    ensures Run(more) && ws <= more && Ended(more[|more| - 1], a)
  {
    more := FinishWithin(ws, a, Left(ws[|ws| - 1], a));
  }

  // ---------------------------------------------------------------------------
  // Fair runs end every caller
  // ---------------------------------------------------------------------------

  /** A step of caller a, or of the fetch it waits for. */
  predicate Helps(w: World, s: Step, a: nat) {
    a < |w.tasks| &&
    (Mover(s) == Some(a) ||
     ((w.tasks[a].at.Ensuring? || w.tasks[a].at.Refetching?) &&
      match s
      case Issue(f, _) => f == w.tasks[a].at.fetch
      case Fail(f) => f == w.tasks[a].at.fetch
      case ReceiveToken(f) => f == w.tasks[a].at.fetch
      case _ => false))
  }

  lemma FetchesStay(w: World, s: Step, f: FetchId)
    requires Enabled(w, s) && f < |w.client.fetches|
    ensures f < |Apply(w, s).client.fetches| && ToSettle(Apply(w, s).client, f) <= ToSettle(w.client, f)
  {}

  lemma FetchSettles(w: World, s: Step, f: FetchId)
    requires Enabled(w, s) && f < |w.client.fetches| && (s.Issue? || s.Fail? || s.ReceiveToken?) && s.fetch == f
    ensures ToSettle(Apply(w, s).client, f) < ToSettle(w.client, f)
  {}

  /** No step takes a caller farther from its end, and a step that helps brings it nearer. */
  lemma StepNears(w: World, s: Step, a: nat)
    requires Inv(w) && Enabled(w, s) && a < |w.tasks|
    ensures a < |Apply(w, s).tasks| && Left(Apply(w, s), a) <= Left(w, a)
    ensures Helps(w, s, a) ==> Left(Apply(w, s), a) < Left(w, a)
  {
    assert TaskInv(w, w.tasks[a]);
    if Mover(s) == Some(a) {
      OwnStepNears(w, s, a);
    } else {
      StepDescends(w, s, a);
      if w.tasks[a].at.Ensuring? || w.tasks[a].at.Refetching? {
        FetchesStay(w, s, w.tasks[a].at.fetch);
        if Helps(w, s, a) {
          FetchSettles(w, s, w.tasks[a].at.fetch);
        }
      }
    }
  }

  type Behaviour = nat -> World

  ghost predicate NextAt(ws: Behaviour, i: nat) { Next(ws(i), ws(i + 1)) }

  /** A run that goes on for ever. */
  ghost predicate Endless(ws: Behaviour) { Start(ws(0)) && forall i: nat :: NextAt(ws, i) }

  /** Some step helps caller a in state i. */
  ghost predicate HelpAt(ws: Behaviour, a: nat, i: nat) { exists s :: Enabled(ws(i), s) && Helps(ws(i), s, a) }

  /** The step from state i helps caller a. */
  ghost predicate ServedAt(ws: Behaviour, a: nat, i: nat) {
    exists s :: Enabled(ws(i), s) && Helps(ws(i), s, a) && ws(i + 1) == Apply(ws(i), s)
  }

  /** Whenever some step helps caller a, one that does is taken later on. */
  ghost predicate Fair(ws: Behaviour, a: nat) {
    forall i: nat :: HelpAt(ws, a, i) ==> exists j: nat :: i <= j && ServedAt(ws, a, j)
  }

  lemma NextKeeps(w: World, w': World)
    requires Inv(w) && Next(w, w')
    ensures Inv(w')
  {
    var s :| Enabled(w, s) && w' == Apply(w, s);
    StepKeeps(w, s);
  }

  lemma {:induction false} EndlessKeeps(ws: Behaviour, i: nat)
    requires Endless(ws)
    ensures Inv(ws(i))
    decreases i
  {
    if i == 0 {
      assert Run([ws(0)]);
      RunKeeps([ws(0)], 0);
    } else {
      EndlessKeeps(ws, i - 1);
      assert NextAt(ws, i - 1);
      NextKeeps(ws(i - 1), ws(i));
    }
  }

  lemma NotFarther(ws: Behaviour, a: nat, i: nat, left: nat)
    requires Endless(ws) && LeftOf(ws(i), a, left)
    ensures LeftOf(ws(i + 1), a, left)
  {
    EndlessKeeps(ws, i);
    assert NextAt(ws, i);
    var s :| Enabled(ws(i), s) && ws(i + 1) == Apply(ws(i), s);
    StepNears(ws(i), s, a);
  }

  lemma Nearer(ws: Behaviour, a: nat, i: nat, left: nat)
    requires Endless(ws) && LeftOf(ws(i), a, left) && ServedAt(ws, a, i)
    ensures left > 0 && LeftOf(ws(i + 1), a, left - 1)
  {
    EndlessKeeps(ws, i);
    var s :| Enabled(ws(i), s) && Helps(ws(i), s, a) && ws(i + 1) == Apply(ws(i), s);
    StepNears(ws(i), s, a);
  }

  lemma {:induction false} LeftStays(ws: Behaviour, a: nat, i: nat, j: nat, left: nat)
    requires Endless(ws) && i <= j && LeftOf(ws(i), a, left)
    ensures LeftOf(ws(j), a, left)
    decreases j
  {
    if i < j {
      LeftStays(ws, a, i, j - 1, left);
      NotFarther(ws, a, j - 1, left);
    }
  }

  lemma HasHelp(ws: Behaviour, a: nat, i: nat)
    requires Inv(ws(i)) && a < |ws(i).tasks| && !Done(ws(i).tasks[a])
    ensures HelpAt(ws, a, i)
  {
    var (w, t) := (ws(i), ws(i).tasks[a]);
    assert TaskInv(w, t);
    if t.at.Ensuring? || t.at.Refetching? {
      var s := FetchStep(w, a, t.at.fetch);
      assert Enabled(w, s) && Helps(w, s, a);
    } else {
      var s := OwnStep(w, a);
      assert Enabled(w, s) && Helps(w, s, a);
    }
  }

  lemma NearerLater(ws: Behaviour, a: nat, i: nat, left: nat) returns (j: nat)
    requires Endless(ws) && Fair(ws, a) && LeftOf(ws(i), a, left) && !Ended(ws(i), a)
    ensures j > i && left > 0 && LeftOf(ws(j), a, left - 1)
  {
    EndlessKeeps(ws, i);
    HasHelp(ws, a, i);
    var k: nat :| i <= k && ServedAt(ws, a, k);
    LeftStays(ws, a, i, k, left);
    Nearer(ws, a, k, left);
    j := k + 1;
  }

  lemma {:induction false} EndsWithin(ws: Behaviour, a: nat, i: nat, left: nat) returns (end: nat)
    requires Endless(ws) && Fair(ws, a) && LeftOf(ws(i), a, left)
    ensures end >= i && Ended(ws(end), a)
    decreases left
  {
    end := i;
    if !Ended(ws(i), a) {
      var j := NearerLater(ws, a, i, left);
      end := EndsWithin(ws, a, j, left - 1);
    }
  }

  /** In every endless run that is fair to a caller, the caller returns or throws. */
  lemma FairRunEnds(ws: Behaviour, a: nat, i: nat) returns (end: nat)
    requires Endless(ws) && Fair(ws, a) && a < |ws(i).tasks|
    ensures end >= i && Ended(ws(end), a)
  {
    end := EndsWithin(ws, a, i, Left(ws(i), a));
  }
}
