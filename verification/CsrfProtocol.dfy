/** The CSRF token of the web client as a protocol: one tab whose callers interleave at every
    await, a daemon that replaces a session's token with every fetch, logins and logouts, and
    other tabs that fetch tokens of their own. A step is what runs between two awaits. */
module CsrfProtocol {
  import opened Options

  type SessionId = string

  /** The daemon never issues the same token twice, so a number stands for one. */
  type Token = nat

  /** An index into the list of CSRF fetches made so far: the promise fetchCsrf returns. */
  type FetchId = nat

  // ---------------------------------------------------------------------------
  // The module variables of the client
  // ---------------------------------------------------------------------------

  /** Failed covers an error status, a body without a token, and a broken connection. */
  datatype Reply = Issued(token: Token) | Failed

  datatype Status = Requested | Answered(reply: Reply) | Resolved | Rejected {
    predicate InFlight() { Requested? || Answered? }
  }

  datatype Fetch = Fetch(session: nat, sid: Option<SessionId>, status: Status, cleaned: bool)

  datatype Client = Client(
    local: Option<SessionId>,
    tab: Option<SessionId>,
    token: Option<Token>,
    pending: Option<FetchId>,
    pendingSession: int,
    session: nat,
    fetches: seq<Fetch>)

  /** An id that is missing or empty is none. */
  predicate Present(sid: Option<SessionId>) { sid.Some? && sid.value != "" }

  function GetSessionId(c: Client): Option<SessionId> {
    if c.local.Some? then c.local else c.tab
  }

  function FetchCsrf(c: Client): (Client, FetchId) {
    if c.pending.Some? && c.pendingSession == c.session then (c, c.pending.value)
    else
      var sid := GetSessionId(c);
      var id := |c.fetches|;
      var f := Fetch(c.session, sid, if Present(sid) then Requested else Resolved, false);
      (c.(token := if Present(sid) then c.token else None, fetches := c.fetches + [f],
          pending := Some(id), pendingSession := c.session), id)
  }

  /** The rest of the fetch, once the daemon has answered. */
  function Receive(c: Client, id: FetchId): Client
    requires id < |c.fetches| && c.fetches[id].status.Answered?
  {
    var f := c.fetches[id];
    match f.status.reply
    case Issued(t) =>
      c.(fetches := c.fetches[id := f.(status := Resolved)],
         token := if f.session == c.session then Some(t) else c.token)
    case Failed =>
      c.(fetches := c.fetches[id := f.(status := Rejected)])
  }

  /** The finally handler of the fetch. */
  function Clean(c: Client, id: FetchId): Client
    requires id < |c.fetches|
  {
    c.(fetches := c.fetches[id := c.fetches[id].(cleaned := true)],
       pending := if c.pending == Some(id) then None else c.pending)
  }

  function StoreSession(c: Client, sid: SessionId, persistent: bool): Client {
    c.(local := if persistent then Some(sid) else c.local, tab := if persistent then c.tab else Some(sid),
       token := None, session := c.session + 1)
  }

  function ClearSession(c: Client): Client {
    c.(local := None, tab := None, token := None, session := c.session + 1)
  }

  // ---------------------------------------------------------------------------
  // The callers: apiFetch and sessionFetch making a change
  // ---------------------------------------------------------------------------

  datatype Caller = ApiFetch | SessionFetch

  /** Which of the two sends a token is for; the second follows a refusal. */
  datatype Attempt = First | Again(refused: Token)

  datatype Answer = RefusedCsrf | Unauthorized | NoConnection | Other

  datatype Point =
    | Ensuring(attempt: Attempt, fetch: FetchId)  // ensureCsrfToken awaits fetchCsrf
    | Refetching(refused: Token, fetch: FetchId)  // refreshCsrfToken awaits fetchCsrf
    | Holding(attempt: Attempt, token: Token)     // ensureCsrfToken has returned
    | Sent(attempt: Attempt)
    | Received(attempt: Attempt)
    | Refused(token: Token)                       // the refusal has been read
    | Returned
    | Threw

  /** sid is the X-Session-ID header and born the generation it was read in; read and readIn
      are the session id and the generation when the token was last read. headers, answers
      and effects record what was sent, what came back, and how often it was applied. */
  datatype Task = Task(
    caller: Caller,
    sid: Option<SessionId>,
    born: nat,
    read: Option<SessionId>,
    readIn: nat,
    at: Point,
    headers: seq<Option<Token>>,
    answers: seq<Answer>,
    effects: nat)

  // ---------------------------------------------------------------------------
  // The world and its steps
  // ---------------------------------------------------------------------------

  /** current is what the daemon accepts, owner every token issued so far; installed and
      discards record the tokens the client has held and dropped after a refusal. */
  datatype World = World(
    client: Client,
    tasks: seq<Task>,
    current: map<SessionId, Token>,
    owner: map<Token, SessionId>,
    installed: set<Token>,
    discards: seq<Token>)

  datatype Step =
    | Call(caller: Caller)
    | InitCsrf
    | Resume(task: nat)
    | Send(task: nat)
    | Process(task: nat, answer: Answer, applied: bool)
    | Judge(task: nat)
    | Refresh(task: nat)
    | Issue(fetch: FetchId, token: Token)
    | Fail(fetch: FetchId)
    | ReceiveToken(fetch: FetchId)
    | CleanUp(fetch: FetchId)
    | Login(sid: SessionId, persistent: bool)
    | Logout
    | OtherTab(sid: SessionId, token: Token)

  /** ensureCsrfToken up to its first await: the point the caller reaches. */
  function Ensure(c: Client, attempt: Attempt): (Client, Point) {
    if c.token.Some? then (c, Holding(attempt, c.token.value))
    else var (c', f) := FetchCsrf(c); (c', Ensuring(attempt, f))
  }

  /** refreshCsrfToken up to its first await, and whether it dropped the token. */
  function RefreshToken(c: Client, refused: Token): (Client, Point, bool) {
    if c.token == Some(refused) then
      var (c', f) := FetchCsrf(c.(token := None)); (c', Refetching(refused, f), true)
    else var (c', at) := Ensure(c, Again(refused)); (c', at, false)
  }

  predicate Settled(c: Client, id: FetchId) {
    id < |c.fetches| && !c.fetches[id].status.InFlight()
  }

  /** What the daemon may do with a change. It refuses a token that is not the current one of
      the session named beside it, and applies a change that names a session only with it. */
  predicate Allowed(w: World, t: Task, answer: Answer, applied: bool)
    requires |t.headers| > 0
  {
    var header := t.headers[|t.headers| - 1];
    var good := Present(t.sid) && t.sid.value in w.current && header == Some(w.current[t.sid.value]);
    (answer == RefusedCsrf ==> !good) &&
    (applied ==> (answer == Other || answer == NoConnection) && (good || !Present(t.sid)))
  }

  predicate Enabled(w: World, s: Step) {
    match s
    case Call(_) => true
    case InitCsrf => true
    case Resume(i) =>
      i < |w.tasks| && (w.tasks[i].at.Ensuring? || w.tasks[i].at.Refetching?) && Settled(w.client, w.tasks[i].at.fetch)
    case Send(i) => i < |w.tasks| && w.tasks[i].at.Holding?
    case Process(i, answer, applied) =>
      i < |w.tasks| && w.tasks[i].at.Sent? && |w.tasks[i].headers| > 0 && Allowed(w, w.tasks[i], answer, applied)
    case Judge(i) => i < |w.tasks| && w.tasks[i].at.Received? && |w.tasks[i].headers| > 0 && |w.tasks[i].answers| > 0
    case Refresh(i) => i < |w.tasks| && w.tasks[i].at.Refused?
    case Issue(f, t) =>
      f < |w.client.fetches| && w.client.fetches[f].status.Requested? && Present(w.client.fetches[f].sid) && t !in w.owner
    case Fail(f) => f < |w.client.fetches| && w.client.fetches[f].status.Requested?
    case ReceiveToken(f) => f < |w.client.fetches| && w.client.fetches[f].status.Answered?
    case CleanUp(f) => Settled(w.client, f) && !w.client.fetches[f].cleaned
    case Login(_, _) => true
    case Logout => true
    case OtherTab(_, t) => t !in w.owner
  }

  function SetFetch(w: World, f: FetchId, status: Status): World
    requires f < |w.client.fetches|
  {
    w.(client := w.client.(fetches := w.client.fetches[f := w.client.fetches[f].(status := status)]))
  }

  function Moved(w: World, i: nat, c: Client, at: Point): World
    requires i < |w.tasks|
  {
    var t := w.tasks[i];
    var t' := if at.Holding? then t.(at := at, read := GetSessionId(c), readIn := c.session) else t.(at := at);
    w.(client := c, tasks := w.tasks[i := t'])
  }

  function ApplyCall(w: World, caller: Caller): World {
    var sid := GetSessionId(w.client);
    var t := Task(caller, sid, w.client.session, None, 0, Returned, [], [], 0);
    if Present(sid) then
      var (c, at) := Ensure(w.client, First);
      Moved(w.(tasks := w.tasks + [t]), |w.tasks|, c, at)
    else w.(tasks := w.tasks + [t.(at := Sent(First), headers := [None])])
  }

  function ApplyResume(w: World, i: nat): World
    requires Enabled(w, Resume(i))
  {
    var at := w.tasks[i].at;
    if w.client.fetches[at.fetch].status.Rejected? then Moved(w, i, w.client, Threw)
    else if at.Ensuring? then
      if w.client.token.Some? then Moved(w, i, w.client, Holding(at.attempt, w.client.token.value))
      else Moved(w, i, w.client, Threw)
    else var (c, at') := Ensure(w.client, Again(at.refused)); Moved(w, i, c, at')
  }

  function ApplySend(w: World, i: nat): World
    requires Enabled(w, Send(i))
  {
    var t := w.tasks[i];
    w.(tasks := w.tasks[i := t.(at := Sent(t.at.attempt), headers := t.headers + [Some(t.at.token)])])
  }

  function ApplyProcess(w: World, i: nat, answer: Answer, applied: bool): World
    requires Enabled(w, Process(i, answer, applied))
  {
    var t := w.tasks[i];
    w.(tasks := w.tasks[i := t.(at := Received(t.at.attempt), answers := t.answers + [answer],
                                effects := t.effects + if applied then 1 else 0)])
  }

  /** Where the last answer takes the caller. Only the first send is repeated. */
  function Verdict(t: Task): (at: Point)
    requires t.at.Received? && |t.headers| > 0 && |t.answers| > 0
    ensures !at.Holding?
  {
    var (header, answer) := (t.headers[|t.headers| - 1], t.answers[|t.answers| - 1]);
    if answer == RefusedCsrf && t.at.attempt.First? && header.Some? then Refused(header.value)
    else if answer == NoConnection || LogsOut(t) then Threw
    else Returned
  }

  /** A 401 ends the session, but sessionFetch leaves that to its caller. */
  predicate LogsOut(t: Task)
    requires |t.answers| > 0
  {
    t.caller == ApiFetch && t.answers[|t.answers| - 1] == Unauthorized
  }

  function ApplyJudge(w: World, i: nat): World
    requires Enabled(w, Judge(i))
  {
    var t := w.tasks[i];
    Moved(w, i, if LogsOut(t) then ClearSession(w.client) else w.client, Verdict(t))
  }

  function ApplyRefresh(w: World, i: nat): World
    requires Enabled(w, Refresh(i))
  {
    var refused := w.tasks[i].at.token;
    var (c, at, discarded) := RefreshToken(w.client, refused);
    Moved(w.(discards := if discarded then w.discards + [refused] else w.discards), i, c, at)
  }

  function ApplyReceive(w: World, f: FetchId): World
    requires Enabled(w, ReceiveToken(f))
  {
    var c := Receive(w.client, f);
    w.(client := c, installed := w.installed + if c.token.Some? then {c.token.value} else {})
  }

  function Apply(w: World, s: Step): World
    requires Enabled(w, s)
  {
    match s
    case Call(caller) => ApplyCall(w, caller)
    case InitCsrf => w.(client := FetchCsrf(w.client).0)
    case Resume(i) => ApplyResume(w, i)
    case Send(i) => ApplySend(w, i)
    case Process(i, answer, applied) => ApplyProcess(w, i, answer, applied)
    case Judge(i) => ApplyJudge(w, i)
    case Refresh(i) => ApplyRefresh(w, i)
    case Issue(f, t) =>
      var sid := w.client.fetches[f].sid.value;
      SetFetch(w, f, Answered(Issued(t))).(current := w.current[sid := t], owner := w.owner[t := sid])
    case Fail(f) => SetFetch(w, f, Answered(Failed))
    case ReceiveToken(f) => ApplyReceive(w, f)
    case CleanUp(f) => w.(client := Clean(w.client, f))
    case Login(sid, persistent) => w.(client := StoreSession(w.client, sid, persistent))
    case Logout => w.(client := ClearSession(w.client))
    case OtherTab(sid, t) => w.(current := w.current[sid := t], owner := w.owner[t := sid])
  }

  /** A freshly loaded page; the storages and the daemon keep what earlier pages left. */
  ghost predicate Start(w: World) {
    w.client.token.None? && w.client.pending.None? && w.client.pendingSession == -1 && w.client.session == 0 &&
    w.client.fetches == [] && w.tasks == [] && w.installed == {} && w.discards == [] &&
    forall sid :: sid in w.current ==> w.current[sid] in w.owner && w.owner[w.current[sid]] == sid
  }

  ghost predicate Next(w: World, w': World) {
    exists s :: Enabled(w, s) && w' == Apply(w, s)
  }

  /** A run of any length, under any interleaving. */
  ghost predicate Run(ws: seq<World>) {
    |ws| > 0 && Start(ws[0]) && forall i :: 0 <= i < |ws| - 1 ==> Next(ws[i], ws[i + 1])
  }
}
