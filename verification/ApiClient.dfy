/** The module variables of lib/api.ts and the code that runs on them between two awaits,
    statement by statement. Each method does what the protocol's function says. */
module ApiClient {
  import opened Options
  import Protocol = CsrfProtocol

  class ApiClient {
    var local: Option<Protocol.SessionId>
    var tab: Option<Protocol.SessionId>
    var csrfToken: Option<Protocol.Token>
    var csrfPending: Option<Protocol.FetchId>
    var csrfPendingSession: int
    var csrfSession: nat
    var fetches: seq<Protocol.Fetch>

    ghost function View(): Protocol.Client
      reads this
    {
      Protocol.Client(local, tab, csrfToken, csrfPending, csrfPendingSession, csrfSession, fetches)
    }

    constructor (local: Option<Protocol.SessionId>, tab: Option<Protocol.SessionId>)
      ensures View() == Protocol.Client(local, tab, None, None, -1, 0, [])
    {
      this.local, this.tab := local, tab;
      csrfToken, csrfPending, csrfPendingSession, csrfSession, fetches := None, None, -1, 0, [];
    }

    /** An id kept for all tabs goes before the one of this tab. */
    method GetSessionId() returns (sid: Option<Protocol.SessionId>)
      ensures sid == Protocol.GetSessionId(View())
    {
      sid := local;
      if sid.None? {
        sid := tab;
      }
    }

    method FetchCsrf() returns (p: Protocol.FetchId)
      modifies this
      ensures (View(), p) == Protocol.FetchCsrf(old(View()))
    {
      if csrfPending.Some? && csrfPendingSession == csrfSession {
        return csrfPending.value;
      }
      var session := csrfSession;
      p := |fetches|;
      var sid := GetSessionId();
      if Protocol.Present(sid) {
        fetches := fetches + [Protocol.Fetch(session, sid, Protocol.Requested, false)];
      } else {
        csrfToken := None;
        fetches := fetches + [Protocol.Fetch(session, sid, Protocol.Resolved, false)];
      }
      csrfPending := Some(p);
      csrfPendingSession := session;
    }

    /** The continuation of a fetch after the daemon's answer. */
    method Receive(p: Protocol.FetchId)
      requires p < |fetches| && fetches[p].status.Answered?
      modifies this`csrfToken, this`fetches
      ensures View() == Protocol.Receive(old(View()), p)
    {
      var f := fetches[p];
      if f.status.reply.Failed? {
        fetches := fetches[p := f.(status := Protocol.Rejected)];
        return;
      }
      if f.session == csrfSession {
        csrfToken := Some(f.status.reply.token);
      }
      fetches := fetches[p := f.(status := Protocol.Resolved)];
    }

    /** The finally handler of a fetch. */
    method Finally(p: Protocol.FetchId)
      requires p < |fetches|
      modifies this`csrfPending, this`fetches
      ensures View() == Protocol.Clean(old(View()), p)
    {
      if csrfPending == Some(p) {
        csrfPending := None;
      }
      fetches := fetches[p := fetches[p].(cleaned := true)];
    }

    method EnsureCsrfToken(attempt: Protocol.Attempt) returns (at: Protocol.Point)
      modifies this
      ensures (View(), at) == Protocol.Ensure(old(View()), attempt)
    {
      if csrfToken.None? {
        var p := FetchCsrf();
        return Protocol.Ensuring(attempt, p);
      }
      return Protocol.Holding(attempt, csrfToken.value);
    }

    method RefreshCsrfToken(refused: Protocol.Token) returns (at: Protocol.Point, discarded: bool)
      modifies this
      ensures (View(), at, discarded) == Protocol.RefreshToken(old(View()), refused)
    {
      if csrfToken == Some(refused) {
        csrfToken := None;
        var p := FetchCsrf();
        return Protocol.Refetching(refused, p), true;
      }
      at := EnsureCsrfToken(Protocol.Again(refused));
      discarded := false;
    }

    method StoreSession(sid: Protocol.SessionId, persistent: bool)
      modifies this
      ensures View() == Protocol.StoreSession(old(View()), sid, persistent)
      ensures Protocol.GetSessionId(View()) == Some(sid) <==> persistent || old(local).None? || old(local) == Some(sid)
    {
      if persistent {
        local := Some(sid);
      } else {
        tab := Some(sid);
      }
      csrfToken := None;
      csrfSession := csrfSession + 1;
    }

    method ClearSession()
      modifies this
      ensures View() == Protocol.ClearSession(old(View()))
      ensures Protocol.GetSessionId(View()).None?
    {
      tab := None;
      local := None;
      csrfToken := None;
      csrfSession := csrfSession + 1;
    }
  }
}
