/** HTTP client sessions as the relays cache them: the single lazily
    (re)created session of `DroidCamStreamer.get_session` in fastapi_viewer.py
    (and of `DroidCamVideoTrack.get_session` in webrtc_viewer.py), and the
    keyed pool of `get_optimized_session` / `close_all_sessions` in
    ultra_performance_viewer.py. A session is its identity and whether the
    library has closed it; identities come from a counter, so a newly
    created session is distinct from every earlier one. */
module Sessions {
  import opened Text

  datatype Session = Session(id: nat, closed: bool)

  /** A session nobody has created yet: every one in use has a smaller id. */
  datatype Slot = Slot(current: Option<Session>, next: nat)

  predicate SlotValid(s: Slot)
  {
    s.current.Some? ==> s.current.value.id < s.next
  }

  /** `get_session`: keep the current session unless there is none or it is
      closed, in which case a new one takes its place. */
  function GetSession(s: Slot): (r: (Session, Slot))
    requires SlotValid(s)
    ensures SlotValid(r.1) && r.1.current == Some(r.0) && !r.0.closed
    ensures s.current.Some? && !s.current.value.closed <==> r.1 == s
    ensures r.1 != s ==> r.0.id == s.next && r.1.next == s.next + 1
  {
    match s.current
    case Some(session) =>
      if session.closed then (Session(s.next, false), Slot(Some(Session(s.next, false)), s.next + 1))
      else (session, s)
    case None => (Session(s.next, false), Slot(Some(Session(s.next, false)), s.next + 1))
  }

  /** Asking twice in a row gives the same session and changes nothing the
      second time. */
  lemma {:induction false} GetSessionIdempotent(s: Slot)
    requires SlotValid(s)
    ensures var (a, s1) := GetSession(s);
      var (b, s2) := GetSession(s1);
      a == b && s1 == s2
  {
    var (a, s1) := GetSession(s);
    assert s1.current == Some(a) && !a.closed;
  }

  /** The keyed pool and the counter its new sessions draw from. */
  datatype Pool = Pool(sessions: map<string, Session>, next: nat)

  ghost predicate PoolValid(p: Pool)
  {
    forall k :: k in p.sessions ==> p.sessions[k].id < p.next
  }

  /** `get_optimized_session(key)`: the cached session for `key` unless it is
      absent or closed, in which case a new one replaces it; no other key is
      touched. */
  function GetOptimized(p: Pool, key: string): (r: (Session, Pool))
    requires PoolValid(p)
    ensures PoolValid(r.1)
    ensures key in r.1.sessions && r.1.sessions[key] == r.0 && !r.0.closed
    ensures key in p.sessions && !p.sessions[key].closed <==> r.1 == p
    ensures r.1 != p ==> forall k :: k in p.sessions ==> p.sessions[k].id != r.0.id
    ensures r.1.sessions.Keys == p.sessions.Keys + {key}
    ensures forall k :: k in p.sessions && k != key ==> r.1.sessions[k] == p.sessions[k]
  {
    if key !in p.sessions || p.sessions[key].closed then
      var made := Session(p.next, false);
      (made, Pool(p.sessions[key := made], p.next + 1))
    else (p.sessions[key], p)
  }

  /** A second request for the same key returns the session the first one
      returned and leaves the pool as the first one left it. */
  lemma {:induction false} GetOptimizedIdempotent(p: Pool, key: string)
    requires PoolValid(p)
    ensures var (a, p1) := GetOptimized(p, key);
      var (b, p2) := GetOptimized(p1, key);
      a == b && p1 == p2
  {
    var (a, p1) := GetOptimized(p, key);
    assert key in p1.sessions && p1.sessions[key] == a && !a.closed;
  }

  /** `close_all_sessions`: the ids it closes, and the pool it leaves. */
  datatype Closing = Closing(closed: set<nat>, pool: Pool)

  /** Closes every session of the pool that is still open, then clears it. */
  function CloseAll(p: Pool): (r: Closing)
    ensures r.pool.sessions == map[]
    ensures r.pool.next == p.next
    ensures forall k :: k in p.sessions && !p.sessions[k].closed ==> p.sessions[k].id in r.closed
    ensures forall i :: i in r.closed ==> exists k :: k in p.sessions && p.sessions[k].id == i && !p.sessions[k].closed
  {
    Closing(set k | k in p.sessions && !p.sessions[k].closed :: p.sessions[k].id, Pool(map[], p.next))
  }

  /** After closing everything, the next request for any key creates a new
      session. */
  lemma {:induction false} CloseAllThenGet(p: Pool, key: string)
    requires PoolValid(p)
    ensures var q := CloseAll(p).pool;
      PoolValid(q) && GetOptimized(q, key).0 == Session(p.next, false)
  {
    var q := CloseAll(p).pool;
    assert key !in q.sessions;
  }
}
