/**
 * Session bookkeeping: `deleteUserSessions` revokes a user's sessions in the
 * transport store and in the `UserSession` registry; `createUserSession`
 * records a login in the registry.
 */
module UserSessions {
  import opened Wrappers
  import opened JsText
  import opened UserModel
  import opened Store

  /** The elements of `s` that satisfy `keep`, in their original order. */
  function Keep<T(!new)>(s: seq<T>, keep: T -> bool): (r: seq<T>)
    ensures |r| <= |s|
    ensures forall x :: x in r <==> x in s && keep(x)
    ensures (forall i :: 0 <= i < |s| ==> keep(s[i])) ==> r == s
    decreases |s|
  {
    if |s| == 0 then []
    else (if keep(s[0]) then [s[0]] else []) + Keep(s[1..], keep)
  }

  /**
   * The store operation that throws, if any. `deleteMany` resolves to a result
   * object, which is always truthy, so a failure only ever shows up as a
   * thrown error.
   */
  datatype Fault = NoFault | FindFails | TransportDeleteFails | RegistryDeleteFails

  /** `undefined` (done, or nothing to do) or the `{ error: true, msg }` value. */
  datatype Revoke = Done | Failed(msg: string)

  datatype Revocation = Revocation(result: Revoke, sessions: seq<TransportSession>, registry: seq<SessionRecord>)

  /** A truthy `exceptSessionId`: the one session to keep. */
  predicate Spared(except: Option<string>, sessionId: string) {
    Truthy(except) && sessionId == except.value
  }

  /** The transport query: `session.passport.user` is the user, `_id` is not the kept one. */
  predicate Doomed(t: TransportSession, userId: UserId, except: Option<string>) {
    t.passportUser == Some(userId) && !Spared(except, t.id)
  }

  /** The registry query: `userId` is the user, `sessionId` is not the kept one. */
  predicate DoomedRecord(e: SessionRecord, userId: UserId, except: Option<string>) {
    e.userId == userId && !Spared(except, e.sessionId)
  }

  function FailureMessage(userId: UserId): string {
    "Failed to delete user sessions for " + userId
  }

  /**
   * `deleteUserSessions(userId, exceptSessionId)`: find the user's transport
   * sessions, return early when there are none, otherwise delete them and then
   * the matching registry entries. A thrown error stops the sequence where it
   * happens and is returned as a failure value.
   */
  function DeleteUserSessions(sessions: seq<TransportSession>, registry: seq<SessionRecord>, userId: UserId,
                              except: Option<string>, fault: Fault): (r: Revocation)
    ensures r.result.Failed? <==> fault != NoFault && (fault == FindFails || exists t :: t in sessions && Doomed(t, userId, except))
    ensures r.result.Failed? ==> r.result.msg == FailureMessage(userId)
    ensures (forall t :: t in sessions ==> !Doomed(t, userId, except)) ==> r.sessions == sessions && r.registry == registry
    ensures fault == NoFault ==> forall t :: t in r.sessions <==> t in sessions && !Doomed(t, userId, except)
    ensures fault == NoFault && (exists t :: t in sessions && Doomed(t, userId, except)) ==>
              forall e :: e in r.registry <==> e in registry && !DoomedRecord(e, userId, except)
    ensures forall t :: t in r.sessions ==> t in sessions
    ensures forall e :: e in r.registry ==> e in registry
  {
    var gone := (t: TransportSession) => Doomed(t, userId, except);
    if fault == FindFails then Revocation(Failed(FailureMessage(userId)), sessions, registry)
    else if forall t :: t in sessions ==> !gone(t) then Revocation(Done, sessions, registry)
    else if fault == TransportDeleteFails then Revocation(Failed(FailureMessage(userId)), sessions, registry)
    else
      var sessions' := Keep(sessions, (t: TransportSession) => !Doomed(t, userId, except));
      if fault == NoFault then Revocation(Done, sessions', Keep(registry, (e: SessionRecord) => !DoomedRecord(e, userId, except)))
      else Revocation(Failed(FailureMessage(userId)), sessions', registry)
  }

  /**
   * A completed revocation leaves no session of the user but the kept one in
   * either store, keeps the kept one, and leaves other users' sessions alone.
   */
  lemma RevocationClears(sessions: seq<TransportSession>, registry: seq<SessionRecord>, userId: UserId, except: Option<string>)
    requires exists t :: t in sessions && Doomed(t, userId, except)
    ensures var r := DeleteUserSessions(sessions, registry, userId, except, NoFault);
      && r.result == Done
      && (forall t :: t in r.sessions ==> t.passportUser != Some(userId) || Spared(except, t.id))
      && (forall e :: e in r.registry ==> e.userId != userId || Spared(except, e.sessionId))
      && (forall t :: t in sessions && Spared(except, t.id) ==> t in r.sessions)
      && (forall e :: e in registry && Spared(except, e.sessionId) ==> e in r.registry)
      && (forall t :: t in sessions && t.passportUser != Some(userId) ==> t in r.sessions)
      && (forall e :: e in registry && e.userId != userId ==> e in r.registry)
  {
  }

  /** Without a session to keep, a completed revocation removes every session of the user from both stores. */
  lemma RevocationWithoutExceptionClearsAll(sessions: seq<TransportSession>, registry: seq<SessionRecord>, userId: UserId,
                                            except: Option<string>)
    requires !Truthy(except)
    requires exists t :: t in sessions && t.passportUser == Some(userId)
    ensures var r := DeleteUserSessions(sessions, registry, userId, except, NoFault);
      && (forall t :: t in r.sessions ==> t.passportUser != Some(userId))
      && (forall e :: e in r.registry ==> e.userId != userId)
  {
  }

  /**
   * The early return: when the transport store holds no session to delete,
   * registry entries of the user survive even though their sessions are gone.
   */
  lemma StaleRecordsSurvive(sessions: seq<TransportSession>, registry: seq<SessionRecord>, userId: UserId, sessionId: string)
    requires forall t :: t in sessions ==> t.passportUser != Some(userId)
    requires SessionRecord(userId, sessionId) in registry
    ensures SessionRecord(userId, sessionId) in DeleteUserSessions(sessions, registry, userId, None, NoFault).registry
  {
  }

  /**
   * `createUserSession(req, userId)`: records `(userId, sessionID)`. The
   * location lookup that precedes the insert is a network call; when it fails
   * (`lookupOk` false) the error is caught and nothing is recorded.
   */
  function CreateUserSession(registry: seq<SessionRecord>, userId: UserId, sessionId: string, lookupOk: bool): (r: seq<SessionRecord>)
    ensures lookupOk ==> r == registry + [SessionRecord(userId, sessionId)]
    ensures !lookupOk ==> r == registry
  {
    if lookupOk then registry + [SessionRecord(userId, sessionId)] else registry
  }

  /** A recorded login is revoked by a later revocation that does not spare its session. */
  lemma RecordedSessionIsRevocable(sessions: seq<TransportSession>, registry: seq<SessionRecord>, userId: UserId,
                                   sessionId: string, except: Option<string>)
    requires TransportSession(sessionId, Some(userId)) in sessions
    requires !Spared(except, sessionId)
    ensures var r := DeleteUserSessions(sessions, CreateUserSession(registry, userId, sessionId, true), userId, except, NoFault);
      SessionRecord(userId, sessionId) !in r.registry && TransportSession(sessionId, Some(userId)) !in r.sessions
  {
    assert Doomed(TransportSession(sessionId, Some(userId)), userId, except);
  }
}
