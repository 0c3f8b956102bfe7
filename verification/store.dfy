/**
 * The persistent state the flows act on: the `users` collection, the
 * transport session store (`sessions`, written by express-session) and the
 * `UserSession` registry. Collections are sequences in natural order, so
 * `findOne` is "the first match".
 */
module Store {
  import opened Wrappers
  import opened UserModel

  /** A transport session: its `_id` and the `passport.user` it carries, if any. */
  datatype TransportSession = TransportSession(id: string, passportUser: Option<UserId>)

  /**
   * A `UserSession` registry entry. Location, device and timestamps come from
   * the network and the clock and are not modelled.
   */
  datatype SessionRecord = SessionRecord(userId: UserId, sessionId: string)

  datatype Db = Db(users: seq<User>, sessions: seq<TransportSession>, registry: seq<SessionRecord>)

  /** The position of the first element satisfying `p`, as `findOne` returns it. */
  function FindFirst<T>(s: seq<T>, p: T -> bool): (r: Option<nat>)
    ensures r.None? <==> forall i :: 0 <= i < |s| ==> !p(s[i])
    ensures r.Some? ==> r.value < |s| && p(s[r.value]) && forall j :: 0 <= j < r.value ==> !p(s[j])
    decreases |s|
  {
    if |s| == 0 then None
    else if p(s[0]) then Some(0)
    else
      match FindFirst(s[1..], p)
      case None => None
      case Some(k) =>
        assert forall j :: 1 <= j < k + 1 ==> s[j] == s[1..][j - 1];
        Some(k + 1)
  }

  /** `User.findOne({ email })`. */
  function FindByEmail(users: seq<User>, email: string): (r: Option<nat>)
    ensures r.None? <==> forall i :: 0 <= i < |users| ==> users[i].email != email
    ensures r.Some? ==> r.value < |users| && users[r.value].email == email
    ensures r.Some? ==> forall j :: 0 <= j < r.value ==> users[j].email != email
  {
    FindFirst(users, (u: User) => u.email == email)
  }

  /** `User.findById(id)`. */
  function FindById(users: seq<User>, id: UserId): (r: Option<nat>)
    ensures r.None? <==> forall i :: 0 <= i < |users| ==> users[i].id != id
    ensures r.Some? ==> r.value < |users| && users[r.value].id == id
    ensures r.Some? ==> forall j :: 0 <= j < r.value ==> users[j].id != id
  {
    FindFirst(users, (u: User) => u.id == id)
  }

  /** `User.findOne({ googleId })`. */
  function FindByGoogleId(users: seq<User>, googleId: string): (r: Option<nat>)
    ensures r.None? <==> forall i :: 0 <= i < |users| ==> users[i].googleId != Some(googleId)
    ensures r.Some? ==> r.value < |users| && users[r.value].googleId == Some(googleId)
    ensures r.Some? ==> forall j :: 0 <= j < r.value ==> users[j].googleId != Some(googleId)
  {
    FindFirst(users, (u: User) => u.googleId == Some(googleId))
  }

  /** A token stored in `field` whose expiry in `expiry` is strictly later than `now`. */
  predicate Pending(field: Option<string>, expiry: Option<int>, token: string, now: nat) {
    field == Some(token) && expiry.Some? && expiry.value > now
  }

  /** `findOne({ resetPasswordToken: token, resetPasswordTokenExpiry: { $gt: now } })`. */
  function FindByResetToken(users: seq<User>, token: string, now: nat): (r: Option<nat>)
    ensures r.None? <==> forall i :: 0 <= i < |users| ==>
              !Pending(users[i].resetPasswordToken, users[i].resetPasswordTokenExpiry, token, now)
    ensures r.Some? ==> r.value < |users|
    ensures r.Some? ==> Pending(users[r.value].resetPasswordToken, users[r.value].resetPasswordTokenExpiry, token, now)
    ensures r.Some? ==> forall j :: 0 <= j < r.value ==>
              !Pending(users[j].resetPasswordToken, users[j].resetPasswordTokenExpiry, token, now)
  {
    FindFirst(users, (u: User) => Pending(u.resetPasswordToken, u.resetPasswordTokenExpiry, token, now))
  }

  /** `findOne({ emailVerificationToken: token, emailVerificationTokenExpiry: { $gt: now } })`. */
  function FindByVerificationToken(users: seq<User>, token: string, now: nat): (r: Option<nat>)
    ensures r.None? <==> forall i :: 0 <= i < |users| ==>
              !Pending(users[i].emailVerificationToken, users[i].emailVerificationTokenExpiry, token, now)
    ensures r.Some? ==> r.value < |users|
    ensures r.Some? ==> Pending(users[r.value].emailVerificationToken, users[r.value].emailVerificationTokenExpiry, token, now)
    ensures r.Some? ==> forall j :: 0 <= j < r.value ==>
              !Pending(users[j].emailVerificationToken, users[j].emailVerificationTokenExpiry, token, now)
  {
    FindFirst(users, (u: User) => Pending(u.emailVerificationToken, u.emailVerificationTokenExpiry, token, now))
  }

  /**
   * `req.user` for a request on session `sid`: passport deserializes the
   * `passport.user` of that session with `findById`; no session, no user in
   * it, or a deleted account all leave `req.user` empty.
   */
  function SessionUser(db: Db, sid: string): (r: Option<User>)
    ensures r.Some? ==> r.value in db.users
    ensures r.Some? ==> exists k :: 0 <= k < |db.sessions| && db.sessions[k].id == sid &&
                                   db.sessions[k].passportUser == Some(r.value.id)
  {
    match FindFirst(db.sessions, (t: TransportSession) => t.id == sid)
    case None => None
    case Some(k) =>
      match db.sessions[k].passportUser
      case None => None
      case Some(uid) =>
        match FindById(db.users, uid)
        case None => None
        case Some(i) => Some(db.users[i])
  }

  /** The collection invariants: `_id` and `email` are unique, every document is valid. */
  predicate ValidUsers(users: seq<User>) {
    && (forall i, j :: 0 <= i < j < |users| ==> users[i].id != users[j].id && users[i].email != users[j].email)
    && (forall i :: 0 <= i < |users| ==> ValidUser(users[i]))
  }

  /** `user.save()` on the document at `i`: it keeps its `_id` and is written back in place. */
  function Put(users: seq<User>, i: nat, u: User): (r: seq<User>)
    requires i < |users|
    ensures |r| == |users| && r[i] == u
    ensures forall j :: 0 <= j < |users| && j != i ==> r[j] == users[j]
  {
    users[i := u]
  }

  /** Writing back a valid document with the same `_id` and `email` keeps the collection valid. */
  lemma PutKeepsValid(users: seq<User>, i: nat, u: User)
    requires ValidUsers(users) && i < |users|
    requires u.id == users[i].id && u.email == users[i].email && ValidUser(u)
    ensures ValidUsers(Put(users, i, u))
  {
  }

  /** Inserting a valid document with a fresh `_id` and `email` keeps the collection valid. */
  lemma InsertKeepsValid(users: seq<User>, u: User)
    requires ValidUsers(users) && ValidUser(u)
    requires forall i :: 0 <= i < |users| ==> users[i].id != u.id && users[i].email != u.email
    ensures ValidUsers(users + [u])
  {
  }

  /** With unique emails, the account found by email is the only one holding it. */
  lemma EmailFindsTheOwner(users: seq<User>, i: nat)
    requires ValidUsers(users) && i < |users|
    ensures FindByEmail(users, users[i].email) == Some(i)
  {
  }

  /** With unique ids, `findById` finds exactly the document with that id. */
  lemma IdFindsTheOwner(users: seq<User>, i: nat)
    requires ValidUsers(users) && i < |users|
    ensures FindById(users, users[i].id) == Some(i)
  {
  }

  /** A session bound to an account's `_id` resolves to that account. */
  lemma SessionResolves(db: Db, sid: string, i: nat)
    requires ValidUsers(db.users) && i < |db.users|
    requires TransportSession(sid, Some(db.users[i].id)) in db.sessions
    requires forall t :: t in db.sessions && t.id == sid ==> t == TransportSession(sid, Some(db.users[i].id))
    ensures SessionUser(db, sid) == Some(db.users[i])
  {
    var k := FindFirst(db.sessions, (t: TransportSession) => t.id == sid);
    assert k.Some? && db.sessions[k.value] in db.sessions;
    IdFindsTheOwner(db.users, i);
  }
}
