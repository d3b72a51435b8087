/** Sign-in of `backend/auth.js`: roster lookups of a member's name and
    position, the acceptance test for a verified token's payload, the
    session store, the check that a caller acts as its own session's user,
    and the decision order of the authentication middleware.

    The token service, the random session ids and the clock are inputs:
    a token arrives as the payload the service returned (or `None` when the
    request failed), a new session id is given, and `now` is the time in
    milliseconds. */
module Auth {
  import opened Wrappers
  import opened Text
  import opened Sheets

  // ---------------------------------------------------------------------------
  // Roster lookups
  // ---------------------------------------------------------------------------

  /** `getName`: column 5 of the first data row whose column-4 email equals
      `email` up to trimming and case; `None` when no row matches or the
      name cell is empty. */
  function NameOf(sigma: Table, email: string): (r: Option<string>)
    ensures r.Some? ==> r.value != ""
    ensures forall i :: 1 <= i < |sigma| && Matches(Present, sigma[i], 4, email)
                        && (forall j :: 1 <= j < i ==> !Matches(Present, sigma[j], 4, email)) ==>
              r == (if 5 < |sigma[i]| && sigma[i][5] != "" then Some(sigma[i][5]) else None)
    ensures (forall i :: 1 <= i < |sigma| ==> !Matches(Present, sigma[i], 4, email)) ==> r.None?
  {
    match FirstMatch(sigma, Present, 4, email, 1)
    case None => None
    case Some(i) => if 5 < |sigma[i]| && sigma[i][5] != "" then Some(sigma[i][5]) else None
  }

  /** `getPosition`: column 6 of the same row, or "". */
  function PositionOf(sigma: Table, email: string): (r: string)
    ensures forall i :: 1 <= i < |sigma| && Matches(Present, sigma[i], 4, email)
                        && (forall j :: 1 <= j < i ==> !Matches(Present, sigma[j], 4, email)) ==>
              r == CellOr(sigma[i], 6, "")
    ensures (forall i :: 1 <= i < |sigma| ==> !Matches(Present, sigma[i], 4, email)) ==> r == ""
  {
    match FirstMatch(sigma, Present, 4, email, 1)
    case None => ""
    case Some(i) => CellOr(sigma[i], 6, "")
  }

  /** The scan depends on the needle only through its normalized form. */
  lemma {:induction false} FirstMatchNormal(data: Table, test: Test, col: nat, a: string, b: string, from: nat)
    requires Normalize(a) == Normalize(b)
    ensures FirstMatch(data, test, col, a, from) == FirstMatch(data, test, col, b, from)
    decreases |data| - from
  {
    if from < |data| {
      FirstMatchNormal(data, test, col, a, b, from + 1);
    }
  }

  /** Name and position do not depend on the case or surrounding white
      space of the email asked for. */
  lemma LookupsIgnoreCase(sigma: Table, a: string, b: string)
    requires Normalize(a) == Normalize(b)
    ensures NameOf(sigma, a) == NameOf(sigma, b) && PositionOf(sigma, a) == PositionOf(sigma, b)
  {
    FirstMatchNormal(sigma, Present, 4, a, b, 1);
  }

  // ---------------------------------------------------------------------------
  // Token payloads
  // ---------------------------------------------------------------------------

  /** The fields of a token-info payload the server reads; `exp` is in
      seconds. */
  datatype Payload = Payload(aud: string, exp: int, iss: string, email: string, sub: string)

  predicate GoogleIssuer(iss: string) {
    iss == "https://accounts.google.com" || iss == "accounts.google.com"
  }

  /** `validateIdToken` on the service's answer: the payload when its
      audience is this client, it has not expired and Google issued it. */
  function ValidateIdToken(response: Option<Payload>, clientId: string, now: int): (r: Option<Payload>)
    ensures r.Some? ==> response == r
    ensures r.Some? <==> response.Some? && response.value.aud == clientId
                         && now <= response.value.exp * 1000 && GoogleIssuer(response.value.iss)
  {
    match response
    case None => None
    case Some(p) =>
      if p.aud != clientId then None
      else if p.exp * 1000 < now then None
      else if !GoogleIssuer(p.iss) then None
      else Some(p)
  }

  /** A payload accepted now was accepted at every earlier time, and none
      is accepted after its expiry second has passed. */
  lemma TokenExpiry(p: Payload, clientId: string, now: int, later: int)
    requires ValidateIdToken(Some(p), clientId, now).Some?
    ensures forall earlier :: earlier <= now ==> ValidateIdToken(Some(p), clientId, earlier).Some?
    ensures later > p.exp * 1000 ==> ValidateIdToken(Some(p), clientId, later).None?
  {
  }

  // ---------------------------------------------------------------------------
  // Sessions
  // ---------------------------------------------------------------------------

  /** `config.session.keyPrefix`. */
  const SessionPrefix := "user_session_"

  /** `config.cache.sessionTTL`, one hour, in milliseconds. */
  const SessionTtlMs := 3600 * 1000

  /** What a session holds: the user's email and account id. */
  datatype Session = Session(email: string, id: string)

  /** A stored session and the time after which the cache drops it. */
  datatype Entry = Entry(session: Session, expires: int)

  /** Distinct session ids have distinct cache keys. */
  lemma KeyInjective(a: string, b: string)
    requires SessionPrefix + a == SessionPrefix + b
    ensures a == b
  {
    assert a == (SessionPrefix + a)[|SessionPrefix|..];
    assert b == (SessionPrefix + b)[|SessionPrefix|..];
  }

  /** The session cache. */
  class SessionStore {
    var entries: map<string, Entry>

    constructor ()
      ensures entries == map[]
    {
      entries := map[];
    }

    /** `getSession`: the live session under the id, or `None`. */
    function Get(sessionId: string, now: int): (r: Option<Session>)
      reads this
      ensures r.Some? <==> SessionPrefix + sessionId in entries && now <= entries[SessionPrefix + sessionId].expires
      ensures r.Some? ==> r.value == entries[SessionPrefix + sessionId].session
    {
      var k := SessionPrefix + sessionId;
      if k in entries && now <= entries[k].expires then Some(entries[k].session) else None
    }

    /** `createSession` with the random id given: the session lives for one
        time-to-live and every other session is untouched. */
    method CreateSession(email: string, userId: string, freshId: string, now: int) returns (sessionId: string)
      modifies this
      ensures sessionId == freshId
      ensures entries == old(entries)[SessionPrefix + freshId := Entry(Session(email, userId), now + SessionTtlMs)]
      ensures Get(sessionId, now) == Some(Session(email, userId))
      ensures forall other, t :: other != freshId ==> Get(other, t) == old(Get(other, t))
    {
      entries := entries[SessionPrefix + freshId := Entry(Session(email, userId), now + SessionTtlMs)];
      sessionId := freshId;
      forall other, t | other != freshId
        ensures Get(other, t) == old(Get(other, t))
      {
        if SessionPrefix + other == SessionPrefix + freshId {
          KeyInjective(other, freshId);
        }
      }
    }

    /** `extendSession`: a live session gets a new time-to-live; an absent
        or expired one stays absent. */
    method ExtendSession(sessionId: string, now: int)
      modifies this
      ensures old(Get(sessionId, now)).Some? ==>
        entries == old(entries)[SessionPrefix + sessionId := Entry(old(Get(sessionId, now)).value, now + SessionTtlMs)]
      ensures old(Get(sessionId, now)).None? ==> entries == old(entries)
      ensures Get(sessionId, now) == old(Get(sessionId, now))
    {
      var s := Get(sessionId, now);
      if s.Some? {
        entries := entries[SessionPrefix + sessionId := Entry(s.value, now + SessionTtlMs)];
      }
    }

    /** `clearSession`. */
    method ClearSession(sessionId: string)
      modifies this
      ensures entries == old(entries) - {SessionPrefix + sessionId}
      ensures forall t :: Get(sessionId, t).None?
    {
      entries := entries - {SessionPrefix + sessionId};
    }
  }

  // ---------------------------------------------------------------------------
  // Acting as the session's user
  // ---------------------------------------------------------------------------

  const SessionMissing := "SESSION_EXPIRED: Please refresh the page to continue"
  const SessionExpired := "SESSION_EXPIRED: Your session has expired. Please refresh the page"
  const NotSessionUser := "UNAUTHORIZED: You are not authorized to perform actions as this user"

  /** `validateUserMatchesSession`: outside development, the caller must
      hold a live session whose email is the claimed one up to trimming
      and case; the session is then extended. */
  method ValidateUserMatchesSession(store: SessionStore, isDev: bool, sessionId: string, claimedEmail: string, now: int)
    returns (r: Result<bool>)
    modifies store
    ensures isDev ==> r == Ok(true) && store.entries == old(store.entries)
    ensures !isDev && Trim(sessionId) == "" ==> r == Err(SessionMissing) && store.entries == old(store.entries)
    ensures !isDev && Trim(sessionId) != "" && old(store.Get(sessionId, now)).None? ==>
      r == Err(SessionExpired) && store.entries == old(store.entries)
    ensures var s := old(store.Get(sessionId, now));
      !isDev && Trim(sessionId) != "" && s.Some? && Normalize(s.value.email) != Normalize(claimedEmail) ==>
        r == Err(NotSessionUser) && store.entries == old(store.entries)
    ensures var s := old(store.Get(sessionId, now));
      !isDev && Trim(sessionId) != "" && s.Some? && Normalize(s.value.email) == Normalize(claimedEmail) ==>
        r == Ok(true) && store.entries == old(store.entries)[SessionPrefix + sessionId := Entry(s.value, now + SessionTtlMs)]
    ensures r.Ok? && !isDev ==>
      old(store.Get(sessionId, now)).Some? && Normalize(old(store.Get(sessionId, now)).value.email) == Normalize(claimedEmail)
  {
    if isDev {
      return Ok(true);
    }
    if Trim(sessionId) == "" {
      return Err(SessionMissing);
    }
    var s := store.Get(sessionId, now);
    if s.None? {
      return Err(SessionExpired);
    }
    if Normalize(s.value.email) != Normalize(claimedEmail) {
      return Err(NotSessionUser);
    }
    store.ExtendSession(sessionId, now);
    return Ok(true);
  }

  // ---------------------------------------------------------------------------
  // The middleware
  // ---------------------------------------------------------------------------

  /** `req.user`. */
  datatype User = User(email: string, userId: string, name: string, position: string, sessionId: string)

  /** What the middleware attaches to the request. */
  datatype Attached = Attached(user: Option<User>, unauthorizedEmail: Option<string>)

  /** The email is on the roster: some data row of the Sigma sheet holds
      it in column 4, up to trimming and case. */
  predicate OnRoster(book: Workbook, email: string)
    reads book
  {
    Normalize(email) in EmailKeys(Contents(book, "Sigma"))
  }

  /** What `isValidEmail` answers with the flags `flags` cached: the email
      is on the roster, or a `validEmail:` flag for it is still cached. */
  predicate Admitted(book: Workbook, flags: set<string>, email: string)
    reads book
  {
    OnRoster(book, email) || Normalize(email) in flags
  }

  /** While every cached flag names a roster email, being admitted is being
      on the roster. */
  lemma AdmittedOnRoster(book: Workbook, cache: Cache, email: string)
    requires FlagsListed(book, cache)
    ensures Admitted(book, cache.validEmail, email) == OnRoster(book, email)
  {
  }

  /** `getParentSheet('Sigma')` then `isValidEmail`: the email is admitted
      when it is on the roster or its flag is cached, and a flag is added
      only for an admitted email. While the flags are drawn from the
      roster, the answer is exactly whether the email is on it. */
  method CheckRoster(book: Workbook, cache: Cache, email: string) returns (sigma: Table, ok: bool)
    requires Coherent(book, cache)
    modifies cache`sheetData, cache`validEmail
    ensures Coherent(book, cache)
    ensures sigma == Contents(book, "Sigma")
    ensures ok == Admitted(book, old(cache.validEmail), email)
    ensures cache.validEmail == old(cache.validEmail) + (if ok then {Normalize(email)} else {})
    ensures cache.validEmail <= old(cache.validEmail) + EmailKeys(Contents(book, "Sigma"))
    ensures old(FlagsListed(book, cache)) ==> FlagsListed(book, cache) && ok == OnRoster(book, email)
  {
    sigma := GetParentSheet(book, cache, "Sigma");
    ok := IsValidEmail(cache, sigma, email);
    if FirstMatch(sigma, NonEmpty, 4, email, 1).Some? {
      FirstMatchEmailKey(sigma, email);
    }
    if OnRoster(book, email) {
      EmailKeyFirstMatch(sigma, email);
    }
  }

  /** Step 1 of the middleware: a live session whose email is still
      admitted is extended and returned; one that is not is dropped. */
  method ResumeSession(store: SessionStore, book: Workbook, cache: Cache, sessionId: string, now: int)
    returns (s: Option<Session>)
    requires Coherent(book, cache)
    modifies store, cache`sheetData, cache`validEmail
    ensures Coherent(book, cache)
    ensures old(FlagsListed(book, cache)) ==> FlagsListed(book, cache)
    ensures old(cache.validEmail) <= cache.validEmail <= old(cache.validEmail) + EmailKeys(Contents(book, "Sigma"))
    ensures var o := old(store.Get(sessionId, now));
      s == (if sessionId != "" && o.Some? && Admitted(book, old(cache.validEmail), o.value.email) then o else None)
    ensures s.Some? ==> store.entries == old(store.entries)[SessionPrefix + sessionId := Entry(s.value, now + SessionTtlMs)]
    ensures var o := old(store.Get(sessionId, now));
      sessionId != "" && o.Some? && !Admitted(book, old(cache.validEmail), o.value.email) ==>
        store.entries == old(store.entries) - {SessionPrefix + sessionId}
    ensures sessionId == "" || old(store.Get(sessionId, now)).None? ==> store.entries == old(store.entries)
  {
    s := None;
    if sessionId != "" {
      var session := store.Get(sessionId, now);
      if session.Some? {
        var _, valid := CheckRoster(book, cache, session.value.email);
        if valid {
          s := session;
          store.ExtendSession(sessionId, now);
        } else {
          store.ClearSession(sessionId);
        }
      }
    }
  }

  /** The display name: the roster name, or "Member". */
  function MemberName(sigma: Table, email: string): (r: string)
    ensures r != ""
    ensures NameOf(sigma, email).Some? ==> r == NameOf(sigma, email).value
  {
    if NameOf(sigma, email).Some? then NameOf(sigma, email).value else "Member"
  }

  /** `authMiddleware`: resume the session when its email is still
      admitted (else drop it), otherwise accept the token and open a new
      session; a signed-in email that is not admitted is reported. An email
      is admitted when it is on the roster or its flag was cached; while the
      flags are drawn from the roster, an attached user is on it. */
  method AuthMiddleware(store: SessionStore, book: Workbook, cache: Cache, sessionId: string, idToken: string,
                        response: Option<Payload>, clientId: string, now: int, freshId: string)
    returns (a: Attached)
    requires Coherent(book, cache)
    modifies store, cache`sheetData, cache`validEmail
    ensures Coherent(book, cache)
    ensures old(FlagsListed(book, cache)) ==> FlagsListed(book, cache)
    ensures old(FlagsListed(book, cache)) && a.user.Some? ==> OnRoster(book, a.user.value.email)
    ensures a.unauthorizedEmail.Some? ==>
      a.user.None? && !Admitted(book, old(cache.validEmail), a.unauthorizedEmail.value)
    ensures a.user.Some? ==>
      var u := a.user.value;
      u.email != "" && Admitted(book, old(cache.validEmail), u.email)
      && store.Get(u.sessionId, now) == Some(Session(u.email, u.userId))
      && u.name == MemberName(Contents(book, "Sigma"), u.email)
      && u.position == PositionOf(Contents(book, "Sigma"), u.email)
    ensures var o := old(store.Get(sessionId, now));
      sessionId != "" && o.Some? && o.value.email != "" && Admitted(book, old(cache.validEmail), o.value.email) ==>
        a.user.Some? && a.user.value.email == o.value.email && a.user.value.userId == o.value.id
        && a.user.value.sessionId == sessionId
        && store.entries == old(store.entries)[SessionPrefix + sessionId := Entry(o.value, now + SessionTtlMs)]
    ensures var o := old(store.Get(sessionId, now));
      sessionId != "" && o.Some? && !Admitted(book, old(cache.validEmail), o.value.email) ==>
        SessionPrefix + sessionId !in store.entries || freshId == sessionId
    ensures var o := old(store.Get(sessionId, now));
      var p := ValidateIdToken(response, clientId, now);
      !(sessionId != "" && o.Some? && o.value.email != "" && Admitted(book, old(cache.validEmail), o.value.email))
      && idToken != "" && p.Some? && p.value.email != "" && p.value.sub != "" ==>
        a.user.Some? == Admitted(book, old(cache.validEmail), p.value.email)
        && (a.user.Some? ==> a.user.value.email == p.value.email && a.user.value.sessionId == freshId)
        && (a.user.None? ==> a.unauthorizedEmail == Some(p.value.email))
  {
    var email := "";
    var userId := "";
    var current := sessionId;
    var resumed := ResumeSession(store, book, cache, sessionId, now);
    if resumed.Some? && resumed.value.email != "" {
      email := resumed.value.email;
      userId := resumed.value.id;
    }
    if email == "" && idToken != "" {
      var payload := ValidateIdToken(response, clientId, now);
      if payload.Some? && payload.value.email != "" && payload.value.sub != "" {
        email := payload.value.email;
        userId := payload.value.sub;
        current := store.CreateSession(email, userId, freshId, now);
        if SessionPrefix + sessionId == SessionPrefix + freshId {
          KeyInjective(sessionId, freshId);
        }
      }
    }
    if email == "" {
      return Attached(None, None);
    }
    var sigma, valid := CheckRoster(book, cache, email);
    if !valid {
      return Attached(None, Some(email));
    }
    return Attached(Some(User(email, userId, MemberName(sigma, email), PositionOf(sigma, email), current)), None);
  }
}
