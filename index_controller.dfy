/**
 * IndexController: the global URL mappings of the platform.  The ajax login
 * runs the security layer's login on the trimmed credentials, binds the user
 * into the session only if none is bound yet, stamps the last-login time and
 * address and saves the user; the other handlers return fixed views.
 *
 * The security layer, the clock and the client address are inputs; the user
 * service is a store of records with a counter of look-ups and a log of saves.
 */
module IndexController {
  import opened Wrappers
  import opened ResponseModels
  import opened AuthErrors

  /** Session keys; their literal values live in Constants, which is not part of this model. */
  const CurrentUserKey := "CURRENT_LOGINUSER_KEY"
  const UserTypeKey := "CURRENT_USERTYPE_KEY"

  const LoginOkText := "登录成功"
  const MainView := "common/main"
  const LoginRedirect := "redirect:/login"

  // ---- StringUtils.trim ----

  /** String.trim: characters up to U+0020 count as blank. */
  predicate Blank(c: char) {
    c <= ' '
  }

  function TrimStart(s: string): string {
    if s != [] && Blank(s[0]) then TrimStart(s[1..]) else s
  }

  function TrimEnd(s: string): string {
    if s != [] && Blank(s[|s| - 1]) then TrimEnd(s[..|s| - 1]) else s
  }

  /** StringUtils.trim of a non-null string. */
  function Trim(s: string): string {
    TrimEnd(TrimStart(s))
  }

  /** TrimStart drops a run of leading blanks and stops at the first non-blank character. */
  lemma {:induction false} TrimStartFacts(s: string)
    ensures var r := TrimStart(s);
      |r| <= |s| && r == s[|s| - |r|..] &&
      (forall k :: 0 <= k < |s| - |r| ==> Blank(s[k])) &&
      (r != [] ==> !Blank(r[0]))
  {
    if s != [] && Blank(s[0]) {
      var t := s[1..];
      TrimStartFacts(t);
      var r := TrimStart(t);
      assert s[|s| - |r|..] == t[|t| - |r|..];
      forall k | 0 <= k < |s| - |r| ensures Blank(s[k]) {
        if k > 0 { assert s[k] == t[k - 1]; }
      }
    }
  }

  /** TrimEnd drops a run of trailing blanks and stops at the last non-blank character. */
  lemma {:induction false} TrimEndFacts(s: string)
    ensures var r := TrimEnd(s);
      |r| <= |s| && r == s[..|r|] &&
      (forall k :: |r| <= k < |s| ==> Blank(s[k])) &&
      (r != [] ==> !Blank(r[|r| - 1]))
  {
    if s != [] && Blank(s[|s| - 1]) {
      var t := s[..|s| - 1];
      TrimEndFacts(t);
      var r := TrimEnd(t);
      assert s[..|r|] == t[..|r|];
      forall k | |r| <= k < |s| ensures Blank(s[k]) {
        if k < |t| { assert s[k] == t[k]; }
      }
    }
  }

  /**
   * Blanks are removed from both ends and nowhere else: the result starts and
   * ends with a non-blank character, keeps every non-blank character, and a
   * string without blanks at its ends is returned as it is.
   */
  lemma TrimFacts(s: string)
    ensures var r, a := Trim(s), |s| - |TrimStart(s)|;
      0 <= a && a + |r| <= |s| && r == s[a..a + |r|] &&
      (forall k :: 0 <= k < a ==> Blank(s[k])) &&
      (forall k :: a + |r| <= k < |s| ==> Blank(s[k]))
    ensures var r := Trim(s);
      (r != [] ==> !Blank(r[0]) && !Blank(r[|r| - 1])) &&
      (s != [] && !Blank(s[0]) && !Blank(s[|s| - 1]) ==> r == s) &&
      (forall c :: c in s && !Blank(c) ==> c in r)
  {
    var t := TrimStart(s);
    TrimStartFacts(s);
    TrimEndFacts(t);
    var r := TrimEnd(t);
    var a := |s| - |t|;
    assert r == s[a..a + |r|];
    forall k | a + |r| <= k < |s| ensures Blank(s[k]) {
      assert s[k] == t[k - a];
    }
    if r != [] {
      assert r[0] == t[0];
    }
    forall c | c in s && !Blank(c) ensures c in r {
      var k :| 0 <= k < |s| && s[k] == c;
      var k' := k - (|s| - |t|);
      assert t[k'] == c;
      assert k' < |r|;
      assert r[k'] == c;
    }
  }

  /** Trimming twice is trimming once. */
  lemma TrimIdempotent(s: string)
    ensures Trim(Trim(s)) == Trim(s)
  {
    TrimFacts(s);
    TrimFacts(Trim(s));
    if Trim(s) == [] {
    }
  }

  // ---- Users and the user store ----

  datatype UserRecord = UserRecord(
    id: int,
    username: string,
    userType: string,
    lastLoginTime: Option<int>,
    lastLoginIp: Option<string>)

  /** The record after a successful login has stamped it. */
  function Stamped(r: UserRecord, now: int, ip: string): UserRecord {
    r.(lastLoginTime := Some(now), lastLoginIp := Some(ip))
  }

  /** The User entity; a loaded user is an object the session may hold and the handler mutates. */
  class User {
    var id: int
    var username: string
    var userType: string
    var lastLoginTime: Option<int>
    var lastLoginIp: Option<string>

    function Record(): UserRecord
      reads this
    {
      UserRecord(id, username, userType, lastLoginTime, lastLoginIp)
    }

    constructor Load(r: UserRecord)
      ensures Record() == r
    {
      id, username, userType := r.id, r.username, r.userType;
      lastLoginTime, lastLoginIp := r.lastLoginTime, r.lastLoginIp;
    }

    method SetLastLoginTime(t: int)
      modifies this
      ensures Record() == old(Record()).(lastLoginTime := Some(t))
    {
      lastLoginTime := Some(t);
    }

    method SetLastLoginIp(ip: string)
      modifies this
      ensures Record() == old(Record()).(lastLoginIp := Some(ip))
    {
      lastLoginIp := Some(ip);
    }
  }

  /** userService.findByUsername: the records with that exact username, in store order. */
  function Lookup(records: seq<UserRecord>, username: string): seq<UserRecord>
  {
    if records == [] then []
    else if records[0].username == username then [records[0]] + Lookup(records[1..], username)
    else Lookup(records[1..], username)
  }

  /** The look-up finds exactly the stored records with that username. */
  lemma {:induction false} LookupMembers(records: seq<UserRecord>, username: string, x: UserRecord)
    ensures x in Lookup(records, username) <==> x in records && x.username == username
  {
    if records != [] {
      LookupMembers(records[1..], username, x);
      assert records == [records[0]] + records[1..];
    }
  }

  /** get(0) of the look-up is the earliest stored record with that username. */
  lemma {:induction false} LookupFirst(records: seq<UserRecord>, username: string, k: nat)
    requires k < |records| && records[k].username == username
    requires forall j :: 0 <= j < k ==> records[j].username != username
    ensures Lookup(records, username) != [] && Lookup(records, username)[0] == records[k]
  {
    if k > 0 {
      LookupFirst(records[1..], username, k - 1);
    }
  }

  /**
   * userService.save: write-through of one record; the stored record with the
   * same id is dropped and the saved one is appended, so it moves to the end
   * of the query order.
   */
  function Upsert(records: seq<UserRecord>, rec: UserRecord): seq<UserRecord>
  {
    Without(records, rec.id) + [rec]
  }

  /** The records whose id differs from id, in order. */
  function Without(records: seq<UserRecord>, id: int): seq<UserRecord>
  {
    if records == [] then []
    else if records[0].id == id then Without(records[1..], id)
    else [records[0]] + Without(records[1..], id)
  }

  lemma {:induction false} WithoutMembers(records: seq<UserRecord>, id: int, x: UserRecord)
    ensures x in Without(records, id) <==> x in records && x.id != id
  {
    if records != [] {
      WithoutMembers(records[1..], id, x);
      assert records == [records[0]] + records[1..];
    }
  }

  /**
   * After a save the store holds the saved record, keeps every record with
   * another id, and holds no other record.
   */
  lemma UpsertMembers(records: seq<UserRecord>, rec: UserRecord, x: UserRecord)
    ensures rec in Upsert(records, rec)
    ensures x in Upsert(records, rec) <==> x == rec || (x in records && x.id != rec.id)
  {
    WithoutMembers(records, rec.id, x);
  }

  // ---- The session and the login outcome ----

  datatype Attribute = UserValue(user: User) | TextValue(text: string)

  /** What the session holds under the current-user key: a user, nothing, or something that is not a User. */
  datatype Binding = AlreadyBound | NotBound | NotAUser

  function BindingOf(session: map<string, Attribute>): Binding {
    if CurrentUserKey !in session then NotBound
    else if session[CurrentUserKey].UserValue? then AlreadyBound
    else NotAUser
  }

  datatype Token = Token(username: string, password: string)

  /**
   * subject.login: returns normally, or throws an exception of some kind
   * whose message may be null (None).  Either way realmBound is the record
   * the login realm loaded and bound under the current-user key itself, or
   * None where the realm was not consulted (its cache answered) and left the
   * session alone.  The realm runs before the credentials are matched, so a
   * login that throws may still have bound a user.
   */
  datatype LoginResult =
    | LoggedIn(realmBound: Option<UserRecord>)
    | Threw(kind: ExceptionKind, message: Option<string>, realmBound: Option<UserRecord>)

  /** What the session holds under the current-user key once subject.login has returned or thrown. */
  function BindingAfterLogin(login: LoginResult, before: Binding): Binding {
    if login.realmBound.Some? then AlreadyBound else before
  }

  /**
   * The reply of ajaxlogin, given the login result, what the session holds
   * once the login has returned and whether the look-up by username found a
   * record.  A non-User under the current-user key fails the cast and an
   * empty look-up fails get(0); both fall to catch (Exception e).  Only an
   * excessive-attempts exception without a message leaves the message null.
   */
  function AjaxReply(login: LoginResult, binding: Binding, found: bool): (r: Response<string>)
    ensures r.status != Unset && r.data == None
    ensures r.message.None? <==> login.Threw? && login.kind.ExcessiveAttempts? && login.message.None?
    ensures r.status == Succeeded <==>
      login.LoggedIn? && (binding == AlreadyBound || (binding == NotBound && found))
    ensures r.status == Succeeded ==> r.message == Some(LoginOkText)
    ensures login.Threw? ==> r.message == AjaxErrorMessage(login.kind, login.message)
    ensures login.LoggedIn? && r.status == Failed ==> r.message == Some(ServerBusyText)
  {
    match login
    case Threw(k, m, _) => Response(Failed, AjaxErrorMessage(k, m), None)
    case LoggedIn(_) =>
      if binding == AlreadyBound || (binding == NotBound && found) then Response(Succeeded, Some(LoginOkText), None)
      else Response(Failed, Some(ServerBusyText), None)
  }

  /**
   * Unknown accounts and wrong passwords are not told apart, and every failed
   * authentication is reported as an error, never as a success.
   */
  lemma BadCredentialsIndistinguishable(binding: Binding, found: bool, m1: Option<string>, m2: Option<string>,
                                        b1: Option<UserRecord>, b2: Option<UserRecord>)
    ensures AjaxReply(Threw(UnknownAccount, m1, b1), binding, found)
         == AjaxReply(Threw(IncorrectCredentials, m2, b2), binding, found)
    ensures AjaxReply(Threw(UnknownAccount, m1, b1), binding, found).message == Some(BadCredentialsText)
  {
  }

  /** The reply's message for every outcome, as the catch chain and the success path give it. */
  lemma AjaxRepliesListed(login: LoginResult, binding: Binding, found: bool)
    ensures var r := AjaxReply(login, binding, found);
      r.message in {Some(LoginOkText), Some(BadCredentialsText), Some(LockedText),
                    Some(AjaxOtherAuthText), Some(ServerBusyText)}
      || (login.Threw? && login.kind.ExcessiveAttempts? && r.message == login.message)
  {
  }

  class Controller {
    /** The session's attribute map (the security layer's session and the servlet session are one here). */
    var session: map<string, Attribute>
    /** The user store, in query order. */
    var records: seq<UserRecord>
    /** How many times the store has been asked for a user by name. */
    var lookups: nat
    /** Every record written by save, in order. */
    var saved: seq<UserRecord>

    constructor (records: seq<UserRecord>)
      ensures this.session == map[] && this.records == records && lookups == 0 && saved == []
    {
      this.session, this.records, lookups, saved := map[], records, 0, [];
    }

    function CurrentBinding(): Binding
      reads this
    {
      BindingOf(session)
    }

    /** The user object bound in the session, if any; the only object ajaxlogin may change. */
    function BoundUsers(): set<User>
      reads this
    {
      if CurrentBinding() == AlreadyBound then {session[CurrentUserKey].user} else {}
    }

    method FindByUsername(username: string) returns (found: seq<UserRecord>)
      modifies this`lookups
      ensures found == Lookup(records, username) && lookups == old(lookups) + 1
    {
      found := Lookup(records, username);
      lookups := lookups + 1;
    }

    method Save(user: User)
      modifies this`records, this`saved
      ensures records == Upsert(old(records), user.Record())
      ensures saved == old(saved) + [user.Record()]
    {
      records := Upsert(records, user.Record());
      saved := saved + [user.Record()];
    }

    /** The login realm binding the user it loaded (record rec) under the current-user key. */
    method RealmBind(rec: UserRecord)
      modifies this`session
      ensures CurrentUserKey in session && session[CurrentUserKey].UserValue?
      ensures var u := session[CurrentUserKey].user;
        fresh(u) && u.Record() == rec && session == old(session)[CurrentUserKey := UserValue(u)]
    {
      var u := new User.Load(rec);
      session := session[CurrentUserKey := UserValue(u)];
    }

    /**
     * ajaxlogin.  The login sees the trimmed credentials; the look-up uses
     * the username as it was sent.  The binding is read after the login,
     * which may have bound a user itself.
     */
    method AjaxLogin(username: string, password: string, login: Token -> LoginResult, now: int, ip: string)
      returns (model: ResponseModel<string>)
      modifies this, BoundUsers()
      ensures fresh(model)
      ensures var outcome := login(Token(Trim(username), Trim(password)));
        model.View() == AjaxReply(outcome, BindingAfterLogin(outcome, old(CurrentBinding())),
                                  Lookup(old(records), username) != [])
      ensures var outcome := login(Token(Trim(username), Trim(password)));
        lookups == old(lookups) +
          (if outcome.LoggedIn? && BindingAfterLogin(outcome, old(CurrentBinding())) == NotBound then 1 else 0)
      // on a failure the controller itself writes nothing: the store is untouched and
      // the session changes only by the realm's own binding
      ensures var outcome := login(Token(Trim(username), Trim(password)));
        model.status == Failed ==>
        records == old(records) && saved == old(saved) &&
        (outcome.realmBound.None? ==> session == old(session))
      // a user bound before the call is left as it was unless it is the one stamped
      ensures var outcome := login(Token(Trim(username), Trim(password)));
        old(CurrentBinding()) == AlreadyBound && (model.status == Failed || outcome.realmBound.Some?) ==>
        var u0 := old(session[CurrentUserKey].user); u0.Record() == old(u0.Record())
      // the realm bound a user during the login, whether or not the login then threw;
      // on a normal return that user is stamped and saved and the store is not asked
      ensures var outcome := login(Token(Trim(username), Trim(password)));
        outcome.realmBound.Some? ==>
        CurrentUserKey in session && session[CurrentUserKey].UserValue? &&
        var u := session[CurrentUserKey].user;
        fresh(u) &&
        session == old(session)[CurrentUserKey := UserValue(u)] &&
        (outcome.Threw? ==> u.Record() == outcome.realmBound.value) &&
        (outcome.LoggedIn? ==>
          model.status == Succeeded &&
          u.Record() == Stamped(outcome.realmBound.value, now, ip) &&
          saved == old(saved) + [u.Record()] && records == Upsert(old(records), u.Record()))
      // already bound and the realm left the session alone: the same user, stamped and saved once
      ensures var outcome := login(Token(Trim(username), Trim(password)));
        model.status == Succeeded && outcome.realmBound.None? && old(CurrentBinding()) == AlreadyBound ==>
        var u := old(session[CurrentUserKey].user);
        session == old(session) &&
        u.Record() == Stamped(old(u.Record()), now, ip) &&
        saved == old(saved) + [u.Record()] && records == Upsert(old(records), u.Record())
      // nothing bound at all: the first record found is loaded, bound under both keys, stamped and saved once
      ensures var outcome := login(Token(Trim(username), Trim(password)));
        model.status == Succeeded && outcome.realmBound.None? && old(CurrentBinding()) == NotBound ==>
        var first := Lookup(old(records), username)[0];
        CurrentUserKey in session && session[CurrentUserKey].UserValue? &&
        var u := session[CurrentUserKey].user;
        fresh(u) &&
        session == old(session)[CurrentUserKey := UserValue(u)][UserTypeKey := TextValue(first.userType)] &&
        u.Record() == Stamped(first, now, ip) &&
        saved == old(saved) + [u.Record()] && records == Upsert(old(records), u.Record())
    {
      model := new ResponseModel<string>();
      var outcome := login(Token(Trim(username), Trim(password)));
      if outcome.realmBound.Some? {
        RealmBind(outcome.realmBound.value);
      }
      match outcome
      case Threw(k, m, _) =>
        model.FailWith(AjaxErrorMessage(k, m));
      case LoggedIn(_) =>
        AfterLogin(model, username, now, ip);
    }

    /** The rest of ajaxlogin's try block once subject.login has returned. */
    method AfterLogin(model: ResponseModel<string>, username: string, now: int, ip: string)
      requires model.View() == Initial()
      modifies this, BoundUsers(), model
      ensures model.View() == AjaxReply(LoggedIn(None), old(CurrentBinding()), Lookup(old(records), username) != [])
      ensures lookups == old(lookups) + (if old(CurrentBinding()) == NotBound then 1 else 0)
      ensures model.status == Failed ==>
        old(CurrentBinding()) != AlreadyBound &&
        session == old(session) && records == old(records) && saved == old(saved)
      ensures model.status == Succeeded && old(CurrentBinding()) == AlreadyBound ==>
        var u := old(session[CurrentUserKey].user);
        session == old(session) &&
        u.Record() == Stamped(old(u.Record()), now, ip) &&
        saved == old(saved) + [u.Record()] && records == Upsert(old(records), u.Record())
      ensures model.status == Succeeded && old(CurrentBinding()) == NotBound ==>
        var first := Lookup(old(records), username)[0];
        CurrentUserKey in session && session[CurrentUserKey].UserValue? &&
        var u := session[CurrentUserKey].user;
        fresh(u) &&
        session == old(session)[CurrentUserKey := UserValue(u)][UserTypeKey := TextValue(first.userType)] &&
        u.Record() == Stamped(first, now, ip) &&
        saved == old(saved) + [u.Record()] && records == Upsert(old(records), u.Record())
    {
      match CurrentBinding()
      case NotAUser =>
        // the cast (User) of the current-user attribute fails
        model.FailWith(Some(ServerBusyText));
      case AlreadyBound =>
        var user := session[CurrentUserKey].user;
        StampAndSave(user, now, ip);
        model.SucceedWith(Some(LoginOkText));
      case NotBound =>
        var user := BindFromStore(username);
        match user
        case None =>
          // get(0) on an empty list
          model.FailWith(Some(ServerBusyText));
        case Some(u) =>
          StampAndSave(u, now, ip);
          model.SucceedWith(Some(LoginOkText));
    }

    /**
     * Nothing bound yet: look the user up by name and bind the first record
     * found under both session keys; None where the list is empty.
     */
    method BindFromStore(username: string) returns (user: Option<User>)
      requires CurrentBinding() == NotBound
      modifies this`session, this`lookups
      ensures lookups == old(lookups) + 1
      ensures user.None? <==> Lookup(records, username) == []
      ensures user.None? ==> session == old(session)
      ensures user.Some? ==>
        var first := Lookup(records, username)[0];
        fresh(user.value) && user.value.Record() == first &&
        session == old(session)[CurrentUserKey := UserValue(user.value)][UserTypeKey := TextValue(first.userType)]
    {
      var found := FindByUsername(username);
      if found == [] {
        user := None;
      } else {
        var u := new User.Load(found[0]);
        session := session[CurrentUserKey := UserValue(u)];
        session := session[UserTypeKey := TextValue(u.userType)];
        user := Some(u);
      }
    }

    /** Stamps the last-login time and address on the user and saves it once. */
    method StampAndSave(user: User, now: int, ip: string)
      modifies user, this`records, this`saved
      ensures user.Record() == Stamped(old(user.Record()), now, ip)
      ensures saved == old(saved) + [user.Record()]
      ensures records == Upsert(old(records), user.Record())
    {
      user.SetLastLoginTime(now);
      user.SetLastLoginIp(ip);
      Save(user);
    }

    /** shiroLogout: the session is dropped; the reply is the redirect to the login page. */
    method Logout() returns (view: string)
      modifies this`session
      ensures session == map[] && CurrentBinding() == NotBound
      ensures view == LoginRedirect
    {
      session := map[];
      view := LoginRedirect;
    }

    /**
     * main: the main view whether or not a user is bound; None where the cast
     * (User) of the current-user attribute throws, which main does not catch.
     */
    method MainPage() returns (view: Option<string>)
      ensures view.None? <==> CurrentBinding() == NotAUser
      ensures view.Some? ==> view.value == MainView
    {
      match CurrentBinding()
      case NotAUser =>
        view := None;
      case AlreadyBound =>
        // the sidebar for the bound user is built here (not modelled)
        view := Some(MainView);
      case NotBound =>
        view := Some(MainView);
    }
  }

  /** tologin: always the redirect to the login page, the same target logout answers with. */
  function ToLogin(): (view: string)
    ensures view == LoginRedirect
  {
    LoginRedirect
  }

  /**
   * Logging in twice in one session: the second call finds the user the first
   * bound, so the store is asked once, but both calls stamp and save the user.
   */
  method LoginTwice(c: Controller, username: string, password: string, login: Token -> LoginResult,
                    t1: int, t2: int, ip: string)
    requires login(Token(Trim(username), Trim(password))) == LoggedIn(None)
    requires c.CurrentBinding() == NotBound && Lookup(c.records, username) != []
    modifies c
  {
    var first := c.AjaxLogin(username, password, login, t1, ip);
    assert first.status == Succeeded;
    var u := c.session[CurrentUserKey].user;
    assert c.BoundUsers() == {u};
    var second := c.AjaxLogin(username, password, login, t2, ip);
    assert second.status == Succeeded;
    assert c.lookups == old(c.lookups) + 1;
    assert |c.saved| == |old(c.saved)| + 2;
    assert c.session[CurrentUserKey].user == u && u.lastLoginTime == Some(t2);
  }

  /**
   * A login the realm answers itself binds the realm's user: the store is not
   * asked, and that user is stamped and saved.
   */
  method LoginThroughRealm(c: Controller, username: string, password: string, login: Token -> LoginResult,
                           rec: UserRecord, now: int, ip: string)
    requires login(Token(Trim(username), Trim(password))) == LoggedIn(Some(rec))
    modifies c, c.BoundUsers()
  {
    var reply := c.AjaxLogin(username, password, login, now, ip);
    assert reply.status == Succeeded && reply.message == Some(LoginOkText);
    assert c.lookups == old(c.lookups);
    assert c.session[CurrentUserKey].user.Record() == Stamped(rec, now, ip);
  }

  /**
   * A cached login in a session where another user is already bound: the
   * reply is a success, the session is not written, and the bound user, not
   * the one named in the request, is stamped and saved.
   */
  method CachedLoginKeepsBoundUser(c: Controller, username: string, password: string,
                                   login: Token -> LoginResult, now: int, ip: string)
    requires login(Token(Trim(username), Trim(password))) == LoggedIn(None)
    requires c.CurrentBinding() == AlreadyBound
    modifies c, c.BoundUsers()
  {
    var bound := c.session[CurrentUserKey].user;
    var name := bound.username;
    var reply := c.AjaxLogin(username, password, login, now, ip);
    assert reply.status == Succeeded && reply.message == Some(LoginOkText);
    assert c.session == old(c.session) && c.lookups == old(c.lookups);
    assert bound.username == name && bound.lastLoginTime == Some(now);
    assert c.saved == old(c.saved) + [bound.Record()];
  }

  /**
   * A wrong password after the realm has run: the reply is the credentials
   * error, yet the realm's user stays bound, and nothing is stamped or saved.
   */
  method FailedLoginKeepsRealmUser(c: Controller, username: string, password: string,
                                   login: Token -> LoginResult, rec: UserRecord, now: int, ip: string)
    requires login(Token(Trim(username), Trim(password))) == Threw(IncorrectCredentials, None, Some(rec))
    modifies c, c.BoundUsers()
  {
    var reply := c.AjaxLogin(username, password, login, now, ip);
    assert reply.status == Failed && reply.message == Some(BadCredentialsText);
    assert c.CurrentBinding() == AlreadyBound && c.session[CurrentUserKey].user.Record() == rec;
    assert c.saved == old(c.saved) && c.records == old(c.records);
  }
}
