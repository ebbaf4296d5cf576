/** Credential sign-in and the JWT/session callbacks of the authentication
    configuration.

    The user table is a sequence of stored rows with unique ids and unique
    e-mail addresses; `findUnique` is a search by one of those keys. The
    password hash comparison is a parameter `compare(plain, hash)` about which
    nothing is assumed.
 */
module Auth {
  import opened JsValues

  /** Timestamps (`Date`) as milliseconds since the epoch. */
  type Date = int

  /** Session `maxAge` and `updateAge`, in seconds. */
  const SessionMaxAge: nat := 30 * 24 * 60 * 60
  const SessionUpdateAge: nat := 24 * 60 * 60

  /** `maxAge` is 30 days and `updateAge` 24 hours. */
  lemma SessionLifetimes()
    ensures SessionMaxAge == 2592000 && SessionUpdateAge == 86400
    ensures SessionMaxAge == 30 * SessionUpdateAge
  {
  }

  /** A row of the user table as the store returns it; nullable columns are
      `Null` or `Val`. */
  datatype StoredUser = StoredUser(
    id: string,
    email: JsValue<string>,
    name: JsValue<string>,
    image: JsValue<string>,
    password: JsValue<string>,
    active: bool,
    subscriptionPlan: JsValue<string>,
    subscriptionStatus: JsValue<string>,
    subscriptionInterval: JsValue<string>,
    subscriptionCurrentPeriodEnd: JsValue<Date>)

  datatype UserStore = UserStore(rows: seq<StoredUser>)

  /** Ids are unique, and so are the e-mail addresses that are set. */
  ghost predicate ValidStore(store: UserStore) {
    forall i, j :: 0 <= i < j < |store.rows| ==>
      store.rows[i].id != store.rows[j].id &&
      (store.rows[i].email.Val? ==> store.rows[i].email != store.rows[j].email)
  }

  /** `findUnique({ where: { email } })`. */
  function FindByEmail(rows: seq<StoredUser>, email: string): (r: Option<StoredUser>)
    ensures r.Some? ==> r.value in rows && r.value.email == Val(email)
    ensures r.None? ==> forall u :: u in rows ==> u.email != Val(email)
  {
    if rows == [] then None
    else if rows[0].email == Val(email) then Some(rows[0])
    else FindByEmail(rows[1..], email)
  }

  /** `findUnique({ where: { id } })`. */
  function FindById(rows: seq<StoredUser>, id: string): (r: Option<StoredUser>)
    ensures r.Some? ==> r.value in rows && r.value.id == id
    ensures r.None? ==> forall u :: u in rows ==> u.id != id
  {
    if rows == [] then None
    else if rows[0].id == id then Some(rows[0])
    else FindById(rows[1..], id)
  }

  /** In a store with unique keys, the row holding a key is the one found. */
  lemma {:induction false} FindByEmailUnique(store: UserStore, u: StoredUser)
    requires ValidStore(store) && u in store.rows && u.email.Val?
    ensures FindByEmail(store.rows, u.email.value) == Some(u)
    decreases |store.rows|
  {
    var rows := store.rows;
    if rows[0] != u {
      var k :| 0 <= k < |rows| && rows[k] == u;
      assert k > 0 && rows[0].email != u.email;
      var tail := UserStore(rows[1..]);
      assert rows[1..][k - 1] == u;
      assert ValidStore(tail) by {
        forall i, j | 0 <= i < j < |tail.rows|
          ensures tail.rows[i].id != tail.rows[j].id &&
            (tail.rows[i].email.Val? ==> tail.rows[i].email != tail.rows[j].email)
        {
          assert tail.rows[i] == rows[i + 1] && tail.rows[j] == rows[j + 1];
        }
      }
      FindByEmailUnique(tail, u);
    }
  }

  /** What the sign-in form submits. */
  datatype Credentials = Credentials(email: JsValue<string>, password: JsValue<string>)

  /** The user object handed to the session machinery (`User`). */
  datatype AuthUser = AuthUser(
    id: string,
    email: JsValue<string>,
    name: JsValue<string>,
    image: JsValue<string>,
    subscriptionPlan: JsValue<string>,
    subscriptionStatus: JsValue<string>,
    subscriptionInterval: JsValue<string>,
    subscriptionCurrentPeriodEnd: JsValue<Date>)

  /** `user.password || ''`: a truthy stored password is used as it is; a
      missing, `null` or empty one gives the empty string. */
  function StoredPasswordOrEmpty(password: JsValue<string>): (s: string)
    ensures Truthy(password) ==> s == password.value
    ensures s == "" <==> !Truthy(password)
  {
    if password.Val? then password.value else ""
  }

  /** The credentials provider's `authorize`: `None` stands for `null`. */
  function Authorize(credentials: JsValue<Credentials>, store: UserStore,
                     compare: (string, string) -> bool): (r: Option<AuthUser>)
    ensures r.Some? <==>
      credentials.Val? && Truthy(credentials.value.email) && Truthy(credentials.value.password) &&
      var found := FindByEmail(store.rows, credentials.value.email.value);
      found.Some? && found.value.active &&
      compare(credentials.value.password.value, StoredPasswordOrEmpty(found.value.password))
    ensures r.Some? ==>
      var u := FindByEmail(store.rows, credentials.value.email.value).value;
      && r.value.id == u.id
      && r.value.email == OrUndefined(u.email)
      && r.value.name == OrUndefined(u.name)
      && r.value.image == OrUndefined(u.image)
      && r.value.subscriptionPlan == OrUndefined(u.subscriptionPlan)
      && r.value.subscriptionStatus == OrUndefined(u.subscriptionStatus)
      && r.value.subscriptionInterval == OrUndefined(u.subscriptionInterval)
      && r.value.subscriptionCurrentPeriodEnd == OrUndefined(u.subscriptionCurrentPeriodEnd)
  {
    if !credentials.Val? || !Truthy(credentials.value.email) || !Truthy(credentials.value.password) then
      None
    else
      var found := FindByEmail(store.rows, credentials.value.email.value);
      if found.None? || !found.value.active then
        None
      else if !compare(credentials.value.password.value, StoredPasswordOrEmpty(found.value.password)) then
        None
      else
        var u := found.value;
        Some(AuthUser(
          u.id,
          OrUndefined(u.email),
          OrUndefined(u.name),
          OrUndefined(u.image),
          OrUndefined(u.subscriptionPlan),
          OrUndefined(u.subscriptionStatus),
          OrUndefined(u.subscriptionInterval),
          OrUndefined(u.subscriptionCurrentPeriodEnd)))
  }

  /** Missing or empty credentials are rejected whatever the store holds and
      whatever the password check would say. */
  lemma AuthorizeRejectsMissingCredentials(credentials: JsValue<Credentials>,
                                           store1: UserStore, store2: UserStore,
                                           compare1: (string, string) -> bool,
                                           compare2: (string, string) -> bool)
    requires !credentials.Val? || !Truthy(credentials.value.email) || !Truthy(credentials.value.password)
    ensures Authorize(credentials, store1, compare1) == None
    ensures Authorize(credentials, store1, compare1) == Authorize(credentials, store2, compare2)
  {
  }

  /** A successful sign-in names an active stored user with exactly the
      submitted e-mail address, whose stored password (or the empty string)
      the check accepted. */
  lemma AuthorizeOnlyActiveOwner(credentials: JsValue<Credentials>, store: UserStore,
                                 compare: (string, string) -> bool)
    requires Authorize(credentials, store, compare).Some?
    ensures exists u :: (u in store.rows && u.active &&
      u.id == Authorize(credentials, store, compare).value.id &&
      u.email == credentials.value.email &&
      compare(credentials.value.password.value, StoredPasswordOrEmpty(u.password)))
  {
    var u := FindByEmail(store.rows, credentials.value.email.value).value;
    assert u in store.rows;
  }

  /** Conversely, an active user whose password passes the check signs in as
      that user, provided the store's keys are unique. */
  lemma AuthorizeAcceptsActiveUser(store: UserStore, u: StoredUser, password: string,
                                   compare: (string, string) -> bool)
    requires ValidStore(store) && u in store.rows && u.active
    requires Truthy(u.email) && password != ""
    requires compare(password, StoredPasswordOrEmpty(u.password))
    ensures Authorize(Val(Credentials(u.email, Val(password))), store, compare).Some?
    ensures Authorize(Val(Credentials(u.email, Val(password))), store, compare).value.id == u.id
  {
    FindByEmailUnique(store, u);
  }

  /** A user without a stored password is checked against the empty string. */
  lemma AuthorizeNoPasswordChecksEmpty(credentials: JsValue<Credentials>, store: UserStore,
                                       compare: (string, string) -> bool)
    requires credentials.Val? && Truthy(credentials.value.email)
    requires Truthy(credentials.value.password)
    requires FindByEmail(store.rows, credentials.value.email.value).Some?
    requires FindByEmail(store.rows, credentials.value.email.value).value.password.Null?
    ensures Authorize(credentials, store, compare).Some? <==>
      FindByEmail(store.rows, credentials.value.email.value).value.active &&
      compare(credentials.value.password.value, "")
  {
  }

  // ---------------------------------------------------------------------
  // The `jwt` callback

  /** The claims of the JWT that this configuration reads or writes. */
  datatype Claims = Claims(
    sub: JsValue<string>,
    id: JsValue<string>,
    email: JsValue<string>,
    name: JsValue<string>,
    image: JsValue<string>,
    subscriptionPlan: JsValue<string>,
    subscriptionStatus: JsValue<string>,
    subscriptionInterval: JsValue<string>,
    subscriptionCurrentPeriodEnd: JsValue<Date>)

  /** Why the `jwt` callback is invoked; `NoTrigger` is `undefined`. */
  datatype Trigger = SignIn | SignUp | Update | NoTrigger

  /** The first step of `jwt`: on sign-in the user's fields overwrite the
      token's. */
  function WithUser(c: Claims, user: Option<AuthUser>): (r: Claims)
    ensures r.sub == c.sub
    ensures user.None? ==> r == c
    ensures user.Some? ==>
      && r.id == Val(user.value.id) && r.email == user.value.email
      && r.name == user.value.name && r.image == user.value.image
      && r.subscriptionPlan == user.value.subscriptionPlan
      && r.subscriptionStatus == user.value.subscriptionStatus
      && r.subscriptionInterval == user.value.subscriptionInterval
      && r.subscriptionCurrentPeriodEnd == user.value.subscriptionCurrentPeriodEnd
  {
    match user
    case None => c
    case Some(u) =>
      c.(email := u.email, id := Val(u.id), name := u.name, image := u.image,
         subscriptionPlan := u.subscriptionPlan,
         subscriptionStatus := u.subscriptionStatus,
         subscriptionInterval := u.subscriptionInterval,
         subscriptionCurrentPeriodEnd := u.subscriptionCurrentPeriodEnd)
  }

  /** The second step of `jwt`: on an `update` trigger with an id in the
      token, subscription and profile fields are re-read from the store. */
  function Refreshed(c: Claims, trigger: Trigger, store: UserStore): (r: Claims)
    ensures r.sub == c.sub && r.id == c.id
    ensures r != c ==> trigger == Update && Truthy(c.id) && FindById(store.rows, c.id.value).Some?
    ensures r != c ==>
      && !r.subscriptionPlan.Null? && !r.subscriptionStatus.Null?
      && !r.subscriptionInterval.Null? && !r.subscriptionCurrentPeriodEnd.Null?
  {
    if trigger == Update && Truthy(c.id) then
      match FindById(store.rows, c.id.value)
      case None => c
      case Some(u) =>
        c.(subscriptionPlan := OrUndefined(u.subscriptionPlan),
           subscriptionStatus := OrUndefined(u.subscriptionStatus),
           subscriptionInterval := OrUndefined(u.subscriptionInterval),
           subscriptionCurrentPeriodEnd := OrUndefined(u.subscriptionCurrentPeriodEnd),
           name := u.name, email := u.email, image := u.image)
    else c
  }

  /** The token the `jwt` callback returns. */
  function JwtResult(c: Claims, user: Option<AuthUser>, trigger: Trigger, store: UserStore): (r: Claims)
    ensures r.sub == c.sub
    ensures user.Some? ==> r.id == Val(user.value.id)
    ensures user.None? ==> r.id == c.id
    ensures trigger != Update ==> r == WithUser(c, user)
  {
    Refreshed(WithUser(c, user), trigger, store)
  }

  /** When a user is passed and no refresh is asked for, the token carries
      exactly that user's fields; `sub` is untouched. */
  lemma JwtSignInCopiesUser(c: Claims, u: AuthUser, trigger: Trigger, store: UserStore)
    requires trigger != Update
    ensures var t := JwtResult(c, Some(u), trigger, store);
      && t.sub == c.sub && t.id == Val(u.id) && t.email == u.email
      && t.name == u.name && t.image == u.image
      && t.subscriptionPlan == u.subscriptionPlan
      && t.subscriptionStatus == u.subscriptionStatus
      && t.subscriptionInterval == u.subscriptionInterval
      && t.subscriptionCurrentPeriodEnd == u.subscriptionCurrentPeriodEnd
  {
  }

  /** The store is consulted only on `update` with an id in the token: in any
      other case two different stores give the same token. */
  lemma JwtReadsStoreOnlyOnUpdate(c: Claims, user: Option<AuthUser>, trigger: Trigger,
                                  store1: UserStore, store2: UserStore)
    requires trigger != Update || !Truthy(WithUser(c, user).id)
    ensures JwtResult(c, user, trigger, store1) == WithUser(c, user)
    ensures JwtResult(c, user, trigger, store1) == JwtResult(c, user, trigger, store2)
  {
  }

  /** An update for an id the store does not hold leaves the token as the
      sign-in step left it. */
  lemma JwtUpdateUnknownIdUnchanged(c: Claims, store: UserStore)
    requires Truthy(c.id) && forall u :: u in store.rows ==> u.id != c.id.value
    ensures Refreshed(c, Update, store) == c
  {
  }

  /** In the update branch subscription fields map `null` to `undefined`,
      name, e-mail and image are copied as stored (a `null` stays `null`),
      and `sub` and `id` are kept. */
  lemma JwtUpdateCopiesStoredUser(c: Claims, store: UserStore, u: StoredUser)
    requires ValidStore(store) && u in store.rows && c.id == Val(u.id) && u.id != ""
    ensures var t := Refreshed(c, Update, store);
      && t.sub == c.sub && t.id == c.id
      && t.name == u.name && t.email == u.email && t.image == u.image
      && t.subscriptionPlan == OrUndefined(u.subscriptionPlan)
      && t.subscriptionStatus == OrUndefined(u.subscriptionStatus)
      && t.subscriptionInterval == OrUndefined(u.subscriptionInterval)
      && t.subscriptionCurrentPeriodEnd == OrUndefined(u.subscriptionCurrentPeriodEnd)
  {
    FindByIdUnique(store, u);
  }

  lemma {:induction false} FindByIdUnique(store: UserStore, u: StoredUser)
    requires ValidStore(store) && u in store.rows
    ensures FindById(store.rows, u.id) == Some(u)
    decreases |store.rows|
  {
    var rows := store.rows;
    if rows[0] != u {
      var k :| 0 <= k < |rows| && rows[k] == u;
      assert k > 0 && rows[0].id != u.id;
      var tail := UserStore(rows[1..]);
      assert rows[1..][k - 1] == u;
      assert ValidStore(tail) by {
        forall i, j | 0 <= i < j < |tail.rows|
          ensures tail.rows[i].id != tail.rows[j].id &&
            (tail.rows[i].email.Val? ==> tail.rows[i].email != tail.rows[j].email)
        {
          assert tail.rows[i] == rows[i + 1] && tail.rows[j] == rows[j + 1];
        }
      }
      FindByIdUnique(tail, u);
    }
  }

  /** Refreshing twice from the same store is the same as refreshing once. */
  lemma JwtRefreshIdempotent(c: Claims, trigger: Trigger, store: UserStore)
    ensures Refreshed(Refreshed(c, trigger, store), trigger, store) == Refreshed(c, trigger, store)
  {
  }

  /** The token object the `jwt` callback mutates in place. */
  class Token {
    var sub: JsValue<string>
    var id: JsValue<string>
    var email: JsValue<string>
    var name: JsValue<string>
    var image: JsValue<string>
    var subscriptionPlan: JsValue<string>
    var subscriptionStatus: JsValue<string>
    var subscriptionInterval: JsValue<string>
    var subscriptionCurrentPeriodEnd: JsValue<Date>

    constructor (c: Claims)
      ensures Current() == c
    {
      sub, id, email, name, image := c.sub, c.id, c.email, c.name, c.image;
      subscriptionPlan, subscriptionStatus := c.subscriptionPlan, c.subscriptionStatus;
      subscriptionInterval := c.subscriptionInterval;
      subscriptionCurrentPeriodEnd := c.subscriptionCurrentPeriodEnd;
    }

    function Current(): Claims
      reads this
    {
      Claims(sub, id, email, name, image, subscriptionPlan, subscriptionStatus,
                  subscriptionInterval, subscriptionCurrentPeriodEnd)
    }

    /** The `jwt` callback: updates this token field by field and returns it. */
    method Jwt(user: Option<AuthUser>, trigger: Trigger, store: UserStore) returns (t: Token)
      modifies this
      ensures t == this
      ensures Current() == JwtResult(old(Current()), user, trigger, store)
      ensures sub == old(sub)
    {
      if user.Some? {
        var u := user.value;
        email := u.email;
        id := Val(u.id);
        name := u.name;
        image := u.image;
        subscriptionPlan := u.subscriptionPlan;
        subscriptionStatus := u.subscriptionStatus;
        subscriptionInterval := u.subscriptionInterval;
        subscriptionCurrentPeriodEnd := u.subscriptionCurrentPeriodEnd;
      }
      if trigger == Update {
        if Truthy(id) {
          var found := FindById(store.rows, id.value);
          if found.Some? {
            var u := found.value;
            subscriptionPlan := OrUndefined(u.subscriptionPlan);
            subscriptionStatus := OrUndefined(u.subscriptionStatus);
            subscriptionInterval := OrUndefined(u.subscriptionInterval);
            subscriptionCurrentPeriodEnd := OrUndefined(u.subscriptionCurrentPeriodEnd);
            name := u.name;
            email := u.email;
            image := u.image;
          }
        }
      }
      t := this;
    }
  }

  // ---------------------------------------------------------------------
  // The `session` callback

  /** The fields of `session.user`. */
  datatype SessionUserView = SessionUserView(
    id: JsValue<string>,
    email: JsValue<string>,
    name: JsValue<string>,
    image: JsValue<string>,
    subscriptionPlan: JsValue<string>,
    subscriptionStatus: JsValue<string>,
    subscriptionInterval: JsValue<string>,
    subscriptionCurrentPeriodEnd: JsValue<Date>)

  /** What the `session` callback writes into `session.user`; the casts of the
      source do not change values. */
  function UserFromToken(c: Claims): (v: SessionUserView)
    ensures v.id == c.sub
    ensures v.email == c.email && v.name == c.name && v.image == c.image
    ensures v.subscriptionPlan == c.subscriptionPlan && v.subscriptionStatus == c.subscriptionStatus
    ensures v.subscriptionInterval == c.subscriptionInterval
    ensures v.subscriptionCurrentPeriodEnd == c.subscriptionCurrentPeriodEnd
  {
    SessionUserView(c.sub, c.email, c.name, c.image, c.subscriptionPlan,
                    c.subscriptionStatus, c.subscriptionInterval, c.subscriptionCurrentPeriodEnd)
  }

  /** The session's user id comes from the token's `sub`, never from the
      token's `id` claim. */
  lemma SessionIdFromSub(c: Claims, otherId: JsValue<string>)
    ensures UserFromToken(c).id == c.sub
    ensures UserFromToken(c.(id := otherId)) == UserFromToken(c)
  {
  }

  /** After a sign-in without refresh, the session shows the signed-in user's
      profile and subscription fields, with the id taken from `sub`. */
  lemma SessionAfterSignIn(c: Claims, u: AuthUser, trigger: Trigger, store: UserStore)
    requires trigger != Update
    ensures UserFromToken(JwtResult(c, Some(u), trigger, store)) ==
      SessionUserView(c.sub, u.email, u.name, u.image, u.subscriptionPlan,
                      u.subscriptionStatus, u.subscriptionInterval, u.subscriptionCurrentPeriodEnd)
  {
  }

  class SessionUser {
    var id: JsValue<string>
    var email: JsValue<string>
    var name: JsValue<string>
    var image: JsValue<string>
    var subscriptionPlan: JsValue<string>
    var subscriptionStatus: JsValue<string>
    var subscriptionInterval: JsValue<string>
    var subscriptionCurrentPeriodEnd: JsValue<Date>

    constructor (v: SessionUserView)
      ensures View() == v
    {
      id, email, name, image := v.id, v.email, v.name, v.image;
      subscriptionPlan, subscriptionStatus := v.subscriptionPlan, v.subscriptionStatus;
      subscriptionInterval := v.subscriptionInterval;
      subscriptionCurrentPeriodEnd := v.subscriptionCurrentPeriodEnd;
    }

    function View(): SessionUserView
      reads this
    {
      SessionUserView(id, email, name, image, subscriptionPlan, subscriptionStatus,
                      subscriptionInterval, subscriptionCurrentPeriodEnd)
    }
  }

  class Session {
    var user: SessionUser?

    constructor (user: SessionUser?)
      ensures this.user == user
    {
      this.user := user;
    }
  }

  /** The `session` callback: copies the token into `session.user` when both
      exist, in place, and returns the same session. */
  method SessionCallback(session: Session, token: Token?) returns (s: Session)
    modifies session.user
    ensures s == session && session.user == old(session.user)
    ensures session.user != null && token != null ==>
      session.user.View() == UserFromToken(old(token.Current()))
    ensures session.user == null || token == null ==>
      session.user == null || session.user.View() == old(session.user.View())
  {
    if token != null && session.user != null {
      var c := token.Current();
      var u := session.user;
      u.id := c.sub;
      u.email := c.email;
      u.name := c.name;
      u.image := c.image;
      u.subscriptionPlan := c.subscriptionPlan;
      u.subscriptionStatus := c.subscriptionStatus;
      u.subscriptionInterval := c.subscriptionInterval;
      u.subscriptionCurrentPeriodEnd := c.subscriptionCurrentPeriodEnd;
    }
    s := session;
  }
}
