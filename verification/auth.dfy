/** Sign-up, log-in and "who am I" over the profile table.

    Password hashing and token signing are library code with secrets and
    randomness; they are parameters here: `hash(password)` is the salted
    hash stored at sign-up, `check(password, hash)` is the verification
    (its exceptions read as false, as the source does), and `sign(uid)` is
    the signed token for `uid`.  What the source relies on about them is
    stated as the `requires` of the lemmas that need it. */
module Auth {
  import opened Values
  import opened Fields
  import opened Http
  import opened Store
  import opened Identity

  /** `(data.get("email") or "").strip().lower()`. */
  function NormalizedEmail(v: Value): (r: Option<string>)
    ensures r.None? <==> Truthy(v) && !v.Str?
    ensures !Truthy(v) ==> r == Some("")
    ensures v.Str? ==> r == Some(Lower(Strip(v.s)))
    ensures r.Some? ==> Trimmed(r.value)
    ensures r.Some? ==> forall i :: 0 <= i < |r.value| ==> !('A' <= r.value[i] <= 'Z')
  {
    match TextOf(v)
    case None => None
    case Some(t) => Some(Lower(t))
  }

  /** Normalizing an already normalized email changes nothing. */
  lemma NormalizedEmailIdempotent(v: Value)
    requires NormalizedEmail(v).Some?
    ensures NormalizedEmail(Str(NormalizedEmail(v).value)) == NormalizedEmail(v)
  {
    var e := NormalizedEmail(v).value;
    LowerKeepsLowerCase(e);
  }

  /** `data.get("password") or ""`. */
  function PasswordOf(body: Body): Value {
    var p := Get(body, "password", Null);
    if Truthy(p) then p else Str("")
  }

  /** A set with no members is the empty set. */
  lemma NoMembersIsEmpty(s: set<int>)
    ensures (forall y :: y !in s) ==> s == {}
  {
    if forall y :: y !in s {
      assert s == {};
    }
  }

  /** Every non-empty set of ids has a greatest element. */
  lemma {:induction false} HasGreatest(s: set<int>)
    requires s != {}
    ensures exists m :: m in s && forall x :: x in s ==> x <= m
    decreases |s|
  {
    NoMembersIsEmpty(s);
    var y :| y in s;
    var rest := s - {y};
    if rest == {} {
      assert forall x :: x in s ==> x <= y by {
        forall x | x in s ensures x <= y { assert x !in rest; }
      }
    } else {
      assert |rest| == |s| - 1;
      HasGreatest(rest);
      var k :| k in rest && forall x :: x in rest ==> x <= k;
      var m := if y > k then y else k;
      assert forall x :: x in s ==> x <= m by {
        forall x | x in s ensures x <= m { if x != y { assert x in rest; } }
      }
      assert m in s;
    }
  }

  /** Every non-empty set of ids has a least element. */
  lemma {:induction false} HasLeast(s: set<int>)
    requires s != {}
    ensures exists m :: m in s && forall x :: x in s ==> m <= x
    decreases |s|
  {
    NoMembersIsEmpty(s);
    var y :| y in s;
    var rest := s - {y};
    if rest == {} {
      assert forall x :: x in s ==> y <= x by {
        forall x | x in s ensures y <= x { assert x !in rest; }
      }
    } else {
      assert |rest| == |s| - 1;
      HasLeast(rest);
      var k :| k in rest && forall x :: x in rest ==> k <= x;
      var m := if y < k then y else k;
      assert forall x :: x in s ==> m <= x by {
        forall x | x in s ensures m <= x { if x != y { assert x in rest; } }
      }
      assert m in s;
    }
  }

  /** `SELECT COALESCE(MAX(id), 0) + 1 FROM profile`. */
  function NextProfileId(profiles: map<int, Profile>): (id: int)
    ensures forall k :: k in profiles ==> k < id
    ensures |profiles| == 0 ==> id == 1
    ensures |profiles| != 0 ==> id - 1 in profiles
  {
    if |profiles| == 0 then 1
    else
      var ids := profiles.Keys;
      assert ids != {} by {
        assert |ids| == |profiles|;
      }
      HasGreatest(ids);
      var m :| m in ids && forall x :: x in ids ==> x <= m;
      m + 1
  }

  /** The row a `SELECT ... WHERE email=%s` hands to `fetchone()`.  Several
      rows can match when the email column is not unique; the database
      returns one of them, and the model fixes that choice as the least id. */
  function LeastId(ids: set<int>): (m: int)
    requires ids != {}
    ensures m in ids && forall x :: x in ids ==> m <= x
  {
    HasLeast(ids);
    var m :| m in ids && forall x :: x in ids ==> m <= x;
    m
  }

  const InvalidCredentials: Response := Err(401, "invalid credentials")

  /** The row sign-up inserts: the stripped display name (or "User"), the
      normalized email and the password's hash. */
  function SignupProfile(name: string, email: string, pwHash: string): (p: Profile)
    ensures EmailOf(p) == Str(email)
    ensures Column(p.cols, "password_hash") == Str(pwHash)
    ensures Column(p.cols, "display_name") == Str(if name == "" then "User" else name)
    ensures Column(p.cols, "avatar_url") == Null && Column(p.cols, "bio") == Null
  {
    var cols := map[
      "display_name" := Str(if name == "" then "User" else name),
      "email" := Str(email),
      "password_hash" := Str(pwHash)];
    assert cols["email"] == Str(email) && cols["password_hash"] == Str(pwHash);
    assert "avatar_url" !in cols && "bio" !in cols;
    Profile(cols)
  }

  /** The checks sign-up runs before touching the table, in the source's
      order: reading the body (500 on a non-text email or display name),
      422 for a blank email or an empty password, 409 for a taken email, and
      500 when the password is not text and cannot be hashed. */
  function SignupRefusal(db: Db, body: Body): (r: Option<Response>)
    ensures r.Some? ==> r.value.status in {409, 422, 500}
    ensures NormalizedEmail(Get(body, "email", Null)).None? || TextOf(Get(body, "display_name", Null)).None? ==>
      r == Some(InternalError)
    ensures
      && NormalizedEmail(Get(body, "email", Null)).Some? && TextOf(Get(body, "display_name", Null)).Some?
      && (NormalizedEmail(Get(body, "email", Null)).value == "" || !Truthy(PasswordOf(body)))
      ==> r == Some(Err(422, "email and password required"))
    ensures
      && NormalizedEmail(Get(body, "email", Null)).Some? && TextOf(Get(body, "display_name", Null)).Some?
      && NormalizedEmail(Get(body, "email", Null)).value != "" && Truthy(PasswordOf(body))
      && AccountsWithEmail(db.profiles, NormalizedEmail(Get(body, "email", Null)).value) != {}
      ==> r == Some(Err(409, "email already in use"))
    ensures
      && NormalizedEmail(Get(body, "email", Null)).Some? && TextOf(Get(body, "display_name", Null)).Some?
      && NormalizedEmail(Get(body, "email", Null)).value != "" && Truthy(PasswordOf(body))
      && AccountsWithEmail(db.profiles, NormalizedEmail(Get(body, "email", Null)).value) == {}
      && !PasswordOf(body).Str?
      ==> r == Some(InternalError)
    ensures r.Some? && r.value.status == 422 ==>
      NormalizedEmail(Get(body, "email", Null)) == Some("") || !Truthy(PasswordOf(body))
    ensures r.Some? && r.value.status == 409 ==>
      && NormalizedEmail(Get(body, "email", Null)).Some?
      && AccountsWithEmail(db.profiles, NormalizedEmail(Get(body, "email", Null)).value) != {}
    ensures r.None? <==>
      && NormalizedEmail(Get(body, "email", Null)).Some?
      && NormalizedEmail(Get(body, "email", Null)).value != ""
      && TextOf(Get(body, "display_name", Null)).Some?
      && PasswordOf(body).Str? && PasswordOf(body).s != ""
      && AccountsWithEmail(db.profiles, NormalizedEmail(Get(body, "email", Null)).value) == {}
  {
    var email := NormalizedEmail(Get(body, "email", Null));
    var password := PasswordOf(body);
    var name := TextOf(Get(body, "display_name", Null));
    if email.None? || name.None? then Some(InternalError)
    else if email.value == "" || !Truthy(password) then Some(Err(422, "email and password required"))
    else if AccountsWithEmail(db.profiles, email.value) != {} then Some(Err(409, "email already in use"))
    else if !password.Str? then Some(InternalError)
    else None
  }

  /** The INSERT of a new account at the next profile id. */
  function AddAccount(profiles: map<int, Profile>, name: string, email: string, pwHash: string)
    : (r: (int, map<int, Profile>))
    ensures r.0 == NextProfileId(profiles)
    ensures forall k :: k in profiles ==> k < r.0
    ensures r.1.Keys == profiles.Keys + {r.0}
    ensures r.1[r.0] == SignupProfile(name, email, pwHash)
    ensures forall k :: k in profiles ==> r.1[k] == profiles[k]
    ensures EmailOf(r.1[r.0]) == Str(email)
    ensures Column(r.1[r.0].cols, "password_hash") == Str(pwHash)
  {
    var id := NextProfileId(profiles);
    (id, profiles[id := SignupProfile(name, email, pwHash)])
  }

  /** POST /auth/signup. */
  function Signup(db: Db, body: Body, hash: string -> string, sign: int -> string): (r: Step)
    ensures r.resp.status in {201, 409, 422, 500}
    ensures r.resp.status != 201 ==> r.db == db
    ensures r.resp.status != 201 ==> SignupRefusal(db, body) == Some(r.resp)
    ensures r.resp.status == 201 <==> SignupRefusal(db, body).None?
    ensures r.resp.status == 201 ==>
      && var name := TextOf(Get(body, "display_name", Null));
      && var email := NormalizedEmail(Get(body, "email", Null));
      && name.Some? && email.Some? && PasswordOf(body).Str?
      && r.resp == Ok(201, Session(NextProfileId(db.profiles), sign(NextProfileId(db.profiles))))
      && r.db.profiles == db.profiles[NextProfileId(db.profiles) :=
           SignupProfile(name.value, email.value, hash(PasswordOf(body).s))]
    ensures r.resp.status == 422 ==>
      NormalizedEmail(Get(body, "email", Null)) == Some("") || !Truthy(PasswordOf(body))
    ensures r.resp.status == 409 ==>
      && NormalizedEmail(Get(body, "email", Null)).Some?
      && AccountsWithEmail(db.profiles, NormalizedEmail(Get(body, "email", Null)).value) != {}
    ensures r.resp.status == 201 ==>
      && r.resp.Ok? && r.resp.payload.Session?
      && var id := r.resp.payload.userId;
      && (forall k :: k in db.profiles ==> k < id)
      && r.resp.payload.token == sign(id)
      && r.db.profiles.Keys == db.profiles.Keys + {id}
      && (forall k :: k in db.profiles ==> r.db.profiles[k] == db.profiles[k])
      && r.db == db.(profiles := r.db.profiles)
      && NormalizedEmail(Get(body, "email", Null)).Some?
      && EmailOf(r.db.profiles[id]) == Str(NormalizedEmail(Get(body, "email", Null)).value)
      && PasswordOf(body).Str?
      && Column(r.db.profiles[id].cols, "password_hash") == Str(hash(PasswordOf(body).s))
      && AccountsWithEmail(db.profiles, NormalizedEmail(Get(body, "email", Null)).value) == {}
  {
    match SignupRefusal(db, body)
    case Some(resp) => Step(resp, db)
    case None =>
      var email := NormalizedEmail(Get(body, "email", Null)).value;
      var name := TextOf(Get(body, "display_name", Null)).value;
      var (id, profiles) := AddAccount(db.profiles, name, email, hash(PasswordOf(body).s));
      Step(Ok(201, Session(id, sign(id))), db.(profiles := profiles))
  }

  /** The password check against the row `fetchone()` returns among the
      accounts `ids` registered under the submitted email.  A missing
      account, an empty stored hash and a rejected password are one and the
      same 401; a password that is not text cannot be encoded, which the
      check's own exception handler reads as a mismatch. */
  function Authenticate(profiles: map<int, Profile>, ids: set<int>, password: Value,
                        check: (string, string) -> bool, sign: int -> string): (r: Response)
    requires forall id :: id in ids ==> id in profiles
    ensures r.status in {200, 401, 500}
    ensures r.status == 401 ==> r == InvalidCredentials
    ensures ids == {} ==> r == InvalidCredentials
    ensures ids != {} ==>
      var stored := Column(profiles[LeastId(ids)].cols, "password_hash");
      && (!Truthy(stored) ==> r == InvalidCredentials)
      && (Truthy(stored) && !stored.Str? ==> r == InternalError)
      && (Truthy(stored) && stored.Str? && !(password.Str? && check(password.s, stored.s)) ==> r == InvalidCredentials)
      && (Truthy(stored) && stored.Str? && password.Str? && check(password.s, stored.s) ==>
            r == Ok(200, Session(LeastId(ids), sign(LeastId(ids)))))
    ensures r.status == 200 ==>
      && r.Ok? && r.payload.Session?
      && var id := r.payload.userId;
      && id in ids
      && (forall k :: k in ids ==> id <= k)
      && r.payload.token == sign(id)
      && password.Str?
      && Column(profiles[id].cols, "password_hash").Str?
      && check(password.s, Column(profiles[id].cols, "password_hash").s)
  {
    if ids == {} then InvalidCredentials
    else
      var id := LeastId(ids);
      var stored := Column(profiles[id].cols, "password_hash");
      if !Truthy(stored) then InvalidCredentials
      else if !stored.Str? then InternalError
      else if !(password.Str? && check(password.s, stored.s)) then InvalidCredentials
      else Ok(200, Session(id, sign(id)))
  }

  /** POST /auth/login.  Unknown email, missing hash and wrong password all
      give the same 401. */
  function Login(db: Db, body: Body, check: (string, string) -> bool, sign: int -> string): (r: Response)
    ensures r.status in {200, 401, 422, 500}
    ensures r.status == 401 ==> r == InvalidCredentials
    ensures NormalizedEmail(Get(body, "email", Null)).None? ==> r == InternalError
    ensures
      && NormalizedEmail(Get(body, "email", Null)).Some?
      && NormalizedEmail(Get(body, "email", Null)).value != "" && Truthy(PasswordOf(body))
      ==> r == Authenticate(db.profiles, AccountsWithEmail(db.profiles, NormalizedEmail(Get(body, "email", Null)).value),
                            PasswordOf(body), check, sign)
    ensures r.status == 422 <==>
      NormalizedEmail(Get(body, "email", Null)) == Some("")
      || (NormalizedEmail(Get(body, "email", Null)).Some? && !Truthy(PasswordOf(body)))
    ensures r.status == 200 ==>
      && r.Ok? && r.payload.Session?
      && NormalizedEmail(Get(body, "email", Null)).Some?
      && var ids := AccountsWithEmail(db.profiles, NormalizedEmail(Get(body, "email", Null)).value);
      && var id := r.payload.userId;
      && id in ids
      && (forall k :: k in ids ==> id <= k)
      && r.payload.token == sign(id)
      && PasswordOf(body).Str?
      && Column(db.profiles[id].cols, "password_hash").Str?
      && check(PasswordOf(body).s, Column(db.profiles[id].cols, "password_hash").s)
  {
    var email := NormalizedEmail(Get(body, "email", Null));
    var password := PasswordOf(body);
    if email.None? then InternalError
    else if email.value == "" || !Truthy(password) then Err(422, "email and password required")
    else Authenticate(db.profiles, AccountsWithEmail(db.profiles, email.value), password, check, sign)
  }

  /** GET /auth/me: only a verified bearer token is accepted. */
  function Me(db: Db, authorization: string, verify: (string, int) -> Option<Value>): (r: Response)
    ensures r.status in {200, 401, 404}
    ensures r.status == 401 <==> UidFromBearer(authorization, verify).None?
    ensures r.status == 404 <==>
      UidFromBearer(authorization, verify).Some? && UidFromBearer(authorization, verify).value !in db.profiles
    ensures r.status == 200 ==>
      var uid := UidFromBearer(authorization, verify).value;
      uid in db.profiles && r == Ok(200, ProfileViewOf(uid, db.profiles[uid]))
  {
    match UidFromBearer(authorization, verify)
    case None => Err(401, "no/invalid token")
    case Some(uid) =>
      if uid !in db.profiles then Err(404, "user not found")
      else Ok(200, ProfileViewOf(uid, db.profiles[uid]))
  }

  /** Sign-up never creates a second profile with the same string email. */
  lemma SignupKeepsEmailsUnique(db: Db, body: Body, hash: string -> string, sign: int -> string)
    requires UniqueEmails(db.profiles)
    ensures UniqueEmails(Signup(db, body, hash, sign).db.profiles)
  {
    var r := Signup(db, body, hash, sign);
    if r.resp.status == 201 {
      var id := r.resp.payload.userId;
      var e := NormalizedEmail(Get(body, "email", Null)).value;
      var ps := r.db.profiles;
      forall i, j | i in ps && j in ps && i != j && EmailOf(ps[i]).Str?
        ensures EmailOf(ps[i]) != EmailOf(ps[j])
      {
        if i == id {
          assert j !in AccountsWithEmail(db.profiles, e);
        } else if j == id {
          assert i !in AccountsWithEmail(db.profiles, e);
        }
      }
    }
  }

  /** A sign-up body the handler accepts: its email normalizes to the
      non-empty `email`, which no profile holds; its display name is
      readable; its password is the non-empty text `password`. */
  ghost predicate SignupAccepted(db: Db, body: Body, email: string, password: string) {
    && NormalizedEmail(Get(body, "email", Null)) == Some(email) && email != ""
    && TextOf(Get(body, "display_name", Null)).Some?
    && PasswordOf(body) == Str(password) && password != ""
    && AccountsWithEmail(db.profiles, email) == {}
  }

  /** An accepted body creates the account. */
  lemma SignupAcceptedCreates(db: Db, body: Body, email: string, password: string,
                              hash: string -> string, sign: int -> string)
    requires SignupAccepted(db, body, email, password)
    ensures Signup(db, body, hash, sign).resp.status == 201
  {
    assert SignupRefusal(db, body).None?;
  }

  /** Logging in to the only account with an email, with a password its
      stored hash accepts, succeeds with that account's id. */
  lemma LoginSoleAccount(db: Db, body: Body, id: int, email: string, password: string, stored: string,
                         check: (string, string) -> bool, sign: int -> string)
    requires NormalizedEmail(Get(body, "email", Null)) == Some(email) && email != ""
    requires AccountsWithEmail(db.profiles, email) == {id}
    requires PasswordOf(body) == Str(password) && password != ""
    requires id in db.profiles && Column(db.profiles[id].cols, "password_hash") == Str(stored) && stored != ""
    requires check(password, stored)
    ensures Login(db, body, check, sign) == Ok(200, Session(id, sign(id)))
  {
    var ids := AccountsWithEmail(db.profiles, email);
    assert LeastId(ids) == id;
    assert Authenticate(db.profiles, ids, PasswordOf(body), check, sign) == Ok(200, Session(id, sign(id)));
  }

  /** Adding a profile with an email no other profile carries makes it the
      only account with that email. */
  lemma AddFreshEmail(profiles: map<int, Profile>, id: int, p: Profile, email: string)
    requires AccountsWithEmail(profiles, email) == {}
    requires EmailOf(p) == Str(email)
    ensures AccountsWithEmail(profiles[id := p], email) == {id}
  {
    var ps := profiles[id := p];
    forall k | k in ps && k != id
      ensures EmailOf(ps[k]) != Str(email)
    {
      assert k !in AccountsWithEmail(profiles, email);
    }
    assert forall k :: k in AccountsWithEmail(ps, email) <==> k == id;
  }

  /** After a successful sign-up the new profile is the only one carrying
      the normalized email. */
  lemma SignupAccountIsSole(db: Db, body: Body, email: string, password: string,
                            hash: string -> string, sign: int -> string)
    requires SignupAccepted(db, body, email, password)
    ensures Signup(db, body, hash, sign).resp.status == 201
    ensures var after := Signup(db, body, hash, sign);
      AccountsWithEmail(after.db.profiles, email) == {after.resp.payload.userId}
  {
    SignupAcceptedCreates(db, body, email, password, hash, sign);
    var after := Signup(db, body, hash, sign);
    var id := after.resp.payload.userId;
    assert after.db.profiles == db.profiles[id := after.db.profiles[id]];
    AddFreshEmail(db.profiles, id, after.db.profiles[id], email);
  }

  /** After a sign-up, logging in with the same password and an email that
      normalizes the same way (any case, any padding) returns the new id,
      provided every hash is non-empty and verifies the password it was
      made from. */
  lemma SignupThenLogin(db: Db, body: Body, loginBody: Body, email: string, password: string,
                        hash: string -> string, check: (string, string) -> bool, sign: int -> string)
    requires SignupAccepted(db, body, email, password)
    requires NormalizedEmail(Get(loginBody, "email", Null)) == Some(email)
    requires PasswordOf(loginBody) == Str(password)
    requires forall p :: hash(p) != "" && check(p, hash(p))
    ensures Signup(db, body, hash, sign).resp.status == 201
    ensures var after := Signup(db, body, hash, sign);
      var id := after.resp.payload.userId;
      Login(after.db, loginBody, check, sign) == Ok(200, Session(id, sign(id)))
  {
    SignupAccountIsSole(db, body, email, password, hash, sign);
    var after := Signup(db, body, hash, sign);
    var id := after.resp.payload.userId;
    assert Column(after.db.profiles[id].cols, "password_hash") == Str(hash(password));
    LoginSoleAccount(after.db, loginBody, id, email, password, hash(password), check, sign);
  }

  /** A second sign-up with an email that normalizes the same way is refused
      with 409 and changes nothing. */
  lemma SignupTwiceConflicts(db: Db, body: Body, again: Body, email: string, password: string,
                             hash: string -> string, sign: int -> string)
    requires SignupAccepted(db, body, email, password)
    requires NormalizedEmail(Get(again, "email", Null)) == Some(email)
    requires Truthy(PasswordOf(again))
    requires TextOf(Get(again, "display_name", Null)).Some?
    ensures var after := Signup(db, body, hash, sign).db;
      Signup(after, again, hash, sign) == Step(Err(409, "email already in use"), after)
  {
    SignupAcceptedCreates(db, body, email, password, hash, sign);
    var after := Signup(db, body, hash, sign);
    var id := after.resp.payload.userId;
    assert id in AccountsWithEmail(after.db.profiles, email);
    EmailTakenConflicts(after.db, again, email, hash, sign);
  }

  /** A sign-up whose email is already registered is a 409 that changes nothing. */
  lemma EmailTakenConflicts(db: Db, body: Body, email: string, hash: string -> string, sign: int -> string)
    requires NormalizedEmail(Get(body, "email", Null)) == Some(email) && email != ""
    requires Truthy(PasswordOf(body))
    requires TextOf(Get(body, "display_name", Null)).Some?
    requires AccountsWithEmail(db.profiles, email) != {}
    ensures Signup(db, body, hash, sign) == Step(Err(409, "email already in use"), db)
  {
    assert SignupRefusal(db, body) == Some(Err(409, "email already in use"));
  }

  /** A stored hash that cannot let `password` in: missing or empty, or
      text that the check rejects (a password that is not text never
      passes the check). */
  predicate Rejects(stored: Value, password: Value, check: (string, string) -> bool) {
    !Truthy(stored) || (stored.Str? && !(password.Str? && check(password.s, stored.s)))
  }

  /** Login does not reveal why it failed: an unknown email, an account with
      no password hash, and a password the hash rejects all get the
      identical answer. */
  lemma LoginFailuresIndistinguishable(db: Db, body: Body, email: string,
                                       check: (string, string) -> bool, sign: int -> string)
    requires NormalizedEmail(Get(body, "email", Null)) == Some(email) && email != ""
    requires Truthy(PasswordOf(body))
    requires forall id :: id in AccountsWithEmail(db.profiles, email) ==>
      Rejects(Column(db.profiles[id].cols, "password_hash"), PasswordOf(body), check)
    ensures Login(db, body, check, sign) == InvalidCredentials
  {
    var ids := AccountsWithEmail(db.profiles, email);
    if ids != {} {
      assert LeastId(ids) in ids;
    }
  }

  /** The token a sign-up returns, presented to GET /auth/me, shows the
      profile just created, provided the verifier accepts every token the
      signer produces, with its id as the claim. */
  lemma SignupTokenShowsNewProfile(db: Db, body: Body, email: string, password: string,
                                   hash: string -> string, sign: int -> string,
                                   verify: (string, int) -> Option<Value>)
    requires SignupAccepted(db, body, email, password)
    requires forall id :: Trimmed(sign(id)) && verify(sign(id), TokenMaxAge) == Some(Num(id as real))
    ensures Signup(db, body, hash, sign).resp.status == 201
    ensures var after := Signup(db, body, hash, sign);
      var id := after.resp.payload.userId;
      Me(after.db, BearerPrefix + after.resp.payload.token, verify)
         == Ok(200, ProfileViewOf(id, after.db.profiles[id]))
  {
    SignupAcceptedCreates(db, body, email, password, hash, sign);
    var after := Signup(db, body, hash, sign);
    var id := after.resp.payload.userId;
    assert after.resp.payload.token == sign(id);
    BearerTokenClaim(sign(id), id, verify);
    assert id in after.db.profiles;
  }
}
