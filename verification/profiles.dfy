/** GET and PUT /profile for the resolved user id.  A read of a missing
    profile answers a fixed placeholder instead of 404; a write updates the
    row keyed by the user id, or creates it when the update matched none. */
module Profiles {
  import opened Values
  import opened Fields
  import opened Http
  import opened Store

  /** The answer for a user with no profile row. */
  function Placeholder(uid: int): Payload {
    ProfileView(uid, Str("Your Name"), Str("you@example.com"), Null, Str(""))
  }

  /** GET /profile. */
  function ProfileGet(db: Db, uid: int): (r: Response)
    ensures r.Ok? && r.status == 200 && r.payload.ProfileView? && r.payload.viewer == uid
    ensures uid in db.profiles ==>
      && r.payload.displayName == Column(db.profiles[uid].cols, "display_name")
      && r.payload.email == EmailOf(db.profiles[uid])
      && r.payload.avatarUrl == Column(db.profiles[uid].cols, "avatar_url")
      && r.payload.bio == Column(db.profiles[uid].cols, "bio")
    ensures uid !in db.profiles ==> r.payload == Placeholder(uid)
  {
    if uid in db.profiles then Ok(200, ProfileViewOf(uid, db.profiles[uid]))
    else Ok(200, Placeholder(uid))
  }

  /** The row an upsert inserts when no profile exists: the body's values,
      with "User", NULL, NULL and "" for the fields it leaves out. */
  function InsertedProfile(body: Body): (p: Profile)
    ensures Column(p.cols, "display_name") == Get(body, "display_name", Str("User"))
    ensures EmailOf(p) == Get(body, "email", Null)
    ensures Column(p.cols, "avatar_url") == Get(body, "avatar_url", Null)
    ensures Column(p.cols, "bio") == Get(body, "bio", Str(""))
    ensures Column(p.cols, "password_hash") == Null
    ensures forall c :: c in p.cols ==> c in ProfileEditable
  {
    var cols := map[
      "display_name" := Get(body, "display_name", Str("User")),
      "email" := Get(body, "email", Null),
      "avatar_url" := Get(body, "avatar_url", Null),
      "bio" := Get(body, "bio", Str(""))];
    assert cols["display_name"] == Get(body, "display_name", Str("User"));
    assert cols["email"] == Get(body, "email", Null);
    assert cols["avatar_url"] == Get(body, "avatar_url", Null);
    assert cols["bio"] == Get(body, "bio", Str(""));
    assert "password_hash" !in cols;
    Profile(cols)
  }

  /** PUT /profile: the whitelisted upsert.  The UPDATE's row count is the
      number of rows matched, so the INSERT runs exactly when no profile
      row has the user's id. */
  function ProfilePut(db: Db, uid: int, body: Body): (r: Step)
    ensures r.resp.status in {200, 422}
    ensures r.resp.status == 422 <==> NoneSupplied(ProfileEditable, body)
    ensures r.resp.status == 422 ==> r.resp == Err(422, "no fields") && r.db == db
    ensures r.resp.status == 200 ==>
      && r.resp == Ok(200, Saved)
      && r.db == db.(profiles := r.db.profiles)
      && r.db.profiles.Keys == db.profiles.Keys + {uid}
      && (forall k :: k in db.profiles && k != uid ==> r.db.profiles[k] == db.profiles[k])
    ensures r.resp.status == 200 && uid in db.profiles ==>
      r.db.profiles[uid] == Profile(Overlay(db.profiles[uid].cols, ProfileEditable, body))
    ensures r.resp.status == 200 && uid !in db.profiles ==>
      r.db.profiles[uid] == InsertedProfile(body)
  {
    var fields := Pick(ProfileEditable, body);
    if fields == [] then Step(Err(422, "no fields"), db)
    else if uid in db.profiles then
      PatchPickIsOverlay(db.profiles[uid].cols, ProfileEditable, body);
      var updated := Profile(Patch(db.profiles[uid].cols, fields));
      Step(Ok(200, Saved), db.(profiles := db.profiles[uid := updated]))
    else
      Step(Ok(200, Saved), db.(profiles := db.profiles[uid := InsertedProfile(body)]))
  }

  /** After a successful PUT, GET shows every supplied field with the
      body's value; a field left out keeps its stored value, or, when the
      PUT created the row, reads as the insert's default. */
  lemma ProfilePutThenGet(db: Db, uid: int, body: Body, c: string)
    requires ProfilePut(db, uid, body).resp.status == 200
    requires c in ProfileEditable
    ensures var after := ProfilePut(db, uid, body).db;
      Column(after.profiles[uid].cols, c)
      == if c in body then body[c]
         else if uid in db.profiles then Column(db.profiles[uid].cols, c)
         else Column(InsertedProfile(map[]).cols, c)
  {
    var after := ProfilePut(db, uid, body).db;
    if uid in db.profiles {
      OverlayColumns(db.profiles[uid].cols, ProfileEditable, body);
    } else {
      assert c == "display_name" || c == "email" || c == "avatar_url" || c == "bio";
    }
  }

  /** A profile PUT never touches the stored password hash, and an existing
      profile keeps every column the whitelist does not name. */
  lemma ProfilePutKeepsPasswordHash(db: Db, uid: int, body: Body)
    requires uid in db.profiles
    ensures var after := ProfilePut(db, uid, body).db;
      && uid in after.profiles
      && Column(after.profiles[uid].cols, "password_hash") == Column(db.profiles[uid].cols, "password_hash")
      && forall c :: c !in ProfileEditable ==> Column(after.profiles[uid].cols, c) == Column(db.profiles[uid].cols, c)
  {
    var cols := db.profiles[uid].cols;
    OverlayColumns(cols, ProfileEditable, body);
    assert "password_hash" !in ProfileEditable;
  }

  /** The upsert keeps every profile row within the profile schema. */
  lemma ProfilePutKeepsValid(db: Db, uid: int, body: Body)
    requires Valid(db)
    ensures Valid(ProfilePut(db, uid, body).db)
  {
    if ProfilePut(db, uid, body).resp.status == 200 && uid in db.profiles {
      OverlayColumns(db.profiles[uid].cols, ProfileEditable, body);
    }
  }

  /** Unlike sign-up, the profile PUT handler does not check whether an email
      is free.  In a store with no unique index on `email` (the store here
      has none), a user can take another account's email, and two accounts
      then hold it.  A unique index would turn this write into a database
      error instead. */
  lemma ProfilePutCanDuplicateEmail(db: Db, uid: int, other: int, email: string)
    requires other in db.profiles && other != uid
    requires EmailOf(db.profiles[other]) == Str(email)
    ensures var r := ProfilePut(db, uid, map["email" := Str(email)]);
      && r.resp == Ok(200, Saved)
      && uid in r.db.profiles && EmailOf(r.db.profiles[uid]) == Str(email)
      && !UniqueEmails(r.db.profiles)
  {
    var body := map["email" := Str(email)];
    assert ProfileEditable[1] == "email" && "email" in body;
    var r := ProfilePut(db, uid, body);
    var after := r.db.profiles;
    if uid in db.profiles {
      OverlayColumns(db.profiles[uid].cols, ProfileEditable, body);
    }
    assert EmailOf(after[uid]) == Str(email);
    assert EmailOf(after[other]) == Str(email);
  }
}
