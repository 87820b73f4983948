/** The whole store: the profile table, the five owner-scoped tables and the
    two per-user goal tables, with the columns each table's statements
    write. */
module Store {
  import opened Values
  import opened Fields
  import opened Tables
  import opened Http

  /** A `profile` row; its key is the user id itself. */
  datatype Profile = Profile(cols: map<string, Value>)

  /** A `nutrients` row of kind 'goal'. */
  datatype Ratios = Ratios(veg: real, carb: real, protein: real)

  datatype Db = Db(
    profiles: map<int, Profile>,
    tasks: Table,
    diary: Table,
    events: Table,
    foods: Table,
    history: Table,
    goals: map<int, real>,
    nutrientGoals: map<int, Ratios>)

  /** A response and the store after the request. */
  datatype Step = Step(resp: Response, db: Db)

  /** Columns the handlers write, per table (`id`, `user_id` and the
      timestamp columns the database fills are not listed). */
  const ProfileColumns: seq<string> := ["display_name", "email", "avatar_url", "bio", "password_hash"]
  const TaskColumns: seq<string> := ["title", "urgency", "due_date", "done"]
  const DiaryColumns: seq<string> := ["entry_date", "title", "content", "mood"]
  const EventColumns: seq<string> := ["title", "note", "starts_at", "ends_at", "all_day", "color"]
  const FoodColumns: seq<string> := ["name", "veg_g", "carb_g", "protein_g", "per_unit_g"]
  const HistoryColumns: seq<string> :=
    ["eaten_at", "food_id", "name", "veg_g", "carb_g", "protein_g", "amount_g", "note"]

  /** The whitelists of the PUT handlers, in the source's order. */
  const ProfileEditable: seq<string> := ["display_name", "email", "avatar_url", "bio"]
  const TaskEditable: seq<string> := ["title", "urgency", "due_date", "done"]
  const FoodEditable: seq<string> := ["name", "veg_g", "carb_g", "protein_g", "per_unit_g"]
  const HistoryEditable: seq<string> := ["name", "veg_g", "carb_g", "protein_g", "amount_g", "note", "eaten_at"]

  /** A column read from a row; a column never written reads as NULL. */
  function Column(cols: map<string, Value>, c: string): Value {
    Get(cols, c, Null)
  }

  function EmailOf(p: Profile): Value {
    Column(p.cols, "email")
  }

  /** The profile fields a GET /profile or GET /auth/me answer carries. */
  function ProfileViewOf(uid: int, p: Profile): Payload {
    ProfileView(uid, Column(p.cols, "display_name"), EmailOf(p), Column(p.cols, "avatar_url"), Column(p.cols, "bio"))
  }

  ghost predicate ProfilesOk(profiles: map<int, Profile>) {
    forall id, c :: id in profiles && c in profiles[id].cols ==> c in ProfileColumns
  }

  /** The store invariant every handler preserves. */
  ghost predicate Valid(db: Db) {
    && ProfilesOk(db.profiles)
    && TableOk(db.tasks, TaskColumns)
    && TableOk(db.diary, DiaryColumns)
    && TableOk(db.events, EventColumns)
    && TableOk(db.foods, FoodColumns)
    && TableOk(db.history, HistoryColumns)
  }

  /** No two profiles share a string email. */
  ghost predicate UniqueEmails(profiles: map<int, Profile>) {
    forall i, j :: i in profiles && j in profiles && i != j && EmailOf(profiles[i]).Str? ==>
      EmailOf(profiles[i]) != EmailOf(profiles[j])
  }

  /** The ids of the profiles whose email column equals `email`
      (`SELECT id FROM profile WHERE email=%s`). */
  function AccountsWithEmail(profiles: map<int, Profile>, email: string): (ids: set<int>)
    ensures forall id :: id in ids <==> id in profiles && EmailOf(profiles[id]) == Str(email)
  {
    set id | id in profiles && EmailOf(profiles[id]) == Str(email)
  }
}
