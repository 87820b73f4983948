/** The owner-scoped CRUD handlers: tasks, diary entries, calendar events,
    food items and nutrient history, plus the two per-user goal upserts.
    Each handler is a pure function from the store, the resolved user id
    and the decoded body to a response and the store after it. */
module Crud {
  import opened Values
  import opened Fields
  import opened Tables
  import opened Http
  import opened Store

  /** What the handlers read from the clock: UTC today as `YYYY-MM-DD`, and
      the database's `NOW()`. */
  datatype Clock = Clock(today: string, now: string)

  // ---------------------------------------------------------------------
  // The two shapes every owner-scoped PUT and DELETE share
  // ---------------------------------------------------------------------

  /** Build the whitelisted SET list, reject an empty one with 422, run the
      UPDATE filtered by `(user_id, id)`, and answer 404 when it matched no row. */
  function UpdateRoute(t: Table, uid: int, id: int, editable: seq<string>, body: Body, noFields: string)
    : (r: (Response, Table))
    ensures r.0.status in {200, 404, 422}
    ensures r.0.status == 422 <==> NoneSupplied(editable, body)
    ensures r.0.status == 404 <==> !NoneSupplied(editable, body) && !Owns(t, uid, id)
    ensures r.0.status == 422 ==> r.0 == Err(422, noFields)
    ensures r.0.status == 404 ==> r.0 == NotFound
    ensures r.0.status == 200 ==> r.0 == Ok(200, Updated(1))
    ensures r.0.status != 200 ==> r.1 == t
    ensures r.1.rows.Keys == t.rows.Keys && r.1.autoInc == t.autoInc
    ensures forall k :: k in t.rows && k != id ==> r.1.rows[k] == t.rows[k]
    ensures r.0.status == 200 ==> r.1.rows[id] == Row(uid, Overlay(t.rows[id].cols, editable, body))
  {
    var fields := Pick(editable, body);
    if fields == [] then (Err(422, noFields), t)
    else
      var ch := UpdateOwned(t, uid, id, fields);
      if ch.count == 0 then (NotFound, ch.table)
      else
        PatchPickIsOverlay(t.rows[id].cols, editable, body);
        (Ok(200, Updated(ch.count)), ch.table)
  }

  /** DELETE filtered by `(user_id, id)`; 404 when it matched no row. */
  function DeleteRoute(t: Table, uid: int, id: int): (r: (Response, Table))
    ensures r.0.status in {200, 404}
    ensures r.0.status == 200 <==> Owns(t, uid, id)
    ensures r.0.status == 200 ==> r.0 == Ok(200, Deleted(1)) && r.1 == t.(rows := t.rows - {id})
    ensures r.0.status == 404 ==> r.0 == NotFound && r.1 == t
  {
    var ch := DeleteOwned(t, uid, id);
    if ch.count == 0 then (NotFound, ch.table) else (Ok(200, Deleted(ch.count)), ch.table)
  }

  /** A row that belongs to someone else answers exactly like a missing
      one: the update and the delete both report 404 and change nothing. */
  lemma ForeignRowIsNotFound(t: Table, owner: int, uid: int, id: int, editable: seq<string>, body: Body,
                             noFields: string)
    requires id in t.rows && t.rows[id].userId == owner && owner != uid
    ensures DeleteRoute(t, uid, id) == (NotFound, t)
    ensures !NoneSupplied(editable, body) ==> UpdateRoute(t, uid, id, editable, body, noFields) == (NotFound, t)
  {
    assert !Owns(t, uid, id);
  }

  /** An update keeps the counter invariant and the table's schema, given
      that the whitelist only names schema columns. */
  lemma UpdateRouteKeepsTableOk(t: Table, uid: int, id: int, editable: seq<string>, body: Body,
                                noFields: string, schema: seq<string>)
    requires TableOk(t, schema)
    requires forall c :: c in editable ==> c in schema
    ensures TableOk(UpdateRoute(t, uid, id, editable, body, noFields).1, schema)
  {
    var r := UpdateRoute(t, uid, id, editable, body, noFields);
    if r.0.status == 200 {
      OverlayColumns(t.rows[id].cols, editable, body);
    }
  }

  /** An update by `uid` leaves every other user's rows as they were. */
  lemma UpdateRouteIsolated(t: Table, uid: int, id: int, editable: seq<string>, body: Body,
                            noFields: string, u: int)
    requires u != uid
    ensures View(UpdateRoute(t, uid, id, editable, body, noFields).1, u) == View(t, u)
  {
    var fields := Pick(editable, body);
    if fields != [] {
      UpdateIsolated(t, uid, id, fields, u);
    }
  }

  // ---------------------------------------------------------------------
  // The rows the INSERT statements write
  // ---------------------------------------------------------------------

  function TaskRow(title: string, urgency: int, dueDate: Value): (cols: map<string, Value>)
    ensures forall c :: c in cols ==> c in TaskColumns
    ensures cols.Keys == {"title", "urgency", "due_date"}
    ensures cols["title"] == Str(title) && cols["urgency"] == Num(urgency as real) && cols["due_date"] == dueDate
  {
    map["title" := Str(title), "urgency" := Num(urgency as real), "due_date" := dueDate]
  }

  function DiaryRow(entryDate: Value, title: string, content: string, mood: Value): (cols: map<string, Value>)
    ensures forall c :: c in cols ==> c in DiaryColumns
    ensures cols.Keys == {"entry_date", "title", "content", "mood"}
    ensures cols["entry_date"] == entryDate && cols["mood"] == mood
    ensures cols["title"] == Str(title) && cols["content"] == Str(content)
  {
    map["entry_date" := entryDate, "title" := Str(title), "content" := Str(content), "mood" := mood]
  }

  function EventRow(title: string, note: Value, startsAt: Value, endsAt: Value, allDay: real, color: Value)
    : (cols: map<string, Value>)
    ensures forall c :: c in cols ==> c in EventColumns
    ensures cols.Keys == {"title", "note", "starts_at", "ends_at", "all_day", "color"}
    ensures cols["title"] == Str(title) && cols["note"] == note && cols["color"] == color
    ensures cols["starts_at"] == startsAt && cols["ends_at"] == endsAt && cols["all_day"] == Num(allDay)
  {
    map["title" := Str(title), "note" := note, "starts_at" := startsAt,
        "ends_at" := endsAt, "all_day" := Num(allDay), "color" := color]
  }

  function FoodRow(name: string, veg: real, carb: real, protein: real, per: real): (cols: map<string, Value>)
    ensures forall c :: c in cols ==> c in FoodColumns
    ensures cols.Keys == {"name", "veg_g", "carb_g", "protein_g", "per_unit_g"}
    ensures cols["name"] == Str(name) && cols["per_unit_g"] == Num(per)
    ensures cols["veg_g"] == Num(veg) && cols["carb_g"] == Num(carb) && cols["protein_g"] == Num(protein)
  {
    map["name" := Str(name), "veg_g" := Num(veg), "carb_g" := Num(carb),
        "protein_g" := Num(protein), "per_unit_g" := Num(per)]
  }

  function HistoryRow(eatenAt: Value, foodRef: Value, m: Macros, amount: Value, note: Value): (cols: map<string, Value>)
    ensures forall c :: c in cols ==> c in HistoryColumns
    ensures cols.Keys == {"eaten_at", "food_id", "name", "veg_g", "carb_g", "protein_g", "amount_g", "note"}
    ensures cols["eaten_at"] == eatenAt && cols["food_id"] == foodRef && cols["name"] == m.name
    ensures cols["veg_g"] == Num(m.veg) && cols["carb_g"] == Num(m.carb) && cols["protein_g"] == Num(m.protein)
    ensures cols["amount_g"] == amount && cols["note"] == note
  {
    map["eaten_at" := eatenAt, "food_id" := foodRef, "name" := m.name,
        "veg_g" := Num(m.veg), "carb_g" := Num(m.carb), "protein_g" := Num(m.protein),
        "amount_g" := amount, "note" := note]
  }

  // ---------------------------------------------------------------------
  // Tasks
  // ---------------------------------------------------------------------

  /** POST /tasks.  `int(urgency)` runs before the title check, so a bad
      urgency is a 500 even when the title is blank. */
  function TasksCreate(db: Db, uid: int, body: Body): (r: Step)
    ensures r.resp.status in {201, 422, 500}
    ensures TableOk(db.tasks, TaskColumns) ==> TableOk(r.db.tasks, TaskColumns)
    ensures r.resp.status == 201 ==> InsertedBy(db.tasks, r.db.tasks, uid)
    ensures r.resp.status != 201 ==> r.db == db
    ensures r.resp.status == 500 <==>
      TextOf(Get(body, "title", Null)).None? || PyInt(Get(body, "urgency", Num(1.0))).None?
    ensures r.resp.status == 422 <==>
      TextOf(Get(body, "title", Null)) == Some("") && PyInt(Get(body, "urgency", Num(1.0))).Some?
    ensures r.resp.status == 201 ==>
      && r.resp == Ok(201, NewId(db.tasks.autoInc))
      && r.db == db.(tasks := r.db.tasks)
      && Owns(r.db.tasks, uid, db.tasks.autoInc)
      && var title := Column(r.db.tasks.rows[db.tasks.autoInc].cols, "title");
         title.Str? && title.s != "" && Trimmed(title.s)
    ensures r.resp.status == 201 ==>
      && TextOf(Get(body, "title", Null)).Some? && PyInt(Get(body, "urgency", Num(1.0))).Some?
      && r.db.tasks.rows[db.tasks.autoInc]
         == Row(uid, TaskRow(TextOf(Get(body, "title", Null)).value,
                             PyInt(Get(body, "urgency", Num(1.0))).value, Get(body, "due_date", Null)))
  {
    var title := TextOf(Get(body, "title", Null));
    var urgency := PyInt(Get(body, "urgency", Num(1.0)));
    if title.None? || urgency.None? then Step(InternalError, db)
    else if title.value == "" then Step(Err(422, "title required"), db)
    else
      var cols := TaskRow(title.value, urgency.value, Get(body, "due_date", Null));
      InsertKeepsTableOk(db.tasks, uid, cols, TaskColumns);
      var (id, tasks) := InsertOwned(db.tasks, uid, cols);
      Step(Ok(201, NewId(id)), db.(tasks := tasks))
  }

  /** PUT /tasks/<id>. */
  function TasksUpdate(db: Db, uid: int, taskId: int, body: Body): (r: Step)
    ensures r.resp.status in {200, 404, 422}
    ensures r.resp.status == 422 <==> NoneSupplied(TaskEditable, body)
    ensures r.resp.status == 404 <==> !NoneSupplied(TaskEditable, body) && !Owns(db.tasks, uid, taskId)
    ensures r.resp.status != 200 ==> r.db == db
    ensures r.db == db.(tasks := r.db.tasks)
    ensures r.resp.status == 200 ==> Owns(db.tasks, uid, taskId) && taskId in r.db.tasks.rows
    ensures r.db.tasks.rows.Keys == db.tasks.rows.Keys && r.db.tasks.autoInc == db.tasks.autoInc
    ensures forall k :: k in db.tasks.rows && k != taskId ==> r.db.tasks.rows[k] == db.tasks.rows[k]
    ensures r.resp.status == 200 ==>
      r.db.tasks.rows[taskId] == Row(uid, Overlay(db.tasks.rows[taskId].cols, TaskEditable, body))
  {
    var (resp, tasks) := UpdateRoute(db.tasks, uid, taskId, TaskEditable, body, "no fields to update");
    Step(resp, db.(tasks := tasks))
  }

  /** DELETE /tasks/<id>. */
  function TasksDelete(db: Db, uid: int, taskId: int): (r: Step)
    ensures r.resp.status == 200 <==> Owns(db.tasks, uid, taskId)
    ensures r.resp.status == 200 ==> r.db.tasks.rows == db.tasks.rows - {taskId} && r.db.tasks.autoInc == db.tasks.autoInc
    ensures r.resp.status != 200 ==> r.resp == NotFound && r.db == db
    ensures r.db == db.(tasks := r.db.tasks)
  {
    var (resp, tasks) := DeleteRoute(db.tasks, uid, taskId);
    Step(resp, db.(tasks := tasks))
  }

  // ---------------------------------------------------------------------
  // Diary
  // ---------------------------------------------------------------------

  /** POST /diary: at least one of title and content must be non-blank. */
  function DiaryAdd(db: Db, uid: int, body: Body, clock: Clock): (r: Step)
    ensures r.resp.status in {201, 422, 500}
    ensures TableOk(db.diary, DiaryColumns) ==> TableOk(r.db.diary, DiaryColumns)
    ensures r.resp.status == 201 ==> InsertedBy(db.diary, r.db.diary, uid)
    ensures r.resp.status != 201 ==> r.db == db
    ensures r.resp.status == 422 <==>
      TextOf(Get(body, "title", Null)) == Some("") && TextOf(Get(body, "content", Null)) == Some("")
    ensures r.resp.status == 201 ==>
      && r.resp == Ok(201, NewId(db.diary.autoInc))
      && r.db == db.(diary := r.db.diary)
      && Owns(r.db.diary, uid, db.diary.autoInc)
      && var cols := r.db.diary.rows[db.diary.autoInc].cols;
         Column(cols, "title") != Str("") || Column(cols, "content") != Str("")
    ensures r.resp.status == 500 <==>
      TextOf(Get(body, "title", Null)).None? || TextOf(Get(body, "content", Null)).None?
    ensures r.resp.status == 201 ==>
      && TextOf(Get(body, "title", Null)).Some? && TextOf(Get(body, "content", Null)).Some?
      && r.db.diary.rows[db.diary.autoInc]
         == Row(uid, DiaryRow(if Truthy(Get(body, "date", Null)) then Get(body, "date", Null) else Str(clock.today),
                              TextOf(Get(body, "title", Null)).value, TextOf(Get(body, "content", Null)).value,
                              Get(body, "mood", Null)))
  {
    var date := Get(body, "date", Null);
    var entryDate := if Truthy(date) then date else Str(clock.today);
    var title := TextOf(Get(body, "title", Null));
    var content := TextOf(Get(body, "content", Null));
    if title.None? || content.None? then Step(InternalError, db)
    else if title.value == "" && content.value == "" then Step(Err(422, "title or content required"), db)
    else
      var cols := DiaryRow(entryDate, title.value, content.value, Get(body, "mood", Null));
      InsertKeepsTableOk(db.diary, uid, cols, DiaryColumns);
      var (id, diary) := InsertOwned(db.diary, uid, cols);
      Step(Ok(201, NewId(id)), db.(diary := diary))
  }

  /** DELETE /diary/<id>. */
  function DiaryDelete(db: Db, uid: int, itemId: int): (r: Step)
    ensures r.resp.status == 200 <==> Owns(db.diary, uid, itemId)
    ensures r.resp.status == 200 ==> r.db.diary.rows == db.diary.rows - {itemId} && r.db.diary.autoInc == db.diary.autoInc
    ensures r.resp.status != 200 ==> r.resp == NotFound && r.db == db
    ensures r.db == db.(diary := r.db.diary)
  {
    var (resp, diary) := DeleteRoute(db.diary, uid, itemId);
    Step(resp, db.(diary := diary))
  }

  // ---------------------------------------------------------------------
  // Calendar events
  // ---------------------------------------------------------------------

  /** POST /calendar/events: a non-blank title and a truthy `starts_at`. */
  function EventsAdd(db: Db, uid: int, body: Body): (r: Step)
    ensures r.resp.status in {201, 422, 500}
    ensures TableOk(db.events, EventColumns) ==> TableOk(r.db.events, EventColumns)
    ensures r.resp.status == 201 ==> InsertedBy(db.events, r.db.events, uid)
    ensures r.resp.status != 201 ==> r.db == db
    ensures r.resp.status == 422 <==>
      TextOf(Get(body, "title", Null)).Some? &&
      (TextOf(Get(body, "title", Null)).value == "" || !Truthy(Get(body, "starts_at", Null)))
    ensures r.resp.status == 201 ==>
      && r.resp == Ok(201, NewId(db.events.autoInc))
      && r.db == db.(events := r.db.events)
      && Owns(r.db.events, uid, db.events.autoInc)
      && Truthy(Column(r.db.events.rows[db.events.autoInc].cols, "starts_at"))
      && Column(r.db.events.rows[db.events.autoInc].cols, "all_day")
         == Num(if Truthy(Get(body, "all_day", Num(0.0))) then 1.0 else 0.0)
    ensures r.resp.status == 500 <==> TextOf(Get(body, "title", Null)).None?
    ensures r.resp.status == 201 ==>
      && TextOf(Get(body, "title", Null)).Some?
      && r.db.events.rows[db.events.autoInc]
         == Row(uid, EventRow(TextOf(Get(body, "title", Null)).value, Get(body, "note", Null),
                              Get(body, "starts_at", Null), Get(body, "ends_at", Null),
                              if Truthy(Get(body, "all_day", Num(0.0))) then 1.0 else 0.0,
                              Get(body, "color", Null)))
  {
    var title := TextOf(Get(body, "title", Null));
    var startsAt := Get(body, "starts_at", Null);
    var allDay := if Truthy(Get(body, "all_day", Num(0.0))) then 1.0 else 0.0;
    if title.None? then Step(InternalError, db)
    else if title.value == "" || !Truthy(startsAt) then Step(Err(422, "title and starts_at required"), db)
    else
      var cols := EventRow(title.value, Get(body, "note", Null), startsAt, Get(body, "ends_at", Null),
                           allDay, Get(body, "color", Null));
      InsertKeepsTableOk(db.events, uid, cols, EventColumns);
      var (id, events) := InsertOwned(db.events, uid, cols);
      Step(Ok(201, NewId(id)), db.(events := events))
  }

  /** DELETE /calendar/events/<id>. */
  function EventsDelete(db: Db, uid: int, eventId: int): (r: Step)
    ensures r.resp.status == 200 <==> Owns(db.events, uid, eventId)
    ensures r.resp.status == 200 ==> r.db.events.rows == db.events.rows - {eventId} && r.db.events.autoInc == db.events.autoInc
    ensures r.resp.status != 200 ==> r.resp == NotFound && r.db == db
    ensures r.db == db.(events := r.db.events)
  {
    var (resp, events) := DeleteRoute(db.events, uid, eventId);
    Step(resp, db.(events := events))
  }

  // ---------------------------------------------------------------------
  // Food catalog
  // ---------------------------------------------------------------------

  /** The four `float(...)` conversions of POST /foods all succeed. */
  predicate FoodGramsReadable(body: Body) {
    && PyFloat(Get(body, "veg_g", Num(0.0))).Some?
    && PyFloat(Get(body, "carb_g", Num(0.0))).Some?
    && PyFloat(Get(body, "protein_g", Num(0.0))).Some?
    && PyFloat(Get(body, "per_unit_g", Num(100.0))).Some?
  }

  /** POST /foods: the name check runs first, then the four `float(...)`
      conversions (per_unit_g defaults to 100). */
  function FoodsCreate(db: Db, uid: int, body: Body): (r: Step)
    ensures r.resp.status in {201, 422, 500}
    ensures TableOk(db.foods, FoodColumns) ==> TableOk(r.db.foods, FoodColumns)
    ensures r.resp.status == 201 ==> InsertedBy(db.foods, r.db.foods, uid)
    ensures r.resp.status != 201 ==> r.db == db
    ensures r.resp.status == 422 <==> TextOf(Get(body, "name", Null)) == Some("")
    ensures r.resp.status == 201 ==>
      && r.resp == Ok(201, NewId(db.foods.autoInc))
      && r.db == db.(foods := r.db.foods)
      && Owns(r.db.foods, uid, db.foods.autoInc)
      && PyFloat(Get(body, "per_unit_g", Num(100.0))).Some?
      && Column(r.db.foods.rows[db.foods.autoInc].cols, "per_unit_g")
         == Num(PyFloat(Get(body, "per_unit_g", Num(100.0))).value)
    ensures r.resp.status == 500 <==>
      || TextOf(Get(body, "name", Null)).None?
      || (TextOf(Get(body, "name", Null)) != Some("") && !FoodGramsReadable(body))
    ensures r.resp.status == 201 ==>
      && TextOf(Get(body, "name", Null)).Some? && FoodGramsReadable(body)
      && r.db.foods.rows[db.foods.autoInc]
         == Row(uid, FoodRow(TextOf(Get(body, "name", Null)).value,
                             PyFloat(Get(body, "veg_g", Num(0.0))).value,
                             PyFloat(Get(body, "carb_g", Num(0.0))).value,
                             PyFloat(Get(body, "protein_g", Num(0.0))).value,
                             PyFloat(Get(body, "per_unit_g", Num(100.0))).value))
  {
    var name := TextOf(Get(body, "name", Null));
    if name.None? then Step(InternalError, db)
    else if name.value == "" then Step(Err(422, "name required"), db)
    else
      var veg := PyFloat(Get(body, "veg_g", Num(0.0)));
      var carb := PyFloat(Get(body, "carb_g", Num(0.0)));
      var protein := PyFloat(Get(body, "protein_g", Num(0.0)));
      var per := PyFloat(Get(body, "per_unit_g", Num(100.0)));
      if veg.None? || carb.None? || protein.None? || per.None? then Step(InternalError, db)
      else
        var cols := FoodRow(name.value, veg.value, carb.value, protein.value, per.value);
        InsertKeepsTableOk(db.foods, uid, cols, FoodColumns);
        var (id, foods) := InsertOwned(db.foods, uid, cols);
        Step(Ok(201, NewId(id)), db.(foods := foods))
  }

  /** PUT /foods/<id>. */
  function FoodsUpdate(db: Db, uid: int, foodId: int, body: Body): (r: Step)
    ensures r.resp.status in {200, 404, 422}
    ensures r.resp.status == 422 <==> NoneSupplied(FoodEditable, body)
    ensures r.resp.status == 404 <==> !NoneSupplied(FoodEditable, body) && !Owns(db.foods, uid, foodId)
    ensures r.resp.status != 200 ==> r.db == db
    ensures r.db == db.(foods := r.db.foods)
    ensures r.resp.status == 200 ==> Owns(db.foods, uid, foodId) && foodId in r.db.foods.rows
    ensures r.db.foods.rows.Keys == db.foods.rows.Keys && r.db.foods.autoInc == db.foods.autoInc
    ensures forall k :: k in db.foods.rows && k != foodId ==> r.db.foods.rows[k] == db.foods.rows[k]
    ensures r.resp.status == 200 ==>
      r.db.foods.rows[foodId] == Row(uid, Overlay(db.foods.rows[foodId].cols, FoodEditable, body))
  {
    var (resp, foods) := UpdateRoute(db.foods, uid, foodId, FoodEditable, body, "no fields");
    Step(resp, db.(foods := foods))
  }

  /** DELETE /foods/<id>. */
  function FoodsDelete(db: Db, uid: int, foodId: int): (r: Step)
    ensures r.resp.status == 200 <==> Owns(db.foods, uid, foodId)
    ensures r.resp.status == 200 ==> r.db.foods.rows == db.foods.rows - {foodId} && r.db.foods.autoInc == db.foods.autoInc
    ensures r.resp.status != 200 ==> r.resp == NotFound && r.db == db
    ensures r.db == db.(foods := r.db.foods)
  {
    var (resp, foods) := DeleteRoute(db.foods, uid, foodId);
    Step(resp, db.(foods := foods))
  }

  // ---------------------------------------------------------------------
  // Nutrient history
  // ---------------------------------------------------------------------

  /** The name and macro grams a new history row receives. */
  datatype Macros = Macros(name: Value, veg: real, carb: real, protein: real)

  /** Either the values for the new row, or the response that ends the request. */
  datatype Source = Found(macros: Macros) | Refused(resp: Response)

  /** The `food_id` branch: look the food up among the caller's own foods and
      scale its grams by `amount_g / per_unit_g` (amount defaults to 100). */
  function FromFood(foods: Table, uid: int, body: Body): (r: Source)
    ensures r.Refused? ==> r.resp.status in {404, 500}
    ensures r.Refused? && r.resp.status == 404 <==>
      && PyInt(Get(body, "food_id", Null)).Some?
      && PyFloat(Get(body, "amount_g", Num(100.0))).Some?
      && !Owns(foods, uid, PyInt(Get(body, "food_id", Null)).value)
    ensures r.Found? ==>
      PyInt(Get(body, "food_id", Null)).Some? && Owns(foods, uid, PyInt(Get(body, "food_id", Null)).value)
    ensures PyInt(Get(body, "food_id", Null)).None? || PyFloat(Get(body, "amount_g", Num(100.0))).None? ==>
      r == Refused(InternalError)
    ensures
      && PyInt(Get(body, "food_id", Null)).Some?
      && PyFloat(Get(body, "amount_g", Num(100.0))).Some?
      && Owns(foods, uid, PyInt(Get(body, "food_id", Null)).value)
      ==> r == ScaleFood(Some(foods.rows[PyInt(Get(body, "food_id", Null)).value]),
                         PyFloat(Get(body, "amount_g", Num(100.0))).value)
  {
    var fid := PyInt(Get(body, "food_id", Null));
    var amount := PyFloat(Get(body, "amount_g", Num(100.0)));
    if fid.None? || amount.None? then Refused(InternalError)
    else ScaleFood(FindOwned(foods, uid, fid.value), amount.value)
  }

  /** A looked-up food's name and its grams scaled to `amount` grams; a
      missing food is a 404, and a zero `per_unit_g` divides by zero. */
  function ScaleFood(found: Option<Row>, amount: real): (r: Source)
    ensures r.Refused? ==> r.resp.status in {404, 500}
    ensures r.Refused? && r.resp.status == 404 <==> found.None?
    ensures r.Found? ==>
      && var per := PyFloat(Column(found.value.cols, "per_unit_g"));
      && per.Some? && per.value != 0.0
      && r.macros.name == Column(found.value.cols, "name")
  {
    match found
    case None => Refused(Err(404, "food not found"))
    case Some(row) =>
      var per := PyFloat(Column(row.cols, "per_unit_g"));
      if per.None? || per.value == 0.0 then Refused(InternalError)
      else
        var scale := amount / per.value;
        var veg := PyFloat(Column(row.cols, "veg_g"));
        var carb := PyFloat(Column(row.cols, "carb_g"));
        var protein := PyFloat(Column(row.cols, "protein_g"));
        if veg.None? || carb.None? || protein.None? then Refused(InternalError)
        else Found(Macros(Column(row.cols, "name"), veg.value * scale, carb.value * scale, protein.value * scale))
  }

  /** A food with numeric grams gives grams in proportion to the amount:
      `grams * per_unit_g == stored grams * amount` for each macro.  With
      10 g of vegetables per 50 g, 100 g eaten records 20 g. */
  lemma ScaleFoodProportional(row: Row, amount: real, veg: real, carb: real, protein: real, per: real)
    requires Column(row.cols, "veg_g") == Num(veg)
    requires Column(row.cols, "carb_g") == Num(carb)
    requires Column(row.cols, "protein_g") == Num(protein)
    requires Column(row.cols, "per_unit_g") == Num(per) && per != 0.0
    ensures var r := ScaleFood(Some(row), amount);
      && r.Found?
      && r.macros.name == Column(row.cols, "name")
      && r.macros.veg * per == veg * amount
      && r.macros.carb * per == carb * amount
      && r.macros.protein * per == protein * amount
    ensures per == 50.0 && veg == 10.0 && amount == 100.0 ==> ScaleFood(Some(row), amount).macros.veg == 20.0
  {
    var scale := amount / per;
    assert scale * per == amount;
    assert ScaleFood(Some(row), amount) == Found(Macros(Column(row.cols, "name"), veg * scale, carb * scale, protein * scale));
    assert veg * scale * per == veg * (scale * per);
    assert carb * scale * per == carb * (scale * per);
    assert protein * scale * per == protein * (scale * per);
  }

  /** POST /nutrients/history naming one of the caller's own foods, with
      numeric grams and a nonzero `per_unit_g`, answers 201 and records the
      food's name and its grams scaled by `amount_g / per_unit_g`. */
  lemma HistoryAddOwnFood(db: Db, uid: int, body: Body, clock: Clock, fid: int, amount: real,
                          veg: real, carb: real, protein: real, per: real)
    requires Truthy(Get(body, "food_id", Null)) && PyInt(Get(body, "food_id", Null)) == Some(fid)
    requires Get(body, "amount_g", Num(100.0)) == Num(amount)
    requires Owns(db.foods, uid, fid)
    requires Column(db.foods.rows[fid].cols, "veg_g") == Num(veg)
    requires Column(db.foods.rows[fid].cols, "carb_g") == Num(carb)
    requires Column(db.foods.rows[fid].cols, "protein_g") == Num(protein)
    requires Column(db.foods.rows[fid].cols, "per_unit_g") == Num(per) && per != 0.0
    ensures var r := HistoryAdd(db, uid, body, clock);
      && r.resp == Ok(201, NewId(db.history.autoInc))
      && var cols := r.db.history.rows[db.history.autoInc].cols;
      && cols["name"] == Column(db.foods.rows[fid].cols, "name")
      && cols["veg_g"] == Num(veg * (amount / per))
      && cols["carb_g"] == Num(carb * (amount / per))
      && cols["protein_g"] == Num(protein * (amount / per))
  {
    var row := db.foods.rows[fid];
    var m := Macros(Column(row.cols, "name"), veg * (amount / per), carb * (amount / per), protein * (amount / per));
    OwnFoodScaled(db.foods, uid, body, fid, amount, veg, carb, protein, per);
    HistoryAddStores(db, uid, body, clock, m);
  }

  /** The food branch's values for one of the caller's own numeric foods. */
  lemma OwnFoodScaled(foods: Table, uid: int, body: Body, fid: int, amount: real,
                      veg: real, carb: real, protein: real, per: real)
    requires PyInt(Get(body, "food_id", Null)) == Some(fid)
    requires Get(body, "amount_g", Num(100.0)) == Num(amount)
    requires Owns(foods, uid, fid)
    requires Column(foods.rows[fid].cols, "veg_g") == Num(veg)
    requires Column(foods.rows[fid].cols, "carb_g") == Num(carb)
    requires Column(foods.rows[fid].cols, "protein_g") == Num(protein)
    requires Column(foods.rows[fid].cols, "per_unit_g") == Num(per) && per != 0.0
    ensures FromFood(foods, uid, body)
      == Found(Macros(Column(foods.rows[fid].cols, "name"),
                      veg * (amount / per), carb * (amount / per), protein * (amount / per)))
  {
    assert PyFloat(Num(amount)) == Some(amount);
  }

  /** Whatever values the chosen branch yields are what the new history row holds. */
  lemma HistoryAddStores(db: Db, uid: int, body: Body, clock: Clock, m: Macros)
    requires (if Truthy(Get(body, "food_id", Null)) then FromFood(db.foods, uid, body) else FromBody(body)) == Found(m)
    ensures var r := HistoryAdd(db, uid, body, clock);
      && r.resp == Ok(201, NewId(db.history.autoInc))
      && var cols := r.db.history.rows[db.history.autoInc].cols;
      && cols["name"] == m.name
      && cols["veg_g"] == Num(m.veg) && cols["carb_g"] == Num(m.carb) && cols["protein_g"] == Num(m.protein)
  {
  }

  /** The branch without a food: the body's own name (blank becomes NULL) and grams. */
  function FromBody(body: Body): (r: Source)
    ensures r.Refused? ==> r.resp == InternalError
    ensures r.Found? ==> r.macros.name == Null || (r.macros.name.Str? && r.macros.name.s != "")
    ensures r.Refused? <==>
      || TextOf(Get(body, "name", Null)).None?
      || PyFloat(Get(body, "veg_g", Num(0.0))).None?
      || PyFloat(Get(body, "carb_g", Num(0.0))).None?
      || PyFloat(Get(body, "protein_g", Num(0.0))).None?
    ensures r.Found? ==>
      && var name := TextOf(Get(body, "name", Null)).value;
      && r.macros.name == (if name == "" then Null else Str(name))
      && r.macros.veg == PyFloat(Get(body, "veg_g", Num(0.0))).value
      && r.macros.carb == PyFloat(Get(body, "carb_g", Num(0.0))).value
      && r.macros.protein == PyFloat(Get(body, "protein_g", Num(0.0))).value
  {
    var name := TextOf(Get(body, "name", Null));
    var veg := PyFloat(Get(body, "veg_g", Num(0.0)));
    var carb := PyFloat(Get(body, "carb_g", Num(0.0)));
    var protein := PyFloat(Get(body, "protein_g", Num(0.0)));
    if name.None? || veg.None? || carb.None? || protein.None? then Refused(InternalError)
    else Found(Macros(if name.value == "" then Null else Str(name.value), veg.value, carb.value, protein.value))
  }

  /** POST /nutrients/history. */
  function HistoryAdd(db: Db, uid: int, body: Body, clock: Clock): (r: Step)
    ensures r.resp.status in {201, 404, 500}
    ensures TableOk(db.history, HistoryColumns) ==> TableOk(r.db.history, HistoryColumns)
    ensures r.resp.status == 201 ==> InsertedBy(db.history, r.db.history, uid)
    ensures r.resp.status != 201 ==> r.db == db
    ensures r.db == db.(history := r.db.history)
    ensures r.resp.status == 404 <==>
      && Truthy(Get(body, "food_id", Null))
      && PyInt(Get(body, "food_id", Null)).Some?
      && PyFloat(Get(body, "amount_g", Num(100.0))).Some?
      && !Owns(db.foods, uid, PyInt(Get(body, "food_id", Null)).value)
    ensures r.resp.status == 201 ==>
      && r.resp == Ok(201, NewId(db.history.autoInc))
      && Owns(r.db.history, uid, db.history.autoInc)
      && Column(r.db.history.rows[db.history.autoInc].cols, "eaten_at")
         == (if Get(body, "eaten_at", Null).Null? then Str(clock.now) else body["eaten_at"])
    ensures
      var source := if Truthy(Get(body, "food_id", Null)) then FromFood(db.foods, uid, body) else FromBody(body);
      && (r.resp.status == 201 <==> source.Found?)
      && (source.Refused? ==> r.resp == source.resp)
      && (source.Found? ==>
           r.db.history.rows[db.history.autoInc]
           == Row(uid, HistoryRow(if Get(body, "eaten_at", Null).Null? then Str(clock.now) else body["eaten_at"],
                                  Get(body, "food_id", Null), source.macros,
                                  Get(body, "amount_g", Null), Get(body, "note", Null))))
  {
    var foodRef := Get(body, "food_id", Null);
    var source := if Truthy(foodRef) then FromFood(db.foods, uid, body) else FromBody(body);
    match source
    case Refused(resp) => Step(resp, db)
    case Found(m) =>
      var eatenAt := Get(body, "eaten_at", Null);
      var cols := HistoryRow(if eatenAt.Null? then Str(clock.now) else eatenAt, foodRef, m,
                             Get(body, "amount_g", Null), Get(body, "note", Null));
      InsertKeepsTableOk(db.history, uid, cols, HistoryColumns);
      var (id, history) := InsertOwned(db.history, uid, cols);
      Step(Ok(201, NewId(id)), db.(history := history))
  }

  /** PUT /nutrients/history/<id>. */
  function HistoryUpdate(db: Db, uid: int, entryId: int, body: Body): (r: Step)
    ensures r.resp.status in {200, 404, 422}
    ensures r.resp.status == 422 <==> NoneSupplied(HistoryEditable, body)
    ensures r.resp.status == 404 <==> !NoneSupplied(HistoryEditable, body) && !Owns(db.history, uid, entryId)
    ensures r.resp.status != 200 ==> r.db == db
    ensures r.db == db.(history := r.db.history)
    ensures r.resp.status == 200 ==> Owns(db.history, uid, entryId) && entryId in r.db.history.rows
    ensures r.db.history.rows.Keys == db.history.rows.Keys && r.db.history.autoInc == db.history.autoInc
    ensures forall k :: k in db.history.rows && k != entryId ==> r.db.history.rows[k] == db.history.rows[k]
    ensures r.resp.status == 200 ==>
      r.db.history.rows[entryId] == Row(uid, Overlay(db.history.rows[entryId].cols, HistoryEditable, body))
  {
    var (resp, history) := UpdateRoute(db.history, uid, entryId, HistoryEditable, body, "no fields to update");
    Step(resp, db.(history := history))
  }

  /** DELETE /nutrients/history/<id>. */
  function HistoryDelete(db: Db, uid: int, entryId: int): (r: Step)
    ensures r.resp.status == 200 <==> Owns(db.history, uid, entryId)
    ensures r.resp.status == 200 ==> r.db.history.rows == db.history.rows - {entryId} && r.db.history.autoInc == db.history.autoInc
    ensures r.resp.status != 200 ==> r.resp == NotFound && r.db == db
    ensures r.db == db.(history := r.db.history)
  {
    var (resp, history) := DeleteRoute(db.history, uid, entryId);
    Step(resp, db.(history := history))
  }

  // ---------------------------------------------------------------------
  // Goals
  // ---------------------------------------------------------------------

  /** The ratios a nutrient-goal write stores: `float(s.get(k, 0))` for each macro. */
  function RatiosFrom(s: map<string, Value>): Option<Ratios> {
    var veg := PyFloat(Get(s, "veg", Num(0.0)));
    var carb := PyFloat(Get(s, "carb", Num(0.0)));
    var protein := PyFloat(Get(s, "protein", Num(0.0)));
    if veg.None? || carb.None? || protein.None? then None
    else Some(Ratios(veg.value, carb.value, protein.value))
  }

  /** Upsert of the caller's `kind='goal'` row. */
  function WriteGoal(db: Db, uid: int, ratios: Option<Ratios>): (r: Step)
    ensures r.resp.status in {200, 500}
    ensures r.resp.status == 200 <==> ratios.Some?
    ensures r.resp.status == 200 ==> uid in r.db.nutrientGoals && r.db.nutrientGoals[uid] == ratios.value
    ensures r.db == db.(nutrientGoals := r.db.nutrientGoals)
    ensures forall u :: u != uid ==>
      (u in r.db.nutrientGoals <==> u in db.nutrientGoals) &&
      (u in db.nutrientGoals ==> r.db.nutrientGoals[u] == db.nutrientGoals[u])
  {
    if ratios.None? then Step(InternalError, db)
    else Step(Ok(200, Saved), db.(nutrientGoals := db.nutrientGoals[uid := ratios.value]))
  }

  /** PUT /nutrients/<kind>: only the kind `goal` (in any ASCII case) is writable. */
  function NutrientsPut(db: Db, uid: int, kind: string, body: Body): (r: Step)
    ensures r.resp.status in {200, 422, 500}
    ensures r.resp.status == 422 <==> Lower(kind) != "goal"
    ensures r.resp.status != 200 ==> r.db == db
    ensures r.db == db.(nutrientGoals := r.db.nutrientGoals)
    ensures Lower(kind) == "goal" ==> r == WriteGoal(db, uid, RatiosFrom(body))
  {
    if Lower(kind) != "goal" then
      Step(Err(422, "current is computed from history; only 'goal' is editable"), db)
    else WriteGoal(db, uid, RatiosFrom(body))
  }

  /** PUT /nutrients with `{"goal": {...}}`; any other body is refused. */
  function NutrientsPutBody(db: Db, uid: int, body: Body): (r: Step)
    ensures r.resp.status in {200, 422, 500}
    ensures r.resp.status == 422 <==> "goal" !in body
    ensures r.resp.status != 200 ==> r.db == db
    ensures r.db == db.(nutrientGoals := r.db.nutrientGoals)
    ensures "goal" in body && Truthy(body["goal"]) && !body["goal"].Obj? ==> r.resp == InternalError
    ensures "goal" in body && !Truthy(body["goal"]) ==> r == WriteGoal(db, uid, RatiosFrom(map[]))
    ensures "goal" in body && body["goal"].Obj? ==> r == WriteGoal(db, uid, RatiosFrom(body["goal"].fields))
  {
    if "goal" !in body then Step(Err(422, "only 'goal' is editable now"), db)
    else
      var s := body["goal"];
      if !Truthy(s) then WriteGoal(db, uid, RatiosFrom(map[]))
      else if s.Obj? then WriteGoal(db, uid, RatiosFrom(s.fields))
      else Step(InternalError, db)
  }

  const DefaultRatios := Ratios(0.48, 0.30, 0.22)

  /** The `goal` half of GET /nutrients. */
  function NutrientGoalGet(db: Db, uid: int): (r: Response)
    ensures r.Ok? && r.status == 200 && r.payload.NutrientGoal?
    ensures uid !in db.nutrientGoals ==> r.payload == NutrientGoal(0.48, 0.30, 0.22)
    ensures uid in db.nutrientGoals ==>
      var g := db.nutrientGoals[uid]; r.payload == NutrientGoal(g.veg, g.carb, g.protein)
  {
    var g := if uid in db.nutrientGoals then db.nutrientGoals[uid] else DefaultRatios;
    Ok(200, NutrientGoal(g.veg, g.carb, g.protein))
  }

  /** A goal written through PUT /nutrients/<kind>, for any case of `goal`,
      answers 200 and reads back through GET /nutrients; a missing field
      reads back as 0. */
  lemma NutrientGoalRoundTrip(db: Db, uid: int, kind: string, body: Body, veg: real, carb: real, protein: real)
    requires Lower(kind) == "goal"
    requires Get(body, "veg", Num(0.0)) == Num(veg)
    requires Get(body, "carb", Num(0.0)) == Num(carb)
    requires Get(body, "protein", Num(0.0)) == Num(protein)
    ensures NutrientsPut(db, uid, kind, body).resp == Ok(200, Saved)
    ensures NutrientGoalGet(NutrientsPut(db, uid, kind, body).db, uid) == Ok(200, NutrientGoal(veg, carb, protein))
  {
  }

  /** A goal object written through PUT /nutrients reads back through GET /nutrients;
      a missing field reads back as 0. */
  lemma NutrientsBodyRoundTrip(db: Db, uid: int, body: Body, veg: real, carb: real, protein: real)
    requires "goal" in body && body["goal"].Obj?
    requires Get(body["goal"].fields, "veg", Num(0.0)) == Num(veg)
    requires Get(body["goal"].fields, "carb", Num(0.0)) == Num(carb)
    requires Get(body["goal"].fields, "protein", Num(0.0)) == Num(protein)
    ensures NutrientsPutBody(db, uid, body).resp == Ok(200, Saved)
    ensures NutrientGoalGet(NutrientsPutBody(db, uid, body).db, uid) == Ok(200, NutrientGoal(veg, carb, protein))
  {
  }

  /** PUT /goal: upsert of the caller's progress. */
  function GoalPut(db: Db, uid: int, body: Body): (r: Step)
    ensures r.resp.status in {200, 500}
    ensures r.resp.status == 500 <==> PyFloat(Get(body, "progress", Num(0.0))).None?
    ensures r.resp.status != 200 ==> r.db == db
    ensures r.db == db.(goals := r.db.goals)
    ensures r.resp.status == 200 ==> r.db.goals == db.goals[uid := PyFloat(Get(body, "progress", Num(0.0))).value]
  {
    var progress := PyFloat(Get(body, "progress", Num(0.0)));
    if progress.None? then Step(InternalError, db)
    else Step(Ok(200, ProgressSaved(progress.value)), db.(goals := db.goals[uid := progress.value]))
  }

  /** GET /goal: the stored progress, or 0.0 when the caller has none. */
  function GoalGet(db: Db, uid: int): (r: Response)
    ensures r.Ok? && r.status == 200 && r.payload.Progress? && r.payload.owner == uid
    ensures uid !in db.goals ==> r.payload.progress == 0.0
    ensures uid in db.goals ==> r.payload.progress == db.goals[uid]
  {
    Ok(200, Progress(uid, if uid in db.goals then db.goals[uid] else 0.0))
  }

  /** `PUT /goal {"progress": p}` followed by `GET /goal` returns `p`. */
  lemma GoalRoundTrip(db: Db, uid: int, p: real, body: Body)
    requires Get(body, "progress", Num(0.0)) == Num(p)
    ensures GoalPut(db, uid, body).resp == Ok(200, ProgressSaved(p))
    ensures GoalGet(GoalPut(db, uid, body).db, uid) == Ok(200, Progress(uid, p))
  {
  }
}
