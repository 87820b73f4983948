/** The user-scoped write routes as one dispatcher, and the two guarantees
    the owner filter in every statement gives the whole store: a request
    keeps the store invariant, and it never changes what another user owns. */
module Api {
  import opened Values
  import opened Fields
  import opened Tables
  import opened Http
  import opened Store
  import opened Crud
  import opened Profiles

  /** A write request after routing, grouped by the table it writes: the
      path's id, if any, and the body. */
  datatype Route =
    | Tasks(task: TaskRoute)
    | Diary(entry: DiaryRoute)
    | Events(event: EventRoute)
    | Foods(food: FoodRoute)
    | History(record: HistoryRoute)
    | Settings(setting: SettingsRoute)

  datatype TaskRoute = CreateTask(body: Body) | UpdateTask(id: int, body: Body) | DeleteTask(id: int)
  datatype DiaryRoute = AddDiary(body: Body) | DeleteDiary(id: int)
  datatype EventRoute = AddEvent(body: Body) | DeleteEvent(id: int)
  datatype FoodRoute = CreateFood(body: Body) | UpdateFood(id: int, body: Body) | DeleteFood(id: int)
  datatype HistoryRoute = AddHistory(body: Body) | UpdateHistory(id: int, body: Body) | DeleteHistory(id: int)
  datatype SettingsRoute =
    | PutProfile(body: Body)
    | PutGoal(body: Body)
    | PutNutrients(kind: string, body: Body)
    | PutNutrientsBody(body: Body)

  function HandleTask(db: Db, uid: int, route: TaskRoute): Step {
    match route
    case CreateTask(body) => TasksCreate(db, uid, body)
    case UpdateTask(id, body) => TasksUpdate(db, uid, id, body)
    case DeleteTask(id) => TasksDelete(db, uid, id)
  }

  function HandleDiary(db: Db, uid: int, route: DiaryRoute, clock: Clock): Step {
    match route
    case AddDiary(body) => DiaryAdd(db, uid, body, clock)
    case DeleteDiary(id) => DiaryDelete(db, uid, id)
  }

  function HandleEvent(db: Db, uid: int, route: EventRoute): Step {
    match route
    case AddEvent(body) => EventsAdd(db, uid, body)
    case DeleteEvent(id) => EventsDelete(db, uid, id)
  }

  function HandleFood(db: Db, uid: int, route: FoodRoute): Step {
    match route
    case CreateFood(body) => FoodsCreate(db, uid, body)
    case UpdateFood(id, body) => FoodsUpdate(db, uid, id, body)
    case DeleteFood(id) => FoodsDelete(db, uid, id)
  }

  function HandleHistory(db: Db, uid: int, route: HistoryRoute, clock: Clock): Step {
    match route
    case AddHistory(body) => HistoryAdd(db, uid, body, clock)
    case UpdateHistory(id, body) => HistoryUpdate(db, uid, id, body)
    case DeleteHistory(id) => HistoryDelete(db, uid, id)
  }

  function HandleSettings(db: Db, uid: int, route: SettingsRoute): Step {
    match route
    case PutProfile(body) => ProfilePut(db, uid, body)
    case PutGoal(body) => GoalPut(db, uid, body)
    case PutNutrients(kind, body) => NutrientsPut(db, uid, kind, body)
    case PutNutrientsBody(body) => NutrientsPutBody(db, uid, body)
  }

  /** Run one write request for the resolved user `uid`: a refused request
      changes nothing, and only the caller's own profile can appear. */
  function Handle(db: Db, uid: int, route: Route, clock: Clock): (r: Step)
    ensures r.resp.status !in {200, 201} ==> r.db == db
    ensures r.db.profiles.Keys <= db.profiles.Keys + {uid}
  {
    match route
    case Tasks(t) => HandleTask(db, uid, t)
    case Diary(d) => HandleDiary(db, uid, d, clock)
    case Events(e) => HandleEvent(db, uid, e)
    case Foods(f) => HandleFood(db, uid, f)
    case History(h) => HandleHistory(db, uid, h, clock)
    case Settings(s) => HandleSettings(db, uid, s)
  }

  /** User `u`'s rows, profile and goals are the same in both stores. */
  ghost predicate SameFor(db: Db, db': Db, u: int) {
    && View(db'.tasks, u) == View(db.tasks, u)
    && View(db'.diary, u) == View(db.diary, u)
    && View(db'.events, u) == View(db.events, u)
    && View(db'.foods, u) == View(db.foods, u)
    && View(db'.history, u) == View(db.history, u)
    && (u in db'.profiles <==> u in db.profiles)
    && (u in db.profiles ==> db'.profiles[u] == db.profiles[u])
    && (u in db'.goals <==> u in db.goals)
    && (u in db.goals ==> db'.goals[u] == db.goals[u])
    && (u in db'.nutrientGoals <==> u in db.nutrientGoals)
    && (u in db.nutrientGoals ==> db'.nutrientGoals[u] == db.nutrientGoals[u])
  }

  /** Every write request keeps the store invariant: row ids stay below each
      table's counter, and every row keeps to its table's columns. */
  lemma HandlePreservesValid(db: Db, uid: int, route: Route, clock: Clock)
    requires Valid(db)
    ensures Valid(Handle(db, uid, route, clock).db)
  {
    match route
    case Tasks(t) => TaskRoutesKeepValid(db, uid, t);
    case Diary(d) => DiaryRoutesKeepValid(db, uid, d, clock);
    case Events(e) => EventRoutesKeepValid(db, uid, e);
    case Foods(f) => FoodRoutesKeepValid(db, uid, f);
    case History(h) => HistoryRoutesKeepValid(db, uid, h, clock);
    case Settings(s) => SettingsRoutesKeepValid(db, uid, s);
  }

  lemma TaskRoutesKeepValid(db: Db, uid: int, route: TaskRoute)
    requires Valid(db)
    ensures Valid(HandleTask(db, uid, route).db)
  {
    if route.UpdateTask? {
      UpdateRouteKeepsTableOk(db.tasks, uid, route.id, TaskEditable, route.body, "no fields to update", TaskColumns);
    }
  }

  lemma DiaryRoutesKeepValid(db: Db, uid: int, route: DiaryRoute, clock: Clock)
    requires Valid(db)
    ensures Valid(HandleDiary(db, uid, route, clock).db)
  {
  }

  lemma EventRoutesKeepValid(db: Db, uid: int, route: EventRoute)
    requires Valid(db)
    ensures Valid(HandleEvent(db, uid, route).db)
  {
  }

  lemma FoodRoutesKeepValid(db: Db, uid: int, route: FoodRoute)
    requires Valid(db)
    ensures Valid(HandleFood(db, uid, route).db)
  {
    if route.UpdateFood? {
      UpdateRouteKeepsTableOk(db.foods, uid, route.id, FoodEditable, route.body, "no fields", FoodColumns);
    }
  }

  lemma HistoryRoutesKeepValid(db: Db, uid: int, route: HistoryRoute, clock: Clock)
    requires Valid(db)
    ensures Valid(HandleHistory(db, uid, route, clock).db)
  {
    if route.UpdateHistory? {
      UpdateRouteKeepsTableOk(db.history, uid, route.id, HistoryEditable, route.body,
                              "no fields to update", HistoryColumns);
    }
  }

  lemma SettingsRoutesKeepValid(db: Db, uid: int, route: SettingsRoute)
    requires Valid(db)
    ensures Valid(HandleSettings(db, uid, route).db)
  {
    if route.PutProfile? {
      ProfilePutKeepsValid(db, uid, route.body);
    }
  }

  /** A request by `uid` changes nothing that belongs to any other user `u`:
      each statement is filtered by the caller's id, and each insert takes a
      fresh id. */
  lemma HandleIsolated(db: Db, uid: int, route: Route, clock: Clock, u: int)
    requires Valid(db)
    requires u != uid
    ensures SameFor(db, Handle(db, uid, route, clock).db, u)
  {
    match route
    case Tasks(t) => TaskRoutesIsolated(db, uid, t, u);
    case Diary(d) => DiaryRoutesIsolated(db, uid, d, clock, u);
    case Events(e) => EventRoutesIsolated(db, uid, e, u);
    case Foods(f) => FoodRoutesIsolated(db, uid, f, u);
    case History(h) => HistoryRoutesIsolated(db, uid, h, clock, u);
    case Settings(s) => SettingsRoutesIsolated(db, uid, s, u);
  }

  lemma TaskRoutesIsolated(db: Db, uid: int, route: TaskRoute, u: int)
    requires Valid(db) && u != uid
    ensures SameFor(db, HandleTask(db, uid, route).db, u)
  {
    var r := HandleTask(db, uid, route);
    assert r.db == db.(tasks := r.db.tasks);
    match route
    case CreateTask(body) =>
      if r.resp.status == 201 {
        InsertIsolated(db.tasks, r.db.tasks, uid, u);
      }
    case UpdateTask(id, body) =>
      UpdateRouteIsolated(db.tasks, uid, id, TaskEditable, body, "no fields to update", u);
    case DeleteTask(id) =>
      DeleteIsolated(db.tasks, uid, id, u);
  }

  lemma DiaryRoutesIsolated(db: Db, uid: int, route: DiaryRoute, clock: Clock, u: int)
    requires Valid(db) && u != uid
    ensures SameFor(db, HandleDiary(db, uid, route, clock).db, u)
  {
    var r := HandleDiary(db, uid, route, clock);
    assert r.db == db.(diary := r.db.diary);
    match route
    case AddDiary(body) =>
      if r.resp.status == 201 {
        InsertIsolated(db.diary, r.db.diary, uid, u);
      }
    case DeleteDiary(id) =>
      DeleteIsolated(db.diary, uid, id, u);
  }

  lemma EventRoutesIsolated(db: Db, uid: int, route: EventRoute, u: int)
    requires Valid(db) && u != uid
    ensures SameFor(db, HandleEvent(db, uid, route).db, u)
  {
    var r := HandleEvent(db, uid, route);
    assert r.db == db.(events := r.db.events);
    match route
    case AddEvent(body) =>
      if r.resp.status == 201 {
        InsertIsolated(db.events, r.db.events, uid, u);
      }
    case DeleteEvent(id) =>
      DeleteIsolated(db.events, uid, id, u);
  }

  lemma FoodRoutesIsolated(db: Db, uid: int, route: FoodRoute, u: int)
    requires Valid(db) && u != uid
    ensures SameFor(db, HandleFood(db, uid, route).db, u)
  {
    var r := HandleFood(db, uid, route);
    assert r.db == db.(foods := r.db.foods);
    match route
    case CreateFood(body) =>
      if r.resp.status == 201 {
        InsertIsolated(db.foods, r.db.foods, uid, u);
      }
    case UpdateFood(id, body) =>
      UpdateRouteIsolated(db.foods, uid, id, FoodEditable, body, "no fields", u);
    case DeleteFood(id) =>
      DeleteIsolated(db.foods, uid, id, u);
  }

  lemma HistoryRoutesIsolated(db: Db, uid: int, route: HistoryRoute, clock: Clock, u: int)
    requires Valid(db) && u != uid
    ensures SameFor(db, HandleHistory(db, uid, route, clock).db, u)
  {
    var r := HandleHistory(db, uid, route, clock);
    assert r.db == db.(history := r.db.history);
    match route
    case AddHistory(body) =>
      if r.resp.status == 201 {
        InsertIsolated(db.history, r.db.history, uid, u);
      }
    case UpdateHistory(id, body) =>
      UpdateRouteIsolated(db.history, uid, id, HistoryEditable, body, "no fields to update", u);
    case DeleteHistory(id) =>
      DeleteIsolated(db.history, uid, id, u);
  }

  /** The profile and goal routes write only the caller's own key. */
  lemma SettingsRoutesIsolated(db: Db, uid: int, route: SettingsRoute, u: int)
    requires u != uid
    ensures SameFor(db, HandleSettings(db, uid, route).db, u)
  {
    match route
    case PutProfile(body) => ProfilePutIsolated(db, uid, body, u);
    case PutGoal(body) => GoalPutIsolated(db, uid, body, u);
    case PutNutrients(kind, body) => NutrientGoalWriteIsolated(db, NutrientsPut(db, uid, kind, body).db, uid, u);
    case PutNutrientsBody(body) => NutrientGoalWriteIsolated(db, NutrientsPutBody(db, uid, body).db, uid, u);
  }

  lemma ProfilePutIsolated(db: Db, uid: int, body: Body, u: int)
    requires u != uid
    ensures SameFor(db, ProfilePut(db, uid, body).db, u)
  {
    var after := ProfilePut(db, uid, body).db;
    assert after == db.(profiles := after.profiles);
  }

  lemma GoalPutIsolated(db: Db, uid: int, body: Body, u: int)
    requires u != uid
    ensures SameFor(db, GoalPut(db, uid, body).db, u)
  {
    var after := GoalPut(db, uid, body).db;
    assert after == db.(goals := after.goals);
  }

  /** A store that differs only in the caller's nutrient goal is the same for everyone else. */
  lemma NutrientGoalWriteIsolated(db: Db, after: Db, uid: int, u: int)
    requires u != uid
    requires after == db.(nutrientGoals := after.nutrientGoals)
    requires u in after.nutrientGoals <==> u in db.nutrientGoals
    requires u in db.nutrientGoals ==> after.nutrientGoals[u] == db.nutrientGoals[u]
    ensures SameFor(db, after, u)
  {
  }

  /** The food lookup of POST /nutrients/history sees only the caller's own
      foods: two stores that agree on the caller's foods give the same
      answer, whatever other users have stored. */
  lemma FoodLookupSeesOnlyOwnFoods(foods: Table, foods': Table, uid: int, body: Body)
    requires View(foods, uid) == View(foods', uid)
    ensures FromFood(foods, uid, body) == FromFood(foods', uid, body)
  {
    var fid := PyInt(Get(body, "food_id", Null));
    if fid.Some? {
      FindOwnedSeesView(foods, foods', uid, fid.value);
    }
  }
}
