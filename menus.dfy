/** The menus router, mounted at `/api/menus`. Its layers, in the order they are registered:
    GET `/`, POST `/` (after `checkInputs`), the `menuId` parameter hook, GET `/:menuId`,
    PUT `/:menuId` (after `checkInputs`), the menu-items router at `/:menuId/menu-items`, the
    delete guard mounted with `use` at `/:menuId`, and DELETE `/:menuId`. */
module MenusRouter {
  import opened Json
  import opened Ids
  import opened Schema
  import opened Http
  import opened Storage
  import MenuItemsRouter

  /** The body's `menu` object; only `title` is read. */
  datatype MenuFields = MenuFields(title: Value)

  /** What follows `/:menuId`: nothing, the menu-items mount point and the path below it, or
      any other longer path. */
  datatype Rest = Self | Items(sub: MenuItemsRouter.ItemPath) | Deeper

  /** The path below `/api/menus`. */
  datatype Path = Root | Under(menuId: int, rest: Rest)

  datatype Request = Request(verb: Method, path: Path, menu: MenuFields, menuItem: ItemFields)

  /** `checkInputs`: the title must be truthy. */
  predicate CheckInputs(f: MenuFields) {
    Truthy(f.title)
  }

  /** GET `/` */
  function ListMenus(db: Db): Outcome {
    Outcome(Response(200, MenusPayload(AllMenus(db.menus))), db)
  }

  /** POST `/`: validate, insert, re-read the row under its new id. */
  function CreateMenu(db: Db, f: MenuFields, newId: int): Outcome {
    if !CheckInputs(f) then Outcome(StatusOnly(400), db)
    else
      var after := Db(db.menus[newId := MenuRow(newId, f.title)], db.items);
      Outcome(Response(201, MenuPayload(LookupMenu(after.menus, newId))), after)
  }

  /** PUT `/:menuId`: validate, update the title, re-read the row. */
  function PutMenu(db: Db, menuId: int, f: MenuFields): Outcome {
    if !CheckInputs(f) then Outcome(StatusOnly(400), db)
    else
      var after := Db(SetTitle(db.menus, menuId, f.title), db.items);
      Outcome(Response(200, MenuPayload(LookupMenu(after.menus, menuId))), after)
  }

  /** The guard's query finds a row: some item belongs to the menu. */
  predicate HasItems(db: Db, menuId: int) {
    FirstItemOfMenu(db.items, menuId).Some?
  }

  /** A request on `/:menuId...` that no earlier layer answered: the guard answers 400 when the
      menu has items; otherwise DELETE `/:menuId` deletes the menu, and anything else reaches the
      framework's 404. */
  function AfterGuard(db: Db, menuId: int, isDelete: bool): Outcome {
    if HasItems(db, menuId) then Outcome(StatusOnly(400), db)
    else if isDelete then Outcome(StatusOnly(204), Db(db.menus - {menuId}, db.items))
    else Unrouted(db)
  }

  /** One request through the layers in their order. `newId` is the id an insert obtains. */
  function Serve(db: Db, req: Request, newId: int): Outcome {
    match req.path
    case Root =>
      if req.verb == Get then ListMenus(db)
      else if req.verb == Post then CreateMenu(db, req.menu, newId)
      else Unrouted(db)
    case Under(menuId, rest) =>
      match LookupMenu(db.menus, menuId)
      case None => Outcome(StatusOnly(404), db)
      case Some(menu) =>
        match rest
        case Self =>
          if req.verb == Get then Outcome(Response(200, MenuPayload(Some(menu))), db)
          else if req.verb == Put then PutMenu(db, menuId, req.menu)
          else AfterGuard(db, menuId, req.verb == Delete)
        case Items(sub) =>
          (match MenuItemsRouter.Serve(db, menuId, req.verb, sub, req.menuItem, newId)
           case Some(out) => out
           case None => AfterGuard(db, menuId, false))
        case Deeper => AfterGuard(db, menuId, false)
  }

  /** `newId` is unused in the table the request inserts into, if it inserts at all. */
  ghost predicate FreshId(db: Db, req: Request, newId: int) {
    match req.path
    case Root => newId !in db.menus
    case Under(_, rest) => rest == Items(MenuItemsRouter.Collection) ==> newId !in db.items
  }

  /** The router run against the shared store: it issues the same statements in the same order
      as the handlers and ends in the outcome `Serve` specifies. */
  method Handle(database: Database, req: Request) returns (resp: Response, ghost newId: int)
    modifies database
    ensures FreshId(old(database.State()), req, newId)
    ensures Serve(old(database.State()), req, newId) == Outcome(resp, database.State())
  {
    resp, newId := StatusOnly(404), 0;
    match req.path
    case Root =>
      UnusedIdExists(database.menus.Keys);
      newId :| newId !in database.menus;
      if req.verb == Get {
        var rows := database.SelectMenus();
        resp := Response(200, MenusPayload(rows));
      } else if req.verb == Post {
        if !CheckInputs(req.menu) {
          resp := StatusOnly(400);
        } else {
          var id := database.InsertMenu(req.menu.title);
          newId := id;
          var row := database.GetMenu(id);
          resp := Response(201, MenuPayload(row));
        }
      }
    case Under(menuId, rest) =>
      UnusedIdExists(database.items.Keys);
      newId :| newId !in database.items;
      var menu := database.GetMenu(menuId);
      if menu.Some? {
        var handled := false;
        match rest {
          case Self =>
            if req.verb == Get {
              resp, handled := Response(200, MenuPayload(menu)), true;
            } else if req.verb == Put {
              handled := true;
              if !CheckInputs(req.menu) {
                resp := StatusOnly(400);
              } else {
                database.UpdateMenu(menuId, req.menu.title);
                var row := database.GetMenu(menuId);
                resp := Response(200, MenuPayload(row));
              }
            }
          case Items(sub) =>
            handled, resp, newId := MenuItemsRouter.Handle(database, menuId, req.verb, sub, req.menuItem);
          case Deeper =>
        }
        if !handled {
          var item := database.GetItemOfMenu(menuId);
          if item.Some? {
            resp := StatusOnly(400);
          } else if rest == Self && req.verb == Delete {
            database.DeleteMenu(menuId);
            resp := StatusOnly(204);
          } else {
            resp := StatusOnly(404);
          }
        }
      }
  }

  /** A sequence of requests, each with the id its insert (if any) obtains, applied in turn. */
  datatype Step = Step(req: Request, newId: int)

  ghost function Replay(db: Db, steps: seq<Step>): Db
    decreases |steps|
  {
    if steps == [] then db
    else Replay(Serve(db, steps[0].req, steps[0].newId).db, steps[1..])
  }

  // ---------------------------------------------------------------------------------------------
  // Properties of one request

  /** GET `/` answers 200 with every menu exactly once, in id order, and changes nothing; an
      empty table gives an empty list. */
  lemma ListReturnsEveryMenu(db: Db, req: Request, newId: int)
    requires WellFormed(db)
    requires req.verb == Get && req.path == Root
    ensures var out := Serve(db, req, newId);
      && out.db == db
      && out.response.status == 200
      && out.response.payload.MenusPayload?
      && var rows := out.response.payload.menus;
        && |rows| == |db.menus|
        && (forall r :: r in rows <==> r in db.menus.Values)
        && MenusById(rows)
        && (db.menus == map[] ==> rows == [])
  {
  }

  /** POST `/` or PUT on an existing menu with a falsy title answers 400 and changes nothing. */
  lemma FalsyTitleRejected(db: Db, req: Request, newId: int)
    requires !Truthy(req.menu.title)
    requires || (req.verb == Post && req.path == Root)
             || (req.verb == Put && req.path.Under? && req.path.rest == Self && req.path.menuId in db.menus)
    ensures Serve(db, req, newId) == Outcome(StatusOnly(400), db)
  {
  }

  /** POST `/` with a truthy title adds exactly one menu, under the new id, and answers 201 with
      that row; the other menus and all items are unchanged. */
  lemma CreateInsertsOneMenu(db: Db, req: Request, newId: int)
    requires req.verb == Post && req.path == Root && CheckInputs(req.menu)
    requires newId !in db.menus
    ensures var out := Serve(db, req, newId);
      var row := Menu(newId, Column(req.menu.title));
      && out.response == Response(201, MenuPayload(Some(row)))
      && out.db.menus == db.menus[newId := row]
      && out.db.items == db.items
      && |out.db.menus| == |db.menus| + 1
      && (forall k :: k in db.menus ==> k in out.db.menus && out.db.menus[k] == db.menus[k])
  {
  }

  /** The `menuId` hook: every request below a menu id with no row answers 404 and changes
      nothing, whatever its method and whatever follows the id, the menu-items routes included. */
  lemma UnknownMenuIs404(db: Db, req: Request, newId: int)
    requires req.path.Under? && req.path.menuId !in db.menus
    ensures Serve(db, req, newId) == Outcome(StatusOnly(404), db)
  {
  }

  /** GET `/:menuId` answers 200 with the row and changes nothing. */
  lemma GetReturnsTheMenu(db: Db, req: Request, newId: int)
    requires req.verb == Get && req.path.Under? && req.path.rest == Self
    requires req.path.menuId in db.menus
    ensures Serve(db, req, newId)
         == Outcome(Response(200, MenuPayload(Some(db.menus[req.path.menuId]))), db)
  {
  }

  /** PUT `/:menuId` with a truthy title changes that row's title and nothing else, and answers
      200 with the updated row. */
  lemma UpdateReplacesOnlyTitle(db: Db, req: Request, newId: int)
    requires WellFormed(db)
    requires req.verb == Put && req.path.Under? && req.path.rest == Self && CheckInputs(req.menu)
    requires req.path.menuId in db.menus
    ensures var id := req.path.menuId;
      var out := Serve(db, req, newId);
      var row := db.menus[id].(title := Column(req.menu.title));
      && out.response == Response(200, MenuPayload(Some(row)))
      && out.db.menus == db.menus[id := row]
      && out.db.menus.Keys == db.menus.Keys
      && out.db.items == db.items
  {
  }

  /** DELETE `/:menuId` on a menu that still has items is refused with 400 and changes nothing. */
  lemma DeleteBlockedByItems(db: Db, req: Request, itemId: int, newId: int)
    requires req.verb == Delete && req.path.Under? && req.path.rest == Self
    requires req.path.menuId in db.menus
    requires itemId in db.items && db.items[itemId].menuId == req.path.menuId
    ensures Serve(db, req, newId) == Outcome(StatusOnly(400), db)
  {
  }

  /** DELETE `/:menuId` on a menu with no items removes exactly that row and answers 204. */
  lemma DeleteRemovesEmptyMenu(db: Db, req: Request, newId: int)
    requires req.verb == Delete && req.path.Under? && req.path.rest == Self
    requires req.path.menuId in db.menus
    requires forall k :: k in db.items ==> db.items[k].menuId != req.path.menuId
    ensures var out := Serve(db, req, newId);
      && out.response == StatusOnly(204)
      && out.db.menus == db.menus - {req.path.menuId}
      && |out.db.menus| == |db.menus| - 1
      && out.db.items == db.items
  {
  }

  /** Once a menu is deleted, the next request below its id answers 404, whatever its method or
      sub-path. */
  lemma DeletedMenuIsGone(db: Db, del: Request, later: Request, newId: int, laterId: int)
    requires del.verb == Delete && del.path.Under? && del.path.rest == Self
    requires del.path.menuId in db.menus
    requires forall k :: k in db.items ==> db.items[k].menuId != del.path.menuId
    requires later.path.Under? && later.path.menuId == del.path.menuId
    ensures var after := Serve(db, del, newId).db;
      Serve(after, later, laterId) == Outcome(StatusOnly(404), after)
  {
  }

  /** A menu id no row has stays unused through any requests, unless a POST `/` obtains that
      very id for its insert. */
  lemma {:induction false} AbsentMenuStaysAbsent(db: Db, steps: seq<Step>, id: int)
    requires id !in db.menus
    requires forall i :: 0 <= i < |steps| ==>
      !(steps[i].req.verb == Post && steps[i].req.path == Root && steps[i].newId == id)
    ensures id !in Replay(db, steps).menus
    decreases |steps|
  {
    if steps != [] {
      var next := Serve(db, steps[0].req, steps[0].newId).db;
      assert id !in next.menus;
      AbsentMenuStaysAbsent(next, steps[1..], id);
    }
  }

  /** Once a menu is deleted, every request below its id answers 404, after any requests in
      between, as long as no POST `/` in between obtains the deleted id again. (If `Menu` is an
      `INTEGER PRIMARY KEY` table without `AUTOINCREMENT`, SQLite gives a new row one more than
      the largest id in use, so deleting the menu with the largest id and then creating one does
      reuse it.) */
  lemma DeletedMenuStaysGone(db: Db, del: Request, newId: int, steps: seq<Step>, later: Request, laterId: int)
    requires del.verb == Delete && del.path.Under? && del.path.rest == Self
    requires del.path.menuId in db.menus
    requires forall k :: k in db.items ==> db.items[k].menuId != del.path.menuId
    requires forall i :: 0 <= i < |steps| ==>
      !(steps[i].req.verb == Post && steps[i].req.path == Root && steps[i].newId == del.path.menuId)
    requires later.path.Under? && later.path.menuId == del.path.menuId
    ensures var after := Replay(Serve(db, del, newId).db, steps);
      Serve(after, later, laterId) == Outcome(StatusOnly(404), after)
  {
    AbsentMenuStaysAbsent(Serve(db, del, newId).db, steps, del.path.menuId);
  }

  /** The exception is real: with menu 1 the only menu, DELETE `/1` answers 204, a POST `/` may
      then obtain id 1 (SQLite's choice on an empty table without `AUTOINCREMENT`), and GET `/1`
      answers 200 again. */
  lemma DeletedIdCanBeReused(title: Value, f: ItemFields)
    requires Truthy(title)
    ensures var db := Db(map[1 := Menu(1, Str("Lunch"))], map[]);
      var del := Request(Delete, Under(1, Self), MenuFields(title), f);
      var post := Request(Post, Root, MenuFields(title), f);
      var get := Request(Get, Under(1, Self), MenuFields(title), f);
      var afterDelete := Serve(db, del, 0);
      var afterPost := Serve(afterDelete.db, post, 1);
      && afterDelete.response == StatusOnly(204)
      && afterDelete.db.menus == map[]
      && afterPost.response.status == 201
      && Serve(afterPost.db, get, 0).response == Response(200, MenuPayload(Some(Menu(1, Column(title)))))
  {
  }

  /** The guard is mounted with `use`, so it also answers requests on an existing menu that no
      earlier route took (POST or another method on `/:menuId`, a longer path, a request the
      menu-items router passes back): 400 when the menu has items, the framework's 404 when not.
      Nothing changes either way. */
  lemma GuardAnswersUnroutedRequests(db: Db, req: Request, newId: int)
    requires req.path.Under? && req.path.menuId in db.menus
    requires || (req.path.rest == Self && (req.verb == Post || req.verb == Other))
             || req.path.rest == Deeper
             || (req.path.rest.Items?
                 && MenuItemsRouter.Serve(db, req.path.menuId, req.verb, req.path.rest.sub,
                                          req.menuItem, newId).None?)
    ensures var id := req.path.menuId;
      var hasItems := exists k :: k in db.items && db.items[k].menuId == id;
      Serve(db, req, newId) == Outcome(StatusOnly(if hasItems then 400 else 404), db)
  {
  }

  /** The menu-items routes behave as the menu-items router does once the menu exists. */
  lemma ItemRoutesDelegate(db: Db, req: Request, newId: int)
    requires req.path.Under? && req.path.menuId in db.menus && req.path.rest.Items?
    requires MenuItemsRouter.Serve(db, req.path.menuId, req.verb, req.path.rest.sub, req.menuItem, newId).Some?
    ensures Serve(db, req, newId)
         == MenuItemsRouter.Serve(db, req.path.menuId, req.verb, req.path.rest.sub, req.menuItem, newId).value
  {
  }

  // ---------------------------------------------------------------------------------------------
  // Integrity of the store

  /** No request breaks the store's shape or its references: an item is only inserted or moved
      under a menu the hook found, and a menu is only deleted when the guard found no items. */
  lemma ServePreservesIntegrity(db: Db, req: Request, newId: int)
    requires WellFormed(db) && ReferentialIntegrity(db)
    ensures WellFormed(Serve(db, req, newId).db)
    ensures ReferentialIntegrity(Serve(db, req, newId).db)
  {
    var out := Serve(db, req, newId);
    match req.path
    case Root =>
      if req.verb == Post && CheckInputs(req.menu) {
        assert out.db == Db(db.menus[newId := MenuRow(newId, req.menu.title)], db.items);
      } else {
        assert out.db == db;
      }
    case Under(menuId, rest) =>
      if menuId !in db.menus {
        assert out.db == db;
      } else if rest == Self && (req.verb == Get || req.verb == Put) {
        assert out.db.items == db.items;
        assert out.db.menus.Keys == db.menus.Keys;
      } else if rest.Items? && MenuItemsRouter.Serve(db, menuId, req.verb, rest.sub, req.menuItem, newId).Some? {
        MenuItemsRouter.ServePreservesIntegrity(db, menuId, req.verb, rest.sub, req.menuItem, newId);
      } else {
        var isDelete := rest == Self && req.verb == Delete;
        assert out == AfterGuard(db, menuId, isDelete);
        AfterGuardPreservesIntegrity(db, menuId, isDelete);
      }
  }

  /** The guard only lets a menu be deleted when no item refers to it. */
  lemma AfterGuardPreservesIntegrity(db: Db, menuId: int, isDelete: bool)
    requires WellFormed(db) && ReferentialIntegrity(db)
    ensures WellFormed(AfterGuard(db, menuId, isDelete).db)
    ensures ReferentialIntegrity(AfterGuard(db, menuId, isDelete).db)
  {
    if !HasItems(db, menuId) {
      assert forall k :: k in db.items ==> db.items[k].menuId != menuId;
    }
  }

  /** ... and therefore neither does any sequence of requests. */
  lemma {:induction false} ReplayPreservesIntegrity(db: Db, steps: seq<Step>)
    requires WellFormed(db) && ReferentialIntegrity(db)
    ensures WellFormed(Replay(db, steps)) && ReferentialIntegrity(Replay(db, steps))
    decreases |steps|
  {
    if steps != [] {
      ServePreservesIntegrity(db, steps[0].req, steps[0].newId);
      ReplayPreservesIntegrity(Serve(db, steps[0].req, steps[0].newId).db, steps[1..]);
    }
  }

  // ---------------------------------------------------------------------------------------------
  // Requests in sequence

  /** A menu read back after it is created is the row the creation answered with. */
  lemma CreatedMenuReadsBack(db: Db, create: Request, get: Request, newId: int, laterId: int)
    requires create.verb == Post && create.path == Root && CheckInputs(create.menu)
    requires newId !in db.menus
    requires get.verb == Get && get.path == Under(newId, Self)
    ensures var out := Serve(db, create, newId);
      && Serve(out.db, get, laterId) == Outcome(out.response.(status := 200), out.db)
      && out.response.payload == MenuPayload(Some(Menu(newId, Column(create.menu.title))))
  {
  }

  /** A menu read back after an update is the row the update answered with. */
  lemma UpdatedMenuReadsBack(db: Db, put: Request, get: Request, newId: int, laterId: int)
    requires put.verb == Put && put.path.Under? && put.path.rest == Self && CheckInputs(put.menu)
    requires put.path.menuId in db.menus
    requires get.verb == Get && get.path == put.path
    ensures var out := Serve(db, put, newId);
      Serve(out.db, get, laterId) == Outcome(out.response, out.db)
  {
  }

  /** An item read back after an update is the row the update answered with: the submitted
      fields as stored, under the path's menu. */
  lemma UpdatedItemReadsBack(db: Db, put: Request, get: Request, newId: int, laterId: int)
    requires put.verb == Put && put.path.Under? && put.path.menuId in db.menus
    requires put.path.rest.Items? && put.path.rest.sub.Single? && put.path.rest.sub.itemId in db.items
    requires MenuItemsRouter.CheckInputs(put.menuItem)
    requires get.verb == Get && get.path == put.path
    ensures var out := Serve(db, put, newId);
      var row := ItemRow(put.path.rest.sub.itemId, put.menuItem, put.path.menuId);
      && out.response == Response(200, ItemPayload(Some(row)))
      && Serve(out.db, get, laterId) == Outcome(out.response, out.db)
  {
  }

  /** An item created under a menu reads back by its id and is listed under that menu. */
  lemma CreatedItemReadsBack(db: Db, create: Request, get: Request, list: Request, newId: int, laterId: int)
    requires WellFormed(db)
    requires create.verb == Post && create.path.Under? && create.path.rest == Items(MenuItemsRouter.Collection)
    requires create.path.menuId in db.menus && MenuItemsRouter.CheckInputs(create.menuItem)
    requires newId !in db.items
    requires get.verb == Get && get.path == Under(create.path.menuId, Items(MenuItemsRouter.Single(newId)))
    requires list.verb == Get && list.path == create.path
    ensures var out := Serve(db, create, newId);
      var row := ItemRow(newId, create.menuItem, create.path.menuId);
      && out.response == Response(201, ItemPayload(Some(row)))
      && Serve(out.db, get, laterId) == Outcome(Response(200, ItemPayload(Some(row))), out.db)
      && Serve(out.db, list, laterId).response.payload.ItemsPayload?
      && row in Serve(out.db, list, laterId).response.payload.items
  {
    var out := Serve(db, create, newId);
    var row := ItemRow(newId, create.menuItem, create.path.menuId);
    assert row in out.db.items.Values by {
      assert out.db.items[newId] == row;
    }
  }

  /** PUT on `/:a/menu-items/:i` overwrites the item's `menu_id` with `a`, whatever menu the item
      was under: afterwards it is listed under `a` and no longer under its old menu. */
  lemma PutMovesItem(db: Db, req: Request, newId: int)
    requires WellFormed(db)
    requires req.verb == Put && req.path.Under? && req.path.menuId in db.menus
    requires req.path.rest.Items? && req.path.rest.sub.Single? && req.path.rest.sub.itemId in db.items
    requires MenuItemsRouter.CheckInputs(req.menuItem)
    ensures var a, i := req.path.menuId, req.path.rest.sub.itemId;
      var before := db.items[i].menuId;
      var after := Serve(db, req, newId).db;
      && db.items[i] in ItemsOfMenu(db.items, before)
      && ItemRow(i, req.menuItem, a) in ItemsOfMenu(after.items, a)
      && (before != a ==> forall r :: r in ItemsOfMenu(after.items, before) ==> r.id != i)
  {
    var a, i := req.path.menuId, req.path.rest.sub.itemId;
    var before := db.items[i].menuId;
    var after := Serve(db, req, newId).db;
    assert after.items == db.items[i := ItemRow(i, req.menuItem, a)];
    assert db.items[i] in db.items.Values;
    assert after.items[i] in after.items.Values;
    if before != a {
      forall r | r in ItemsOfMenu(after.items, before) ensures r.id != i {
        var k := KeyOf(after.items, r);
      }
    }
  }
}
