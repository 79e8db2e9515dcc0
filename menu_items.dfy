/** The menu-items router, mounted at `/api/menus/:menuId/menu-items`: it sees the parent's
    `menuId` (already resolved by the parent's hook) and the rest of the path. */
module MenuItemsRouter {
  import opened Json
  import opened Ids
  import opened Schema
  import opened Http
  import opened Storage

  /** The path below the mount point: `/`, `/:menuItemId`, or anything longer. */
  datatype ItemPath = Collection | Single(itemId: int) | Beyond

  /** `checkInputs`: `name`, `inventory` and `price` must be truthy; `description` may be anything. */
  predicate CheckInputs(f: ItemFields) {
    Truthy(f.name) && Truthy(f.inventory) && Truthy(f.price)
  }

  /** GET `/`: the rows of menu `menuId`. The query always yields an array, so the `!rows` branch
      never answers. */
  function ListItems(db: Db, menuId: int): Outcome {
    Outcome(Response(200, ItemsPayload(ItemsOfMenu(db.items, menuId))), db)
  }

  /** POST `/`: validate, insert under the path's menu, re-read the row by its new id. */
  function CreateItem(db: Db, menuId: int, f: ItemFields, newId: int): Outcome {
    if !CheckInputs(f) then Outcome(StatusOnly(400), db)
    else
      var after := Db(db.menus, db.items[newId := ItemRow(newId, f, menuId)]);
      Outcome(Response(201, ItemPayload(LookupItem(after.items, newId))), after)
  }

  /** PUT `/:menuItemId`: validate, overwrite the row (its `menu_id` too), re-read it. */
  function PutItem(db: Db, menuId: int, itemId: int, f: ItemFields): Outcome {
    if !CheckInputs(f) then Outcome(StatusOnly(400), db)
    else
      var after := Db(db.menus, SetItem(db.items, itemId, f, menuId));
      Outcome(Response(200, ItemPayload(LookupItem(after.items, itemId))), after)
  }

  /** DELETE `/:menuItemId` */
  function RemoveItem(db: Db, itemId: int): Outcome {
    Outcome(StatusOnly(204), Db(db.menus, db.items - {itemId}))
  }

  /** One request through the router's layers in their order. `None` means no route matched and
      the request goes back to the parent router's next layer. The `menuItemId` hook runs first on
      every route with that parameter, and looks the item up by id alone. */
  function Serve(db: Db, menuId: int, verb: Method, path: ItemPath, f: ItemFields, newId: int)
    : Option<Outcome>
  {
    match path
    case Collection =>
      if verb == Get then Some(ListItems(db, menuId))
      else if verb == Post then Some(CreateItem(db, menuId, f, newId))
      else None
    case Single(itemId) =>
      if verb == Get || verb == Put || verb == Delete then
        match LookupItem(db.items, itemId)
        case None => Some(Outcome(StatusOnly(404), db))
        case Some(item) =>
          if verb == Get then Some(Outcome(Response(200, ItemPayload(Some(item))), db))
          else if verb == Put then Some(PutItem(db, menuId, itemId, f))
          else Some(RemoveItem(db, itemId))
      else None
    case Beyond => None
  }

  /** The router run against the shared store. `handled` is false when the request falls through
      to the parent; then nothing has changed. `newId` is the id the insert obtained. */
  method Handle(database: Database, menuId: int, verb: Method, path: ItemPath, f: ItemFields)
    returns (handled: bool, resp: Response, ghost newId: int)
    modifies database
    ensures path == Collection ==> newId !in old(database.items)
    ensures var out := Serve(old(database.State()), menuId, verb, path, f, newId);
      && handled == out.Some?
      && (handled ==> out.value == Outcome(resp, database.State()))
      && (!handled ==> database.State() == old(database.State()))
  {
    UnusedIdExists(database.items.Keys);
    newId :| newId !in database.items;
    handled, resp := true, StatusOnly(404);
    match path
    case Collection =>
      if verb == Get {
        var rows := database.SelectItemsOfMenu(menuId);
        resp := Response(200, ItemsPayload(rows));
      } else if verb == Post {
        if !CheckInputs(f) {
          resp := StatusOnly(400);
        } else {
          var id := database.InsertItem(f, menuId);
          newId := id;
          var row := database.GetItem(id);
          resp := Response(201, ItemPayload(row));
        }
      } else {
        handled := false;
      }
    case Single(itemId) =>
      if verb == Get || verb == Put || verb == Delete {
        var item := database.GetItem(itemId);
        if item.None? {
          resp := StatusOnly(404);
        } else if verb == Get {
          resp := Response(200, ItemPayload(item));
        } else if verb == Put {
          if !CheckInputs(f) {
            resp := StatusOnly(400);
          } else {
            database.UpdateItem(itemId, f, menuId);
            var row := database.GetItem(itemId);
            resp := Response(200, ItemPayload(row));
          }
        } else {
          database.DeleteItem(itemId);
          resp := StatusOnly(204);
        }
      } else {
        handled := false;
      }
    case Beyond =>
      handled := false;
  }

  // ---------------------------------------------------------------------------------------------
  // Properties of one request

  /** `checkInputs` treats the number 0 as a missing field: an item with no stock or a zero price
      cannot be created or updated. */
  lemma ZeroIsMissing(f: ItemFields)
    requires Truthy(f.name)
    requires f.inventory == Num(0.0) || f.price == Num(0.0)
    ensures !CheckInputs(f)
  {
  }

  /** GET `/` answers 200 with exactly the rows whose `menu_id` is the path's menu, in id order,
      and changes nothing; a menu without items gets an empty list. */
  lemma ListIsExactlyTheMenusItems(db: Db, menuId: int, f: ItemFields, newId: int)
    requires WellFormed(db)
    ensures var out := Serve(db, menuId, Get, Collection, f, newId);
      && out.Some? && out.value.db == db
      && out.value.response.status == 200
      && out.value.response.payload.ItemsPayload?
      && var rows := out.value.response.payload.items;
        && (forall r :: r in rows <==> r in db.items.Values && r.menuId == menuId)
        && ItemsById(rows)
        && ((forall k :: k in db.items ==> db.items[k].menuId != menuId) ==> rows == [])
  {
    var rows := ItemsOfMenu(db.items, menuId);
    if forall k :: k in db.items ==> db.items[k].menuId != menuId {
      if rows != [] {
        assert false;
      }
    }
  }

  /** POST or PUT with a falsy `name`, `inventory` or `price` answers 400 and changes nothing. */
  lemma FalsyFieldRejected(db: Db, menuId: int, verb: Method, path: ItemPath, f: ItemFields, newId: int)
    requires !Truthy(f.name) || !Truthy(f.inventory) || !Truthy(f.price)
    requires (verb == Post && path == Collection) || (verb == Put && path.Single? && path.itemId in db.items)
    ensures Serve(db, menuId, verb, path, f, newId) == Some(Outcome(StatusOnly(400), db))
  {
  }

  /** POST `/` with valid fields adds exactly one row: the new id, the four submitted fields as
      stored (an absent description reads back as null) and the path's menu. It answers 201 with
      that row; the Menu table and every other item are unchanged. */
  lemma CreateInsertsOneRow(db: Db, menuId: int, f: ItemFields, newId: int)
    requires CheckInputs(f)
    requires newId !in db.items
    ensures var out := Serve(db, menuId, Post, Collection, f, newId);
      var row := MenuItem(newId, Column(f.name), Column(f.description), Column(f.inventory),
                          Column(f.price), menuId);
      && out.Some?
      && out.value.response == Response(201, ItemPayload(Some(row)))
      && out.value.db.menus == db.menus
      && out.value.db.items == db.items[newId := row]
      && |out.value.db.items| == |db.items| + 1
      && (forall k :: k in db.items ==> k in out.value.db.items && out.value.db.items[k] == db.items[k])
      && (f.description == Undefined ==> row.description == Null)
  {
  }

  /** `checkInputs` tests the body values, not what the driver stores: an empty array is truthy,
      so it passes as a name, and is stored as its text, the falsy empty string. `Composite("")`
      is such an array: `""` is the text of `[]` (and of `[""]`). */
  lemma EmptyArrayNameStoredEmpty(db: Db, menuId: int, f: ItemFields, newId: int)
    requires f.name == Composite("") && Truthy(f.inventory) && Truthy(f.price)
    requires newId !in db.items
    ensures CheckInputs(f)
    ensures var out := Serve(db, menuId, Post, Collection, f, newId);
      && out.Some? && out.value.response.status == 201
      && newId in out.value.db.items
      && out.value.db.items[newId].name == Str("")
      && !Truthy(out.value.db.items[newId].name)
  {
  }

  /** The `menuItemId` hook: GET, PUT or DELETE on an id no item has answers 404 and changes
      nothing, whatever the body. */
  lemma UnknownItemIs404(db: Db, menuId: int, verb: Method, itemId: int, f: ItemFields, newId: int)
    requires verb == Get || verb == Put || verb == Delete
    requires itemId !in db.items
    ensures Serve(db, menuId, verb, Single(itemId), f, newId) == Some(Outcome(StatusOnly(404), db))
  {
  }

  /** The hook looks the item up by id alone: an item is found under any menu's path, including
      one it does not belong to. */
  lemma ItemFoundUnderAnyMenu(db: Db, menuId: int, itemId: int, f: ItemFields, newId: int)
    requires itemId in db.items
    ensures Serve(db, menuId, Get, Single(itemId), f, newId)
         == Some(Outcome(Response(200, ItemPayload(Some(db.items[itemId]))), db))
  {
  }

  /** PUT `/:menuItemId` with valid fields overwrites the four fields and `menu_id` (from the path)
      of that one row and answers 200 with the re-read row; no other row changes. */
  lemma UpdateOverwritesRow(db: Db, menuId: int, itemId: int, f: ItemFields, newId: int)
    requires itemId in db.items
    requires CheckInputs(f)
    ensures var out := Serve(db, menuId, Put, Single(itemId), f, newId);
      var row := MenuItem(itemId, Column(f.name), Column(f.description), Column(f.inventory),
                          Column(f.price), menuId);
      && out.Some?
      && out.value.response == Response(200, ItemPayload(Some(row)))
      && out.value.db.menus == db.menus
      && out.value.db.items == db.items[itemId := row]
      && out.value.db.items.Keys == db.items.Keys
      && (forall k :: k in db.items && k != itemId ==> out.value.db.items[k] == db.items[k])
  {
  }

  /** DELETE `/:menuItemId` removes exactly that row and answers 204; the Menu table and the other
      items are unchanged. */
  lemma DeleteRemovesRow(db: Db, menuId: int, itemId: int, f: ItemFields, newId: int)
    requires itemId in db.items
    ensures var out := Serve(db, menuId, Delete, Single(itemId), f, newId);
      && out.Some?
      && out.value.response == StatusOnly(204)
      && out.value.db.menus == db.menus
      && out.value.db.items.Keys == db.items.Keys - {itemId}
      && |out.value.db.items| == |db.items| - 1
      && (forall k :: k in out.value.db.items ==> out.value.db.items[k] == db.items[k])
  {
  }

  /** Exactly these requests match no route of this router and go back to the parent: anything
      below `/:menuItemId`, a method other than GET and POST on `/`, and a method other than GET,
      PUT and DELETE on `/:menuItemId`. */
  lemma FallsThroughExactly(db: Db, menuId: int, verb: Method, path: ItemPath, f: ItemFields, newId: int)
    ensures Serve(db, menuId, verb, path, f, newId).None? <==>
      || path == Beyond
      || (path == Collection && verb != Get && verb != Post)
      || (path.Single? && (verb == Post || verb == Other))
  {
  }

  /** Every row this router writes sits under its own id and names the path's menu, which the
      parent's hook has found. */
  lemma ServePreservesIntegrity(db: Db, menuId: int, verb: Method, path: ItemPath, f: ItemFields, newId: int)
    requires WellFormed(db) && ReferentialIntegrity(db)
    requires menuId in db.menus
    ensures var out := Serve(db, menuId, verb, path, f, newId);
      out.Some? ==> WellFormed(out.value.db) && ReferentialIntegrity(out.value.db)
  {
  }
}
