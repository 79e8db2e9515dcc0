# Menus and menu items: a verified model of the two routers

This project models the request handling of the restaurant API's menus
router (`api/menus.js`, mounted at `/api/menus`) and its nested menu-items
router (`api/menu-items.js`, mounted at `/api/menus/:menuId/menu-items`).
Both routers work on one SQLite store with two tables, `Menu` and `MenuItem`.
An item carries the `menu_id` of the menu it belongs to.

The model has these parts:

- **`Json`** (`json.dfy`) holds the body values a handler can see and
  JavaScript truthiness over them. `undefined`, `null`, `false`, `0` and `""`
  are falsy.
- **`Ids`** (`ids.dfy`) holds the integer-id facts used by the store:
  - some id is always unused (it stands for `lastID`);
  - a finite id set has a least element;
  - the ids of a table can be listed in ascending order, which is the order a
    scan visits a rowid table.
- **`Schema`** (`schema.dfy`) holds the rows and the store as a value: a
  map from id to row per table. It also holds every read query as a
  function, the rows the writes produce, and the two store invariants:
  - every row sits under its own id;
  - every item's `menu_id` names an existing menu (referential integrity).
- **`Storage`** (`storage.dfy`) holds the class `Database`, the shared
  store. Its two tables are fields. Each SQL statement the handlers issue is
  a method, and each method's contract ties its result and the new tables to
  the `Schema` functions.
- **`Http`** (`http.dfy`) holds request methods, status codes and response
  bodies.
- **`MenuItemsRouter`** (`menu_items.dfy`) models the items router:
  - `checkInputs`;
  - the `menuItemId` parameter hook;
  - the five routes, as a pure function `Serve`. It answers `None` when no
    route matches and the request goes back to the parent router;
  - an imperative `Handle`, which issues the statements in the handlers'
    order against a `Database` and is proved to end in `Serve`'s outcome.
- **`MenusRouter`** (`menus.dfy`) models the menus router in its layer
  order: the list and create routes, the `menuId` hook, the get and update
  routes, the nested router, the delete guard, and the delete route. It has
  the same `Serve`/`Handle` pair. It also has `Replay`, which runs a
  sequence of requests, and the properties of the whole API.

How the routing is modelled:

- A request is a method, a parsed path and the two body objects
  (`menu.title`; `menuItem.name`, `description`, `inventory`, `price`).
- `/:menuId` is matched by the `use` layer of the delete guard for every
  method and every longer path. So the `menuId` hook runs for every
  request below `/api/menus/` other than the root itself. An unknown menu id
  therefore answers 404 before any body is validated.
- A request on an existing menu that no route answers reaches the guard.
  The guard answers 400 when the menu still has items. Otherwise the request
  goes on, so only `DELETE /:menuId` deletes; any other such request gets
  the framework's 404.
- The `menuItemId` hook looks the item up by id alone. So an item is
  reachable, updatable and deletable through any existing menu's path. A PUT
  writes the path's menu id into the row, which moves the item to that menu.
- Values are stored the way the sqlite driver binds them: `undefined` as
  NULL, booleans as 1 and 0, objects and arrays as their text, everything
  else unchanged.
- Ids are modelled as integers. An insert obtains some id the table does
  not use. `Handle` returns the obtained id as a ghost out-parameter, and
  `Serve` takes it as the parameter `newId`.

## Model

| member | source | states |
|---|---|---|
| `Ids.UnusedIdExists` | api/menus.js:47-53 | an insert can always obtain an id its table does not yet use, which is what `lastID` names |
| `Ids.MinOf` | api/menus.js:19-20 | a nonempty id set has a least element, the first row a rowid scan visits |
| `Ids.KeysAscending` | api/menus.js:19-20 | a table's ids listed once each, nothing else, in strictly ascending order |
| `Schema.Column` | api/menu-items.js:51-58 | a bound body value as a column reads back: never undefined, a boolean, an object or an array; an absent field becomes NULL, `true` and `false` become 1 and 0; an object or array reads back as its text; any other value is truthy exactly when the body value was, and null, numbers and strings are unchanged |
| `Schema.ScanFindsEveryRow` | api/menus.js:19-20 | a full scan yields every row of the table and no other value |
| `Schema.AllMenus` | api/menus.js:19-24 | `SELECT * FROM Menu` returns each menu once, no other row, in ascending id order |
| `Schema.ItemsOfMenu` | api/menu-items.js:16-21 | `SELECT * FROM MenuItem WHERE menu_id = ...` returns exactly the items with that `menu_id`, in ascending id order |
| `Schema.FirstItemOfMenu` | api/menus.js:122-127 | the guard's `db.get` finds a row exactly when some item has that `menu_id`, and the row it finds is such an item |
| `Storage.Database.constructor` | api/menus.js:15 | the store opens holding the given tables |
| `Storage.Database.SelectMenus` | api/menus.js:19-20 | the statement returns `AllMenus` of the current table and changes nothing |
| `Storage.Database.GetMenu` | api/menus.js:69-71 | the lookup by id finds the row under that id, or none |
| `Storage.Database.InsertMenu` | api/menus.js:41-53 | the insert adds one row under an id that was unused, holding the bound title; the item table is unchanged |
| `Storage.Database.UpdateMenu` | api/menus.js:93-100 | the update sets the title of the row with that id, if there is one; the item table is unchanged |
| `Storage.Database.DeleteMenu` | api/menus.js:138-140 | the delete removes the row with that id and nothing else |
| `Storage.Database.SelectItemsOfMenu` | api/menu-items.js:16-21 | the statement returns `ItemsOfMenu` for that menu id and changes nothing |
| `Storage.Database.GetItemOfMenu` | api/menus.js:122-124 | the guard's query returns `FirstItemOfMenu` and changes nothing |
| `Storage.Database.GetItem` | api/menu-items.js:80-83 | the lookup by id finds the row under that id, or none |
| `Storage.Database.InsertItem` | api/menu-items.js:48-58 | the insert adds one row under an unused id, holding the four bound fields and the menu id; the menu table is unchanged |
| `Storage.Database.UpdateItem` | api/menu-items.js:105-116 | the update overwrites all four fields and the `menu_id` of the row with that id, if there is one |
| `Storage.Database.DeleteItem` | api/menu-items.js:135-138 | the delete removes the row with that id and nothing else |
| `MenuItemsRouter.Handle` | api/menu-items.js:15-146 | the statements issued in the handlers' order leave the store and answer the response `MenuItemsRouter.Serve` specifies, or, when no route matches, change nothing; a POST obtains an id unused before |
| `MenuItemsRouter.ZeroIsMissing` | api/menu-items.js:39-41 | an inventory or price of 0 fails validation |
| `MenuItemsRouter.ListIsExactlyTheMenusItems` | api/menu-items.js:15-30 | GET `/` answers 200 with exactly the items of the path's menu, in id order, an empty list when it has none, and changes nothing |
| `MenuItemsRouter.EmptyArrayNameStoredEmpty` | api/menu-items.js:35-58 | an empty array as the name passes validation, because it is truthy, and is stored as the falsy empty string |
| `MenuItemsRouter.FalsyFieldRejected` | api/menu-items.js:34-43 | POST, or PUT on an existing item, with a falsy name, inventory or price answers 400 and changes nothing |
| `MenuItemsRouter.CreateInsertsOneRow` | api/menu-items.js:46-75 | a valid POST adds exactly one row under the new id, with the path's menu id, answers 201 with it, and leaves every other row unchanged |
| `MenuItemsRouter.UnknownItemIs404` | api/menu-items.js:79-94 | GET, PUT or DELETE on an id no item has answers 404 and changes nothing |
| `MenuItemsRouter.ItemFoundUnderAnyMenu` | api/menu-items.js:79-99 | the item hook matches by id alone, so GET finds an item under any menu's path |
| `MenuItemsRouter.UpdateOverwritesRow` | api/menu-items.js:102-131 | a valid PUT overwrites that row's four fields and `menu_id` with the path's menu, answers 200 with it, and changes no other row |
| `MenuItemsRouter.DeleteRemovesRow` | api/menu-items.js:134-146 | DELETE removes exactly that row and answers 204 |
| `MenuItemsRouter.FallsThroughExactly` | api/menu-items.js:15-146 | a request is passed back to the parent router if and only if its path is longer than `/:menuItemId`, or its method has no route on its path |
| `MenuItemsRouter.ServePreservesIntegrity` | api/menu-items.js:46-146 | under an existing menu, every request this router answers keeps rows under their own ids and every `menu_id` pointing to a menu |
| `MenusRouter.Handle` | api/menus.js:18-147 | the statements issued in the layers' order, the nested router included, leave the store and answer the response `MenusRouter.Serve` specifies; an insert obtains an id unused before |
| `MenusRouter.ListReturnsEveryMenu` | api/menus.js:18-27 | GET `/` answers 200 with every menu once, in id order, an empty list for an empty table, and changes nothing |
| `MenusRouter.FalsyTitleRejected` | api/menus.js:31-37 | POST `/`, or PUT on an existing menu, with a falsy title answers 400 and changes nothing |
| `MenusRouter.CreateInsertsOneMenu` | api/menus.js:40-63 | a valid POST adds exactly one menu under the new id, answers 201 with it, and leaves the items and the other menus unchanged |
| `MenusRouter.UnknownMenuIs404` | api/menus.js:68-82 | every request below a menu id with no row answers 404 and changes nothing, whatever its method and sub-path |
| `MenusRouter.GetReturnsTheMenu` | api/menus.js:85-87 | GET `/:menuId` answers 200 with the row the hook found |
| `MenusRouter.UpdateReplacesOnlyTitle` | api/menus.js:91-115 | a valid PUT changes only that menu's title, answers 200 with the updated row, and leaves the items unchanged |
| `MenusRouter.DeleteBlockedByItems` | api/menus.js:121-134 | DELETE on a menu some item refers to answers 400 and changes nothing |
| `MenusRouter.DeleteRemovesEmptyMenu` | api/menus.js:137-147 | DELETE on a menu no item refers to removes exactly that menu and answers 204 |
| `MenusRouter.DeletedMenuIsGone` | api/menus.js:68-82 | after such a delete, the next request below that id answers 404 and changes nothing, whatever its method or sub-path |
| `MenusRouter.AbsentMenuStaysAbsent` | api/menus.js:40-147 | a menu id no row has stays unused through any sequence of requests, unless a POST `/` obtains that id for its insert |
| `MenusRouter.DeletedMenuStaysGone` | api/menus.js:68-147 | after a delete and any requests in between that do not create a menu under the deleted id, every request below that id answers 404 |
| `MenusRouter.DeletedIdCanBeReused` | api/menus.js:40-87 | with menu 1 alone, DELETE `/1` answers 204, a POST `/` may obtain id 1 again, and GET `/1` then answers 200 with the new row |
| `MenusRouter.GuardAnswersUnroutedRequests` | api/menus.js:121-134 | a request on an existing menu that no route takes answers 400 when the menu has items and 404 otherwise, and changes nothing |
| `MenusRouter.ItemRoutesDelegate` | api/menus.js:118 | on an existing menu, a request the items router answers gets that router's answer |
| `MenusRouter.AfterGuardPreservesIntegrity` | api/menus.js:121-147 | the guard lets a menu be deleted only when no item refers to it, so the store's invariants survive |
| `MenusRouter.ServePreservesIntegrity` | api/menus.js:18-147 | no request breaks the store's invariants: rows under their own ids, and every item's `menu_id` naming an existing menu |
| `MenusRouter.ReplayPreservesIntegrity` | api/menus.js:18-147 | no sequence of requests breaks those invariants |
| `MenusRouter.CreatedMenuReadsBack` | api/menus.js:40-87 | a menu read back after its creation is the row the creation answered with |
| `MenusRouter.UpdatedMenuReadsBack` | api/menus.js:85-115 | a menu read back after an update is the row the update answered with |
| `MenusRouter.UpdatedItemReadsBack` | api/menu-items.js:97-131 | an item read back after an update is the row the update answered with: the submitted fields as stored, under the path's menu |
| `MenusRouter.CreatedItemReadsBack` | api/menu-items.js:15-99 | an item created under a menu reads back by its id and is listed under that menu |
| `MenusRouter.PutMovesItem` | api/menu-items.js:102-116 | a PUT through menu `a` moves the item to `a`'s list and out of its former menu's list |

## Left out

- `server.js` and the mounting of the menus router under `/api/menus` are not part of this model. A request enters with its path already below `/api/menus`.
- The SQL engine is not modelled: each statement is given its result on the two maps. SQLite's rowid allocation is replaced by "some unused id". The table definitions are not part of this model; for an `INTEGER PRIMARY KEY` table without `AUTOINCREMENT` SQLite gives one more than the largest id in use, so a deleted id can come back (`MenusRouter.DeletedIdCanBeReused`), and with `AUTOINCREMENT` it never would.
- Storage errors are left out, together with the `next(err)` paths they would take. So are the handlers that go on after an error without returning, in the POST and PUT callbacks.
- The callbacks are asynchronous, and another request could run between the guard's query and the delete. The model runs each request to completion, one at a time.
- A body without a `menu` or `menuItem` object makes `checkInputs` throw, which the framework answers with 500. The model always has both objects.
- JSON serialisation of responses is not modelled. Path parameters are integers, not strings: a non-numeric id, which matches no row, is not modelled.
- Objects and arrays bound as parameters are stored by the driver as text. The model carries that text in the `Composite` value instead of computing `toString()`. Column type affinity is not modelled, because the table definitions are not part of this model. Numbers are reals rather than doubles.
- `Schema.Column`: truthiness is kept only for values that are not objects or arrays. An array whose text is empty (`[]`, `[""]`) is truthy in the body but stored as the falsy empty string, and under a numeric column affinity a string such as `"0"` would read back as the falsy number 0, which the model does not capture.
- HEAD requests are not modelled. The framework sends them to the GET routes, so they run the same parameter hooks and GET handlers and get the same status, without a body. OPTIONS requests, which the framework answers on its own, are not modelled either. Every other method without a route is represented by `Other`.
- The body of the framework's 404 page is not modelled; only the status is.
- The statements have no `ORDER BY`, so SQLite does not promise any row order. The model fixes the order a rowid scan visits, ascending id, for `AllMenus` and `ItemsOfMenu`.
- The two `sqlite3.Database` handles, one per router file, open the same file. They are modelled as one shared `Database`.
- `MenuItemsRouter.ListIsExactlyTheMenusItems`: the `!rows` branch that would answer 404 is never taken, since `db.all` always yields an array, so no member models it.
