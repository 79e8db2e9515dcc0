/** The store both routers share (`new sqlite3.Database(...)` in each file, one database): its two
    tables are fields that the write statements reassign, and every SQL statement the handlers
    issue is a method. */
module Storage {
  import opened Json
  import opened Ids
  import opened Schema

  class Database {
    var menus: map<int, Menu>
    var items: map<int, MenuItem>

    /** The contents of both tables. */
    function State(): Db
      reads this
    {
      Db(menus, items)
    }

    /** Opens the store with whatever it already holds. */
    constructor (initial: Db)
      ensures State() == initial
    {
      menus := initial.menus;
      items := initial.items;
    }

    /** `SELECT * FROM Menu` */
    method SelectMenus() returns (rows: seq<Menu>)
      ensures rows == AllMenus(menus)
    {
      rows := AllMenus(menus);
    }

    /** `SELECT * FROM Menu WHERE id = $id` */
    method GetMenu(id: int) returns (row: Option<Menu>)
      ensures row == LookupMenu(menus, id)
    {
      row := LookupMenu(menus, id);
    }

    /** `INSERT INTO Menu (title) VALUES ($title)`; the result is the statement's `lastID`, some id
        the table did not use. */
    method InsertMenu(title: Value) returns (id: int)
      modifies this
      ensures id !in old(menus)
      ensures menus == old(menus)[id := MenuRow(id, title)]
      ensures items == old(items)
    {
      UnusedIdExists(menus.Keys);
      id :| id !in menus.Keys;
      menus := menus[id := MenuRow(id, title)];
    }

    /** `UPDATE Menu SET title = $title WHERE id = $id` */
    method UpdateMenu(id: int, title: Value)
      modifies this
      ensures menus == SetTitle(old(menus), id, title)
      ensures items == old(items)
    {
      menus := SetTitle(menus, id, title);
    }

    /** `DELETE FROM Menu WHERE id = $menuId` */
    method DeleteMenu(id: int)
      modifies this
      ensures menus == old(menus) - {id}
      ensures items == old(items)
    {
      menus := menus - {id};
    }

    /** `SELECT * FROM MenuItem WHERE menu_id = $menuId` through `db.all` */
    method SelectItemsOfMenu(menuId: int) returns (rows: seq<MenuItem>)
      ensures rows == ItemsOfMenu(items, menuId)
    {
      rows := ItemsOfMenu(items, menuId);
    }

    /** `SELECT * FROM MenuItem WHERE menu_id = $menuId` through `db.get` */
    method GetItemOfMenu(menuId: int) returns (row: Option<MenuItem>)
      ensures row == FirstItemOfMenu(items, menuId)
    {
      row := FirstItemOfMenu(items, menuId);
    }

    /** `SELECT * FROM MenuItem WHERE id = $id` */
    method GetItem(id: int) returns (row: Option<MenuItem>)
      ensures row == LookupItem(items, id)
    {
      row := LookupItem(items, id);
    }

    /** `INSERT INTO MenuItem (name, description, inventory, price, menu_id) VALUES (...)`; the
        result is `lastID`. */
    method InsertItem(f: ItemFields, menuId: int) returns (id: int)
      modifies this
      ensures id !in old(items)
      ensures items == old(items)[id := ItemRow(id, f, menuId)]
      ensures menus == old(menus)
    {
      UnusedIdExists(items.Keys);
      id :| id !in items.Keys;
      items := items[id := ItemRow(id, f, menuId)];
    }

    /** `UPDATE MenuItem SET name, description, inventory, price, menu_id WHERE id = $id` */
    method UpdateItem(id: int, f: ItemFields, menuId: int)
      modifies this
      ensures items == SetItem(old(items), id, f, menuId)
      ensures menus == old(menus)
    {
      items := SetItem(items, id, f, menuId);
    }

    /** `DELETE FROM MenuItem WHERE id = $menuItemId` */
    method DeleteItem(id: int)
      modifies this
      ensures items == old(items) - {id}
      ensures menus == old(menus)
    {
      items := items - {id};
    }
  }
}
