/** The two tables, `Menu` and `MenuItem`, as values: the rows, the store as a pair of maps from
    id to row, the read queries the handlers issue, and the row changes their writes make. */
module Schema {
  import opened Json
  import opened Ids

  datatype Option<T> = None | Some(value: T)

  /** A row of `Menu`. */
  datatype Menu = Menu(id: int, title: Value)

  /** A row of `MenuItem`; `menuId` is the column `menu_id`. */
  datatype MenuItem = MenuItem(
    id: int, name: Value, description: Value, inventory: Value, price: Value, menuId: int)

  /** The four client-supplied columns of a `MenuItem` (the body's `menuItem` object). */
  datatype ItemFields = ItemFields(name: Value, description: Value, inventory: Value, price: Value)

  /** The shared store: both tables, each keyed by row id. */
  datatype Db = Db(menus: map<int, Menu>, items: map<int, MenuItem>)

  /** A body value as the sqlite driver binds it and a later SELECT reads it back: `undefined`
      binds nothing, so the column holds NULL; booleans bind as the integers 1 and 0; an object
      or an array binds as its text. */
  function Column(v: Value): (c: Value)
    ensures c != Undefined && !c.Bool? && !c.Composite?
    ensures v == Undefined ==> c == Null
    ensures v.Bool? ==> c == Num(if v.b then 1.0 else 0.0)
    ensures !v.Composite? ==> Truthy(c) == Truthy(v)
    ensures v.Composite? ==> c == Str(v.text)
    ensures v.Null? || v.Num? || v.Str? ==> c == v
  {
    match v
    case Undefined => Null
    case Bool(b) => Num(if b then 1.0 else 0.0)
    case Composite(t) => Str(t)
    case _ => v
  }

  /** Every row sits under its own id. */
  ghost predicate WellFormed(db: Db) {
    && (forall k :: k in db.menus ==> db.menus[k].id == k)
    && (forall k :: k in db.items ==> db.items[k].id == k)
  }

  /** Every `MenuItem.menu_id` names an existing `Menu`. */
  ghost predicate ReferentialIntegrity(db: Db) {
    forall k :: k in db.items ==> db.items[k].menuId in db.menus
  }

  // ---------------------------------------------------------------------------------------------
  // Row order. A full scan of a rowid table visits the rows in ascending id order.

  /** The id under which a row is stored. */
  lemma KeyOf<V>(m: map<int, V>, v: V) returns (k: int)
    requires v in m.Values
    ensures k in m && m[k] == v
  {
    if forall j: int :: j in m ==> m[j] != v {
      assert false;
    }
    k :| k in m && m[k] == v;
  }

  /** The rows of `m` under the ids `ks`, in that order. */
  function Project<V>(m: map<int, V>, ks: seq<int>): (rows: seq<V>)
    requires forall i :: 0 <= i < |ks| ==> ks[i] in m
    ensures |rows| == |ks|
    ensures forall i :: 0 <= i < |ks| ==> rows[i] == m[ks[i]]
  {
    if ks == [] then [] else [m[ks[0]]] + Project(m, ks[1..])
  }

  /** The rows of `m` in ascending id order. */
  function RowsInKeyOrder<V>(m: map<int, V>): (rows: seq<V>)
    ensures |rows| == |KeysAscending(m.Keys)| == |m|
    ensures forall i :: 0 <= i < |rows| ==> rows[i] == m[KeysAscending(m.Keys)[i]]
  {
    Project(m, KeysAscending(m.Keys))
  }

  /** A scan returns each row of the table, and nothing else. */
  lemma ScanFindsEveryRow<V(!new)>(m: map<int, V>)
    ensures forall v :: v in RowsInKeyOrder(m) <==> v in m.Values
  {
    var ks, rows := KeysAscending(m.Keys), RowsInKeyOrder(m);
    forall v | v in m.Values ensures v in rows {
      var k := KeyOf(m, v);
      var i :| 0 <= i < |ks| && ks[i] == k;
      assert rows[i] == v;
    }
  }

  ghost predicate MenusById(rows: seq<Menu>) {
    forall i, j :: 0 <= i < j < |rows| ==> rows[i].id < rows[j].id
  }

  ghost predicate ItemsById(rows: seq<MenuItem>) {
    forall i, j :: 0 <= i < j < |rows| ==> rows[i].id < rows[j].id
  }

  // ---------------------------------------------------------------------------------------------
  // Queries

  /** `SELECT * FROM Menu`: every row once, in ascending id order. */
  function AllMenus(menus: map<int, Menu>): (rows: seq<Menu>)
    ensures |rows| == |menus|
    ensures forall r :: r in rows <==> r in menus.Values
    ensures (forall k :: k in menus ==> menus[k].id == k) ==> MenusById(rows)
  {
    ScanFindsEveryRow(menus);
    RowsInKeyOrder(menus)
  }

  /** `SELECT * FROM MenuItem`, the scan the filtered query runs over. */
  function AllItems(items: map<int, MenuItem>): (rows: seq<MenuItem>)
    ensures |rows| == |items|
    ensures forall r :: r in rows <==> r in items.Values
    ensures (forall k :: k in items ==> items[k].id == k) ==> ItemsById(rows)
  {
    ScanFindsEveryRow(items);
    RowsInKeyOrder(items)
  }

  /** `SELECT * FROM MenuItem WHERE menu_id = $menuId`. */
  function ItemsOfMenu(items: map<int, MenuItem>, menuId: int): (rows: seq<MenuItem>)
    ensures forall x :: x in rows <==> x in items.Values && x.menuId == menuId
    ensures (forall k :: k in items ==> items[k].id == k) ==> ItemsById(rows)
  {
    var matching := map k | k in items && items[k].menuId == menuId :: items[k];
    forall x | x in items.Values && x.menuId == menuId ensures x in matching.Values {
      var k := KeyOf(items, x);
      assert matching[k] == x;
    }
    AllItems(matching)
  }

  /** The same query through `db.get`: the first matching row, if there is one. */
  function FirstItemOfMenu(items: map<int, MenuItem>, menuId: int): (r: Option<MenuItem>)
    ensures r.Some? <==> exists k :: k in items && items[k].menuId == menuId
    ensures r.Some? ==> r.value in items.Values && r.value.menuId == menuId
  {
    var rows := ItemsOfMenu(items, menuId);
    assert (exists k :: k in items && items[k].menuId == menuId) ==> rows != [] by {
      if exists k :: k in items && items[k].menuId == menuId {
        var k :| k in items && items[k].menuId == menuId;
        assert items[k] in rows;
      }
    }
    if rows == [] then None
    else
      assert rows[0] in items.Values;
      Some(rows[0])
  }

  /** `SELECT * FROM Menu WHERE id = $id`. */
  function LookupMenu(menus: map<int, Menu>, id: int): Option<Menu> {
    if id in menus then Some(menus[id]) else None
  }

  /** `SELECT * FROM MenuItem WHERE id = $id`. */
  function LookupItem(items: map<int, MenuItem>, id: int): Option<MenuItem> {
    if id in items then Some(items[id]) else None
  }

  // ---------------------------------------------------------------------------------------------
  // Rows written by INSERT and UPDATE

  function MenuRow(id: int, title: Value): Menu {
    Menu(id, Column(title))
  }

  function ItemRow(id: int, f: ItemFields, menuId: int): MenuItem {
    MenuItem(id, Column(f.name), Column(f.description), Column(f.inventory), Column(f.price), menuId)
  }

  /** `UPDATE Menu SET title = $title WHERE id = $id`: a missing id matches no row. */
  function SetTitle(menus: map<int, Menu>, id: int, title: Value): map<int, Menu> {
    if id in menus then menus[id := MenuRow(id, title)] else menus
  }

  /** `UPDATE MenuItem SET name, description, inventory, price, menu_id WHERE id = $id`. */
  function SetItem(items: map<int, MenuItem>, id: int, f: ItemFields, menuId: int): map<int, MenuItem> {
    if id in items then items[id := ItemRow(id, f, menuId)] else items
  }
}
