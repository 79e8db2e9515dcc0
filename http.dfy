/** What a handler chain answers: a status code and the rows of its JSON body. */
module Http {
  import opened Schema

  /** The request methods the routers distinguish; `Other` stands for any other method none of
      their routes is registered for. */
  datatype Method = Get | Post | Put | Delete | Other

  /** `{menus: [...]}`, `{menu: row}`, `{menuItems: [...]}`, `{menuItem: row}`, or no body
      (`sendStatus`). A single row is an `Option` because it is the result of a re-read. */
  datatype Payload =
    | NoPayload
    | MenusPayload(menus: seq<Menu>)
    | MenuPayload(menu: Option<Menu>)
    | ItemsPayload(items: seq<MenuItem>)
    | ItemPayload(item: Option<MenuItem>)

  datatype Response = Response(status: int, payload: Payload)

  /** The answer to one request together with the store it leaves behind. */
  datatype Outcome = Outcome(response: Response, db: Db)

  /** `res.sendStatus(code)` */
  function StatusOnly(code: int): Response {
    Response(code, NoPayload)
  }

  /** A request no layer answers: the framework's final handler, 404. */
  function Unrouted(db: Db): Outcome {
    Outcome(StatusOnly(404), db)
  }
}
