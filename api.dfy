/** The /api/robots handler: method dispatch, body validation and status
    codes, over a table of stored records.

    A stored record is the set of fields written to it, keyed by its id.
    The handler lets any store failure surface as 500; with this table the
    only failures are an id that names no record and a body that is not
    there at all (destructuring `undefined` throws). */
module Api {
  import opened Time
  import opened Schedule

  /** A JSON value of a request body. Numbers are integers; fractional
      numbers, objects and arrays are JOther. */
  datatype Json = JNull | JBool(b: bool) | JNum(n: int) | JStr(s: string) | JOther

  /** A request body, or the fields of a stored record. */
  type Fields = map<string, Json>

  /** `body.key`: undefined (None) when absent. */
  function Field(body: Fields, key: string): Option<Json>
  {
    if key in body then Some(body[key]) else None
  }

  /** JavaScript truthiness: undefined, null, false, 0 and "" are falsy. */
  predicate Truthy(v: Option<Json>)
  {
    match v
    case None => false
    case Some(j) =>
      match j
      case JNull => false
      case JBool(b) => b
      case JNum(n) => n != 0
      case JStr(s) => s != ""
      case JOther => true
  }

  /** `typeof v === 'number'` */
  predicate IsNumber(v: Option<Json>)
  {
    v.Some? && v.value.JNum?
  }

  /** The fields a create writes. */
  const CreateFields: set<string> := {"name", "startTime", "endTime", "color", "manual", "day"}

  /** The methods the handler serves, as the Allow header lists them. */
  const AllowedMethods: seq<string> := ["GET", "POST", "PUT", "DELETE"]

  /** The POST check: name, startTime, endTime and color truthy, day a number. */
  predicate ValidCreate(body: Fields)
  {
    Truthy(Field(body, "name")) && Truthy(Field(body, "startTime")) && Truthy(Field(body, "endTime"))
    && Truthy(Field(body, "color")) && IsNumber(Field(body, "day"))
  }

  /** `data: { name, startTime, endTime, color, manual, day }`: the six
      fields the body has; an undefined one is not written. */
  function CreateData(body: Fields): (row: Fields)
    ensures forall k :: k in row <==> k in CreateFields && k in body
    ensures forall k :: k in row ==> row[k] == body[k]
  {
    map k | k in body && k in CreateFields :: body[k]
  }

  /** `const { id, ...data } = req.body`: every field but the id. */
  function UpdateData(body: Fields): (data: Fields)
    ensures forall k :: k in data <==> k in body && k != "id"
    ensures forall k :: k in data ==> data[k] == body[k]
  {
    body - {"id"}
  }

  /** The record `where: { id }` names, if the id is a number of a stored record. */
  function StoredId(body: Fields, rows: map<int, Fields>): (id: Option<int>)
    ensures id.Some? <==> "id" in body && body["id"].JNum? && body["id"].n in rows
    ensures id.Some? ==> body["id"] == JNum(id.value)
  {
    if "id" in body && body["id"].JNum? && body["id"].n in rows then Some(body["id"].n) else None
  }

  datatype ReplyBody =
    | NoContent
    | AllRows(rows: map<int, Fields>)
    | OneRow(id: int, row: Fields)
    | ErrorText(message: string)
    | PlainText(text: string)

  /** Status, body and Allow header of a response. */
  datatype Reply = Reply(status: int, body: ReplyBody, allow: seq<string>)

  /** A reply and the table after the request. */
  datatype Outcome = Outcome(reply: Reply, rows: map<int, Fields>)

  function ServerError(rows: map<int, Fields>): Outcome
  {
    Outcome(Reply(500, ErrorText("Erro interno no servidor"), []), rows)
  }

  /** What `handler` answers to a request, and the table afterwards, when
      the table holds `rows` and would give a new record the id `newId`. */
  function Respond(verb: string, body: Option<Fields>, rows: map<int, Fields>, newId: int): (o: Outcome)
    ensures o.reply.status in {200, 201, 204, 400, 405, 500}
    ensures verb == "GET" ==> o == Outcome(Reply(200, AllRows(rows), []), rows)
    ensures o.reply.status == 400 <==>
              body.Some? && ((verb == "POST" && !ValidCreate(body.value))
                             || ((verb == "PUT" || verb == "DELETE") && !Truthy(Field(body.value, "id"))))
    ensures o.reply.status == 405 <==> verb !in AllowedMethods
    ensures o.reply.status == 405 ==> o.reply.allow == AllowedMethods
    ensures o.reply.status == 500 <==>
              (verb == "POST" || verb == "PUT" || verb == "DELETE")
              && (body.None? || (verb != "POST" && Truthy(Field(body.value, "id")) && StoredId(body.value, rows).None?))
    ensures o.reply.status == 201 <==> verb == "POST" && body.Some? && ValidCreate(body.value)
    ensures o.reply.status == 204 <==> verb == "DELETE" && body.Some? && Truthy(Field(body.value, "id"))
                                       && StoredId(body.value, rows).Some?
    ensures o.reply.status in {400, 405, 500} || verb == "GET" ==> o.rows == rows
  {
    if verb == "GET" then Outcome(Reply(200, AllRows(rows), []), rows)
    else if verb == "POST" then
      if body.None? then ServerError(rows)
      else if !ValidCreate(body.value) then
        Outcome(Reply(400, ErrorText("Campos obrigatórios ausentes"), []), rows)
      else
        var data := CreateData(body.value);
        Outcome(Reply(201, OneRow(newId, data), []), rows[newId := data])
    else if verb == "PUT" then
      if body.None? then ServerError(rows)
      else if !Truthy(Field(body.value, "id")) then
        Outcome(Reply(400, ErrorText("ID do robô é obrigatório para atualizar"), []), rows)
      else
        match StoredId(body.value, rows)
        case None => ServerError(rows)
        case Some(id) =>
          var updated := rows[id] + UpdateData(body.value);
          Outcome(Reply(200, OneRow(id, updated), []), rows[id := updated])
    else if verb == "DELETE" then
      if body.None? then ServerError(rows)
      else if !Truthy(Field(body.value, "id")) then
        Outcome(Reply(400, ErrorText("ID do robô é obrigatório"), []), rows)
      else
        match StoredId(body.value, rows)
        case None => ServerError(rows)
        case Some(id) => Outcome(Reply(204, NoContent, []), rows - {id})
    else
      Outcome(Reply(405, PlainText("Method " + verb + " Not Allowed"), AllowedMethods), rows)
  }

  /** A valid POST adds exactly one record, under the fresh id, holding
      exactly the six create fields the body has; other records are kept. */
  lemma PostAddsOneRecord(body: Fields, rows: map<int, Fields>, newId: int)
    requires ValidCreate(body) && newId !in rows
    ensures var o := Respond("POST", Some(body), rows, newId);
            && o.reply.status == 201
            && o.rows.Keys == rows.Keys + {newId}
            && |o.rows| == |rows| + 1
            && (forall k :: k in rows ==> o.rows[k] == rows[k])
            && (forall f :: f in o.rows[newId] <==> f in CreateFields && f in body)
            && (forall f :: f in o.rows[newId] ==> o.rows[newId][f] == body[f])
  {
    var o := Respond("POST", Some(body), rows, newId);
    assert o.rows == rows[newId := CreateData(body)];
    assert o.rows.Keys == rows.Keys + {newId};
    assert |rows.Keys + {newId}| == |rows.Keys| + 1;
  }

  /** A PUT that names a stored record overwrites the fields the body gives
      (all but the id) and keeps every other field and every other record. */
  lemma PutOverwritesGivenFields(body: Fields, rows: map<int, Fields>, newId: int, id: int)
    requires "id" in body && body["id"] == JNum(id) && id != 0 && id in rows
    ensures var o := Respond("PUT", Some(body), rows, newId);
            && o.reply.status == 200
            && o.rows.Keys == rows.Keys
            && (forall k :: k in rows && k != id ==> o.rows[k] == rows[k])
            && (forall f :: f in o.rows[id] <==> f in rows[id] || (f in body && f != "id"))
            && (forall f :: f in o.rows[id] ==> o.rows[id][f] == if f in body && f != "id" then body[f] else rows[id][f])
  {
    assert StoredId(body, rows) == Some(id);
  }

  /** A DELETE that names a stored record removes that record only. */
  lemma DeleteRemovesOnlyThat(body: Fields, rows: map<int, Fields>, newId: int, id: int)
    requires "id" in body && body["id"] == JNum(id) && id != 0 && id in rows
    ensures var o := Respond("DELETE", Some(body), rows, newId);
            && o.reply.status == 204
            && o.rows.Keys == rows.Keys - {id}
            && (forall k :: k in o.rows ==> o.rows[k] == rows[k])
  {
    assert StoredId(body, rows) == Some(id);
  }

  /** An id of 0 is falsy: it is refused before the table is consulted,
      even when a record 0 is stored. */
  lemma ZeroIdRefused(rows: map<int, Fields>, newId: int, verb: string)
    requires verb == "PUT" || verb == "DELETE"
    ensures Respond(verb, Some(map["id" := JNum(0)]), rows, newId).reply.status == 400
  {
  }

  // ---------------------------------------------------------------------
  // The table

  /** The robot table: records by id, and the id the next create gets. */
  class RobotTable {
    var rows: map<int, Fields>
    var nextId: int

    /** Every stored id is below the next one, so a new id is fresh. */
    ghost predicate Valid()
      reads this
    {
      forall k :: k in rows ==> k < nextId
    }

    constructor ()
      ensures Valid() && rows == map[]
    {
      rows := map[];
      nextId := 1;
    }

    /** `handler(req, res)`. */
    method Handle(verb: string, body: Option<Fields>) returns (reply: Reply)
      requires Valid()
      modifies this
      ensures Valid()
      ensures reply == Respond(verb, body, old(rows), old(nextId)).reply
      ensures rows == Respond(verb, body, old(rows), old(nextId)).rows
      ensures nextId == if reply.status == 201 then old(nextId) + 1 else old(nextId)
    {
      if verb == "GET" {
        return Reply(200, AllRows(rows), []);
      }
      if verb == "POST" {
        if body.None? {
          return ServerError(rows).reply;
        }
        var b := body.value;
        if !ValidCreate(b) {
          return Reply(400, ErrorText("Campos obrigatórios ausentes"), []);
        }
        var data := CreateData(b);
        var id := nextId;
        rows := rows[id := data];
        nextId := nextId + 1;
        return Reply(201, OneRow(id, data), []);
      }
      if verb == "PUT" {
        if body.None? {
          return ServerError(rows).reply;
        }
        var b := body.value;
        if !Truthy(Field(b, "id")) {
          return Reply(400, ErrorText("ID do robô é obrigatório para atualizar"), []);
        }
        var target := StoredId(b, rows);
        if target.None? {
          return ServerError(rows).reply;
        }
        var id := target.value;
        var updated := rows[id] + UpdateData(b);
        rows := rows[id := updated];
        return Reply(200, OneRow(id, updated), []);
      }
      if verb == "DELETE" {
        if body.None? {
          return ServerError(rows).reply;
        }
        var b := body.value;
        if !Truthy(Field(b, "id")) {
          return Reply(400, ErrorText("ID do robô é obrigatório"), []);
        }
        var target := StoredId(b, rows);
        if target.None? {
          return ServerError(rows).reply;
        }
        rows := rows - {target.value};
        return Reply(204, NoContent, []);
      }
      return Reply(405, PlainText("Method " + verb + " Not Allowed"), AllowedMethods);
    }
  }

  // ---------------------------------------------------------------------
  // The screens' create requests

  /** The JSON body the screens post for a payload. */
  function PayloadBody(p: Payload): (b: Fields)
    ensures CreateFields <= b.Keys
  {
    map["name" := JStr(p.name), "startTime" := JStr(p.startTime), "endTime" := JStr(p.endTime),
        "color" := JStr(p.color), "manual" := JBool(p.manual), "day" := JNum(p.day),
        "isDaily" := JBool(p.isDaily)]
    + (match p.description case None => map[] case Some(d) => map["description" := JStr(d)])
  }

  /** The body of a payload passes the POST check exactly when its name,
      times and colour are non-empty. */
  lemma PayloadPassesCheck(p: Payload)
    ensures ValidCreate(PayloadBody(p)) <==> p.name != "" && p.startTime != "" && p.endTime != "" && p.color != ""
  {
    var b := PayloadBody(p);
    assert Field(b, "name") == Some(JStr(p.name));
    assert Field(b, "startTime") == Some(JStr(p.startTime));
    assert Field(b, "endTime") == Some(JStr(p.endTime));
    assert Field(b, "color") == Some(JStr(p.color));
    assert Field(b, "day") == Some(JNum(p.day));
  }

  /** What a create stores of a payload: its six create fields, and neither
      its description nor its daily flag. */
  lemma PayloadStored(p: Payload)
    ensures CreateData(PayloadBody(p))
            == map["name" := JStr(p.name), "startTime" := JStr(p.startTime), "endTime" := JStr(p.endTime),
                   "color" := JStr(p.color), "manual" := JBool(p.manual), "day" := JNum(p.day)]
  {
    var row := CreateData(PayloadBody(p));
    var expected := map["name" := JStr(p.name), "startTime" := JStr(p.startTime), "endTime" := JStr(p.endTime),
                        "color" := JStr(p.color), "manual" := JBool(p.manual), "day" := JNum(p.day)];
    assert row.Keys == expected.Keys;
  }

  /** A payload the screens post is created exactly when its name, times
      and colour are non-empty; the new record then holds the payload's six
      create fields, without its description or daily flag. */
  lemma PayloadCreated(p: Payload, rows: map<int, Fields>, newId: int)
    ensures Respond("POST", Some(PayloadBody(p)), rows, newId).reply.status == 201
            <==> p.name != "" && p.startTime != "" && p.endTime != "" && p.color != ""
    ensures p.name != "" && p.startTime != "" && p.endTime != "" && p.color != "" ==>
              Respond("POST", Some(PayloadBody(p)), rows, newId).rows[newId]
              == map["name" := JStr(p.name), "startTime" := JStr(p.startTime), "endTime" := JStr(p.endTime),
                     "color" := JStr(p.color), "manual" := JBool(p.manual), "day" := JNum(p.day)]
  {
    PayloadPassesCheck(p);
    PayloadStored(p);
  }
}
