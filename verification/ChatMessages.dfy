/** Chat messages as rows (models/chat_messages.py): upserts that touch only what a payload carries,
    and the message map whose child lists are rebuilt from parent links. */
module ChatMessages {
  import opened Text

  /** A Python value, as far as None and truthiness go. */
  datatype Value = Null | Str(s: string) | Other(text: string, truthy: bool)

  predicate Truthy(v: Value) {
    match v
    case Null => false
    case Str(s) => s != ""
    case Other(_, truthy) => truthy
  }

  type Payload = map<string, Value>

  /** `data.get(key)`, with a default. */
  function Field(data: Payload, key: string, default_: Value): Value {
    if key in data then data[key] else default_
  }

  /** `data.get(a) or data.get(b)`. */
  function Either(data: Payload, a: string, b: string): Value {
    if Truthy(Field(data, a, Null)) then data[a] else Field(data, b, Null)
  }

  datatype Row = Row(id: string, chatId: string, userId: string, role: Value, parentId: Value, content: Value,
                     output: Value, modelId: Value, files: Value, sources: Value, embeds: Value, meta: Value,
                     done: Value, statusHistory: Value, error: Value, usage: Value, contextSummary: Value,
                     createdAt: Value, updatedAt: int)

  type Table = map<string, Row>

  /** `get_usage`: any function of the payload. */
  type UsageOf = Payload -> Value

  const TRUE := Other("true", true)

  // --- One message ------------------------------------------------------------------------

  function Kept(data: Payload, key: string, before: Value): Value {
    if key in data then data[key] else before
  }

  function KeptEither(data: Payload, a: string, b: string, before: Value): Value {
    if a in data || b in data then Either(data, a, b) else before
  }

  /** `_apply_message_data`: only the fields the payload carries are overwritten. */
  function Applied(usageOf: UsageOf, row: Row, data: Payload, now: int): Row {
    row.(role := Kept(data, "role", row.role),
         parentId := KeptEither(data, "parent_id", "parentId", row.parentId),
         content := Kept(data, "content", row.content),
         output := Kept(data, "output", row.output),
         modelId := KeptEither(data, "model_id", "model", row.modelId),
         files := Kept(data, "files", row.files),
         sources := Kept(data, "sources", row.sources),
         embeds := Kept(data, "embeds", row.embeds),
         meta := Kept(data, "meta", row.meta),
         done := Kept(data, "done", row.done),
         statusHistory := KeptEither(data, "status_history", "statusHistory", row.statusHistory),
         error := Kept(data, "error", row.error),
         usage := if Truthy(usageOf(data)) then usageOf(data) else row.usage,
         contextSummary := KeptEither(data, "context_summary", "contextSummary", row.contextSummary),
         updatedAt := now)
  }

  /** `_build_message`; `nowValue` is the time, for a payload that brings none. */
  function Built(usageOf: UsageOf, id: string, chatId: string, userId: string, data: Payload, now: int,
                 nowValue: Value): Row {
    Row(id, chatId, userId,
        Field(data, "role", Str("user")), Either(data, "parent_id", "parentId"), Field(data, "content", Null),
        Field(data, "output", Null), Either(data, "model_id", "model"), Field(data, "files", Null),
        Field(data, "sources", Null), Field(data, "embeds", Null), Field(data, "meta", Null), Field(data, "done", TRUE),
        Either(data, "status_history", "statusHistory"), Field(data, "error", Null), usageOf(data),
        Either(data, "context_summary", "contextSummary"), Field(data, "timestamp", nowValue), now)
  }

  /** The chat, the user and the moment of an upsert. */
  datatype Call = Call(chatId: string, userId: string, now: int, nowValue: Value)

  function CompositeId(chatId: string, messageId: string): string {
    chatId + "-" + messageId
  }

  function UpsertedRow(usageOf: UsageOf, call: Call, id: string, before: Option<Row>, data: Payload): Row {
    if before.Some? then Applied(usageOf, before.value, data, call.now)
    else Built(usageOf, id, call.chatId, call.userId, data, call.now, call.nowValue)
  }

  function RowAt(rows: Table, id: string): Option<Row> {
    if id in rows then Some(rows[id]) else None
  }

  // --- What a payload brings ----------------------------------------------------------------

  /** A column that a payload can fill by key; the usage is worked out, and the ids and times are the call's. */
  datatype Column = Role | ParentId | Content | Output | ModelId | Files | Sources | Embeds | Meta | Done
                  | StatusHistory | Error | ContextSummary

  function At(row: Row, c: Column): Value {
    match c
    case Role => row.role
    case ParentId => row.parentId
    case Content => row.content
    case Output => row.output
    case ModelId => row.modelId
    case Files => row.files
    case Sources => row.sources
    case Embeds => row.embeds
    case Meta => row.meta
    case Done => row.done
    case StatusHistory => row.statusHistory
    case Error => row.error
    case ContextSummary => row.contextSummary
  }

  /** The one or two keys a payload can have a column under. */
  function KeyOf(c: Column): string {
    match c
    case Role => "role"
    case ParentId => "parent_id"
    case Content => "content"
    case Output => "output"
    case ModelId => "model_id"
    case Files => "files"
    case Sources => "sources"
    case Embeds => "embeds"
    case Meta => "meta"
    case Done => "done"
    case StatusHistory => "status_history"
    case Error => "error"
    case ContextSummary => "context_summary"
  }

  function AliasOf(c: Column): Option<string> {
    match c
    case ParentId => Some("parentId")
    case ModelId => Some("model")
    case StatusHistory => Some("statusHistory")
    case ContextSummary => Some("contextSummary")
    case _ => None
  }

  predicate Carries(data: Payload, c: Column) {
    KeyOf(c) in data || (AliasOf(c).Some? && AliasOf(c).value in data)
  }

  /** None, the empty string, and what else Python takes for false. */
  predicate Falsy(v: Value) {
    v == Null || v == Str("") || (v.Other? && !v.truthy)
  }

  /** Of two keys, the second counts when the first is missing or falsy, and brings None when it is missing too. */
  predicate Brings(data: Payload, c: Column, v: Value) {
    if AliasOf(c).None? || (KeyOf(c) in data && !Falsy(data[KeyOf(c)])) then KeyOf(c) in data && data[KeyOf(c)] == v
    else if AliasOf(c).value in data then data[AliasOf(c).value] == v
    else v == Null
  }

  /** What a new row holds where its payload brings nothing. */
  function Default(c: Column): Value {
    match c
    case Role => Str("user")
    case Done => Other("true", true)
    case _ => Null
  }

  /** Column by column, a row holds what its payload brings, and where it brings nothing what was there before; the ids
      stay those it was made with. */
  ghost predicate Holds(usageOf: UsageOf, call: Call, id: string, before: Option<Row>, data: Payload, row: Row) {
    && (forall c :: if Carries(data, c) then Brings(data, c, At(row, c))
                    else At(row, c) == if before.Some? then At(before.value, c) else Default(c))
    && row.updatedAt == call.now
    && row.usage == (if !Falsy(usageOf(data)) || before.None? then usageOf(data) else before.value.usage)
    && (before.Some? ==> row.id == before.value.id && row.chatId == before.value.chatId
                         && row.userId == before.value.userId && row.createdAt == before.value.createdAt)
    && (before.None? ==> row.id == id && row.chatId == call.chatId && row.userId == call.userId
                         && row.createdAt == if "timestamp" in data then data["timestamp"] else call.nowValue)
  }

  /** The row an upsert leaves is the one its payload asks for, and there is no other such row. */
  lemma UpsertedIff(usageOf: UsageOf, call: Call, id: string, before: Option<Row>, data: Payload, row: Row)
    ensures row == UpsertedRow(usageOf, call, id, before, data) <==> Holds(usageOf, call, id, before, data, row)
  {
    var made := UpsertedRow(usageOf, call, id, before, data);
    forall c ensures if Carries(data, c) then Brings(data, c, At(made, c))
                     else At(made, c) == if before.Some? then At(before.value, c) else Default(c) {
      ColumnHolds(usageOf, call, id, before, data, c);
    }
    if Holds(usageOf, call, id, before, data, row) {
      forall c ensures At(row, c) == At(made, c) {
        assert if Carries(data, c) then Brings(data, c, At(row, c))
               else At(row, c) == if before.Some? then At(before.value, c) else Default(c);
      }
      SameColumns(row, made);
    }
  }

  lemma ColumnHolds(usageOf: UsageOf, call: Call, id: string, before: Option<Row>, data: Payload, c: Column)
    ensures var row := UpsertedRow(usageOf, call, id, before, data);
            if Carries(data, c) then Brings(data, c, At(row, c))
            else At(row, c) == if before.Some? then At(before.value, c) else Default(c)
  {
  }

  lemma SameColumns(a: Row, b: Row)
    requires forall c :: At(a, c) == At(b, c)
    requires a.id == b.id && a.chatId == b.chatId && a.userId == b.userId && a.usage == b.usage
    requires a.createdAt == b.createdAt && a.updatedAt == b.updatedAt
    ensures a == b
  {
    assert At(a, Role) == At(b, Role) && At(a, ParentId) == At(b, ParentId) && At(a, Content) == At(b, Content);
    assert At(a, Output) == At(b, Output) && At(a, ModelId) == At(b, ModelId) && At(a, Files) == At(b, Files);
    assert At(a, Sources) == At(b, Sources) && At(a, Embeds) == At(b, Embeds) && At(a, Meta) == At(b, Meta);
    assert At(a, Done) == At(b, Done) && At(a, StatusHistory) == At(b, StatusHistory);
    assert At(a, Error) == At(b, Error) && At(a, ContextSummary) == At(b, ContextSummary);
  }

  /** What an upsert makes of an id, the row there before, if any, and a payload. */
  type RowMaker = (string, Option<Row>, Payload) -> Row

  function Maker(usageOf: UsageOf, call: Call): RowMaker {
    (id, before, data) => UpsertedRow(usageOf, call, id, before, data)
  }

  /** `upsert_message`. */
  function Upserted(make: RowMaker, chatId: string, rows: Table, messageId: string, data: Payload): Table {
    var id := CompositeId(chatId, messageId);
    rows[id := make(id, RowAt(rows, id), data)]
  }

  /** Upserting the same payload again changes nothing but `updated_at`. */
  lemma UpsertTwice(usageOf: UsageOf, call: Call, again: Call, rows: Table, messageId: string, data: Payload)
    ensures var id := CompositeId(call.chatId, messageId);
            var once := Upserted(Maker(usageOf, call), call.chatId, rows, messageId, data);
            Upserted(Maker(usageOf, again), call.chatId, once, messageId, data)
                == once[id := once[id].(updatedAt := again.now)]
  {
    var id := CompositeId(call.chatId, messageId);
    AppliedTwice(usageOf, RowAt(rows, id), call, again, id, data);
  }

  lemma AppliedTwice(usageOf: UsageOf, before: Option<Row>, call: Call, again: Call, id: string, data: Payload)
    ensures var row := UpsertedRow(usageOf, call, id, before, data);
            Applied(usageOf, row, data, again.now) == row.(updatedAt := again.now)
  {
    var row := UpsertedRow(usageOf, call, id, before, data);
    var next := Applied(usageOf, row, data, again.now);
    assert next.role == row.role && next.parentId == row.parentId && next.content == row.content;
    assert next.modelId == row.modelId && next.usage == row.usage && next.done == row.done;
    assert next.statusHistory == row.statusHistory && next.contextSummary == row.contextSummary;
  }

  // --- Several messages -----------------------------------------------------------------------

  datatype Message = Message(id: string, data: Payload)

  /** The messages of a Python dict: no id twice. */
  ghost predicate DistinctIds(messages: seq<Message>) {
    forall i, j :: 0 <= i < j < |messages| ==> messages[i].id != messages[j].id
  }

  /** `upsert_message` for each in turn. */
  function UpsertedInTurn(make: RowMaker, chatId: string, rows: Table, messages: seq<Message>): Table
    decreases |messages|
  {
    if messages == [] then rows
    else
      var n := |messages| - 1;
      Upserted(make, chatId, UpsertedInTurn(make, chatId, rows, messages[..n]), messages[n].id, messages[n].data)
  }

  lemma SameComposite(chatId: string, a: string, b: string)
    ensures CompositeId(chatId, a) == CompositeId(chatId, b) <==> a == b
  {
    if CompositeId(chatId, a) == CompositeId(chatId, b) {
      assert CompositeId(chatId, a)[|chatId| + 1..] == a && CompositeId(chatId, b)[|chatId| + 1..] == b;
    }
  }

  predicate Addressed(chatId: string, messages: seq<Message>, id: string) {
    exists m :: m in messages && CompositeId(chatId, m.id) == id
  }

  lemma {:induction false} OthersUntouched(make: RowMaker, chatId: string, rows: Table, messages: seq<Message>,
                                           id: string)
    requires !Addressed(chatId, messages, id)
    ensures RowAt(UpsertedInTurn(make, chatId, rows, messages), id) == RowAt(rows, id)
    decreases |messages|
  {
    if messages != [] {
      var fewer, last := messages[..|messages| - 1], messages[|messages| - 1];
      assert last in messages;
      forall m | m in fewer ensures CompositeId(chatId, m.id) != id { assert m in messages; }
      OthersUntouched(make, chatId, rows, fewer, id);
    }
  }

  /** No other message is for the `k`-th one's row. */
  lemma OneMessageEach(chatId: string, messages: seq<Message>, k: nat, n: nat)
    requires DistinctIds(messages) && k < |messages| && n <= k
    ensures !Addressed(chatId, messages[..n], CompositeId(chatId, messages[k].id))
  {
    forall m | m in messages[..n] ensures CompositeId(chatId, m.id) != CompositeId(chatId, messages[k].id) {
      var i :| 0 <= i < n && messages[i] == m;
      SameComposite(chatId, m.id, messages[k].id);
    }
  }

  /** Each message's row is what that message alone makes of what was there at the start. */
  lemma {:induction false} OwnRow(make: RowMaker, chatId: string, rows: Table, messages: seq<Message>, k: nat)
    requires DistinctIds(messages) && k < |messages|
    ensures var id := CompositeId(chatId, messages[k].id);
            RowAt(UpsertedInTurn(make, chatId, rows, messages), id) == Some(make(id, RowAt(rows, id), messages[k].data))
    decreases |messages|
  {
    var n := |messages| - 1;
    var fewer := messages[..n];
    if k == n {
      OneMessageEach(chatId, messages, k, n);
      OthersUntouched(make, chatId, rows, fewer, CompositeId(chatId, messages[k].id));
    } else {
      OwnRow(make, chatId, rows, fewer, k);
      SameComposite(chatId, messages[k].id, messages[n].id);
    }
  }

  /** Upserting the same messages one by one gives the same table in any order. */
  lemma OrderDoesNotMatter(make: RowMaker, chatId: string, rows: Table, a: seq<Message>, b: seq<Message>)
    requires DistinctIds(a) && DistinctIds(b) && forall m :: m in a <==> m in b
    ensures UpsertedInTurn(make, chatId, rows, a) == UpsertedInTurn(make, chatId, rows, b)
  {
    var x, y := UpsertedInTurn(make, chatId, rows, a), UpsertedInTurn(make, chatId, rows, b);
    forall id ensures RowAt(x, id) == RowAt(y, id) {
      if m :| m in a && CompositeId(chatId, m.id) == id {
        assert m in b;
        var i :| 0 <= i < |a| && a[i] == m;
        var j :| 0 <= j < |b| && b[j] == m;
        OwnRow(make, chatId, rows, a, i);
        OwnRow(make, chatId, rows, b, j);
      } else {
        assert !Addressed(chatId, a, id) && !Addressed(chatId, b, id);
        OthersUntouched(make, chatId, rows, a, id);
        OthersUntouched(make, chatId, rows, b, id);
      }
    }
    assert forall id :: id in x <==> RowAt(x, id).Some?;
    assert forall id :: id in y <==> RowAt(y, id).Some?;
    assert forall id <- x :: RowAt(x, id) == Some(x[id]) && RowAt(y, id) == Some(y[id]);
  }

  /** What the upserts of a chat's messages leave: for each message a row that holds what it brings, and every other
      row as it was. */
  ghost predicate AllHold(usageOf: UsageOf, call: Call, before: Table, messages: seq<Message>, rows: Table) {
    && (forall m <- messages ::
          var id := CompositeId(call.chatId, m.id);
          id in rows && Holds(usageOf, call, id, RowAt(before, id), m.data, rows[id]))
    && (forall id :: !Addressed(call.chatId, messages, id) ==> RowAt(rows, id) == RowAt(before, id))
  }

  lemma UpsertsHold(usageOf: UsageOf, call: Call, rows: Table, messages: seq<Message>)
    requires DistinctIds(messages)
    ensures AllHold(usageOf, call, rows, messages, UpsertedInTurn(Maker(usageOf, call), call.chatId, rows, messages))
  {
    var make := Maker(usageOf, call);
    var after := UpsertedInTurn(make, call.chatId, rows, messages);
    forall m | m in messages
      ensures var id := CompositeId(call.chatId, m.id);
              id in after && Holds(usageOf, call, id, RowAt(rows, id), m.data, after[id])
    {
      var k :| 0 <= k < |messages| && messages[k] == m;
      var id := CompositeId(call.chatId, m.id);
      OwnRow(make, call.chatId, rows, messages, k);
      UpsertedIff(usageOf, call, id, RowAt(rows, id), m.data, after[id]);
    }
    forall id | !Addressed(call.chatId, messages, id) ensures RowAt(after, id) == RowAt(rows, id) {
      OthersUntouched(make, call.chatId, rows, messages, id);
    }
  }

  class ChatMessageTable {
    var rows: Table
    const usageOf: UsageOf

    /** `upsert_messages`: the rows there are looked up once, before any is written. */
    method UpsertMessages(call: Call, messages: seq<Message>)
      requires DistinctIds(messages)
      modifies this
      ensures rows == UpsertedInTurn(Maker(usageOf, call), call.chatId, old(rows), messages)
      ensures AllHold(usageOf, call, old(rows), messages, rows)
    {
      UpsertsHold(usageOf, call, rows, messages);
      if messages == [] {
        return;
      }
      var existing := map id | id in rows && Addressed(call.chatId, messages, id) :: rows[id];
      assert messages[..0] == [];
      for i := 0 to |messages|
        invariant rows == UpsertedInTurn(Maker(usageOf, call), call.chatId, old(rows), messages[..i])
      {
        var id, data := CompositeId(call.chatId, messages[i].id), messages[i].data;
        assert messages[i] in messages && messages[..i + 1][..i] == messages[..i];
        OneMessageEach(call.chatId, messages, i, i);
        OthersUntouched(Maker(usageOf, call), call.chatId, old(rows), messages[..i], id);
        Write(call, id, if id in existing then Some(existing[id]) else None, data);
      }
      assert messages[..|messages|] == messages;
    }

    /** `upsert_message`. */
    method UpsertMessage(call: Call, messageId: string, data: Payload)
      modifies this
      ensures rows == Upserted(Maker(usageOf, call), call.chatId, old(rows), messageId, data)
      ensures var id := CompositeId(call.chatId, messageId);
              id in rows && Holds(usageOf, call, id, RowAt(old(rows), id), data, rows[id])
    {
      var id := CompositeId(call.chatId, messageId);
      UpsertedIff(usageOf, call, id, RowAt(rows, id), data, UpsertedRow(usageOf, call, id, RowAt(rows, id), data));
      Write(call, id, if id in rows then Some(rows[id]) else None, data);
    }

    /** The two ways on: `_apply_message_data` on the row found, `_build_message` without one. */
    method Write(call: Call, id: string, found: Option<Row>, data: Payload)
      modifies this
      ensures rows == old(rows)[id := Maker(usageOf, call)(id, found, data)]
    {
      if found.Some? {
        rows := rows[id := Applied(usageOf, found.value, data, call.now)];
      } else {
        rows := rows[id := Built(usageOf, id, call.chatId, call.userId, data, call.now, call.nowValue)];
      }
    }
  }

  // --- The message map ----------------------------------------------------------------------------

  /** `row.id[prefix_len:] if row.id.startswith(prefix) else row.id`. */
  function StrippedId(chatId: string, rowId: string): string {
    var prefix := chatId + "-";
    if prefix <= rowId then rowId[|prefix|..] else rowId
  }

  lemma StripUndoesComposite(chatId: string, messageId: string)
    ensures StrippedId(chatId, CompositeId(chatId, messageId)) == messageId
  {
    assert CompositeId(chatId, messageId)[|chatId + "-"|..] == messageId;
  }

  /** A message of the map: its row, and its children once they are known. */
  datatype Msg = Msg(row: Row, childrenIds: Option<seq<string>>)

  /** The parent id a message's row names, when it is a truthy one. */
  function ParentOf(row: Row): Option<string> {
    if row.parentId.Str? && row.parentId.s != "" then Some(row.parentId.s) else None
  }

  ghost predicate NoRepeats(ids: seq<string>) {
    forall i, j :: 0 <= i < j < |ids| ==> ids[i] != ids[j]
  }

  function Children(m: Msg): seq<string> {
    if m.childrenIds.Some? then m.childrenIds.value else []
  }

  /** The rows under the ids they are mapped at: of two rows with one id, the later. */
  function RowsById(chatId: string, rows: seq<Row>): map<string, Row>
    decreases |rows|
  {
    if rows == [] then map[]
    else RowsById(chatId, rows[..|rows| - 1])[StrippedId(chatId, rows[|rows| - 1].id) := rows[|rows| - 1]]
  }

  /** A chat's rows have ids made from the chat's and the message's; one row keeps the message's own. */
  predicate IsRowOf(chatId: string, row: Row, messageId: string) {
    row.id == CompositeId(chatId, messageId)
    || (row.id == messageId && !(chatId + "-" <= messageId))
  }

  ghost predicate LastRowOf(chatId: string, rows: seq<Row>, id: string, k: nat) {
    && k < |rows| && IsRowOf(chatId, rows[k], id)
    && forall i :: k < i < |rows| ==> !IsRowOf(chatId, rows[i], id)
  }

  /** A message id that rows are for is mapped to the last of them. */
  lemma {:induction false} LastRowIsMapped(chatId: string, rows: seq<Row>, id: string, k: nat)
    requires LastRowOf(chatId, rows, id, k)
    ensures id in RowsById(chatId, rows) && RowsById(chatId, rows)[id] == rows[k]
    decreases |rows|
  {
    var n := |rows| - 1;
    StrippedIff(chatId, rows[n], id);
    if k < n {
      LastRowIsMapped(chatId, rows[..n], id, k);
    }
  }

  /** And one that no row is for is not there. */
  lemma {:induction false} OnlyRowsAreMapped(chatId: string, rows: seq<Row>, id: string)
    requires id in RowsById(chatId, rows)
    ensures exists row <- rows :: IsRowOf(chatId, row, id)
    decreases |rows|
  {
    var n := |rows| - 1;
    StrippedIff(chatId, rows[n], id);
    if IsRowOf(chatId, rows[n], id) {
      assert rows[n] in rows;
    } else {
      OnlyRowsAreMapped(chatId, rows[..n], id);
      var row :| row in rows[..n] && IsRowOf(chatId, row, id);
      assert row in rows;
    }
  }

  lemma StrippedIff(chatId: string, row: Row, id: string)
    ensures StrippedId(chatId, row.id) == id <==> IsRowOf(chatId, row, id)
  {
    var prefix := chatId + "-";
    if prefix <= row.id {
      assert row.id == prefix + row.id[|prefix|..];
    }
    StripUndoesComposite(chatId, id);
  }

  /** The first loop: one message per id, and the ids in the order a dict keeps. */
  method FillMap(chatId: string, rows: seq<Row>) returns (messages: map<string, Msg>, order: seq<string>)
    ensures NoRepeats(order) && forall id :: id in order <==> id in messages
    ensures messages == map id | id in RowsById(chatId, rows) :: Msg(RowsById(chatId, rows)[id], None)
  {
    messages, order := map[], [];
    for i := 0 to |rows|
      invariant NoRepeats(order) && forall id :: id in order <==> id in messages
      invariant messages == map id | id in RowsById(chatId, rows[..i]) :: Msg(RowsById(chatId, rows[..i])[id], None)
    {
      assert rows[..i + 1][..i] == rows[..i];
      var id := StrippedId(chatId, rows[i].id);
      if id !in messages {
        order := order + [id];
      }
      messages := messages[id := Msg(rows[i], None)];
    }
    assert rows[..|rows|] == rows;
  }

  /** `get_messages_map_by_chat_id`: c is among p's children, once, exactly when c's parent is p and p is there. */
  method MessagesMap(chatId: string, rows: seq<Row>) returns (result: Option<map<string, Msg>>)
    ensures result.None? <==> rows == []
    ensures result.Some? ==>
      var messages := result.value;
      && messages.Keys == RowsById(chatId, rows).Keys
      && forall p <- messages ::
           && messages[p].row == RowsById(chatId, rows)[p]
           && messages[p].childrenIds.Some? && NoRepeats(messages[p].childrenIds.value)
           && forall c :: c in messages[p].childrenIds.value
                          <==> c in messages && messages[c].row.parentId == Str(p) && p != ""
  {
    if rows == [] {
      return None;
    }
    var filled, order := FillMap(chatId, rows);
    var messages := LinkAll(filled, order);
    forall p | p in messages ensures ChildrenAre(filled, order, p, Children(messages[p])) {}
    var complete := map id | id in messages :: messages[id].(childrenIds := Some(Children(messages[id])));
    return Some(complete);
  }

  /** The second loop: every message joins its parent's list, if the parent is there. */
  method LinkAll(filled: map<string, Msg>, order: seq<string>) returns (messages: map<string, Msg>)
    requires NoRepeats(order) && forall id :: id in order <==> id in filled
    requires forall id <- filled :: filled[id].childrenIds.None?
    ensures messages.Keys == filled.Keys && forall id <- messages :: messages[id].row == filled[id].row
    ensures forall p <- messages :: ChildrenAre(filled, order, p, Children(messages[p]))
  {
    messages := filled;
    for i := 0 to |order|
      invariant messages.Keys == filled.Keys && forall id <- messages :: messages[id].row == filled[id].row
      invariant forall p <- messages :: ChildrenAre(filled, order[..i], p, Children(messages[p]))
    {
      ghost var before := messages;
      messages := LinkToParent(messages, order[i]);
      assert order[i] in order;
      LinkedFits(filled, before, messages, order, i);
    }
    assert order[..|order|] == order;
  }

  lemma LinkedFits(filled: map<string, Msg>, before: map<string, Msg>, messages: map<string, Msg>, order: seq<string>,
                   i: nat)
    requires i < |order| && NoRepeats(order) && order[i] in filled
    requires messages.Keys == before.Keys == filled.Keys
    requires before[order[i]].row == filled[order[i]].row
    requires forall p <- before :: ChildrenAre(filled, order[..i], p, Children(before[p]))
    requires forall p <- messages ::
               Children(messages[p]) == Linked(Children(before[p]), ParentOf(before[order[i]].row), p, order[i])
    ensures forall p <- messages :: ChildrenAre(filled, order[..i + 1], p, Children(messages[p]))
  {
    assert order[..i + 1] == order[..i] + [order[i]] && order[i] !in order[..i];
    forall p | p in messages ensures ChildrenAre(filled, order[..i + 1], p, Children(messages[p])) {
      OneMoreChild(filled, order[..i], order[i], p, Children(before[p]));
    }
  }

  /** `ids` are the messages among `seen` whose parent is `p`, each once. */
  ghost predicate ChildrenAre(filled: map<string, Msg>, seen: seq<string>, p: string, ids: seq<string>) {
    && NoRepeats(ids)
    && forall c :: c in ids <==> c in seen && c in filled && ParentOf(filled[c].row) == Some(p)
  }

  /** `p`'s children once `id`, whose parent is `parent`, has been looked at. */
  function Linked(ids: seq<string>, parent: Option<string>, p: string, id: string): seq<string> {
    if parent == Some(p) && id !in ids then ids + [id] else ids
  }

  /** One turn of the second loop. */
  method LinkToParent(before: map<string, Msg>, id: string) returns (messages: map<string, Msg>)
    requires id in before
    ensures messages.Keys == before.Keys
    ensures forall p <- messages :: messages[p].row == before[p].row
    ensures forall p <- messages ::
              Children(messages[p]) == Linked(Children(before[p]), ParentOf(before[id].row), p, id)
  {
    messages := before;
    var parentId := ParentOf(before[id].row);
    if parentId.Some? && parentId.value in before {
      var p := parentId.value;
      var children := before[p].childrenIds;
      if children.None? {
        messages := before[p := before[p].(childrenIds := Some([id]))];
      } else if id !in children.value {
        messages := before[p := before[p].(childrenIds := Some(children.value + [id]))];
      }
    }
  }

  lemma OneMoreChild(filled: map<string, Msg>, seen: seq<string>, id: string, p: string, ids: seq<string>)
    requires ChildrenAre(filled, seen, p, ids) && id in filled && id !in seen
    ensures ChildrenAre(filled, seen + [id], p, Linked(ids, ParentOf(filled[id].row), p, id))
  {
  }
}
