/** The operations the three services share, written once for any table:
    each service supplies its table name, the columns every fetch asks
    for, and the update lines grouped by column. */
module Records {
  import opened JsValue
  import opened Remote
  import opened Failures
  import opened Replies
  import opened FieldMapping

  /** What distinguishes one service's table from another's. */
  datatype Table = Table(name: string, fields: seq<string>, columns: seq<Column>)

  /** getAll: one fetch of every row, no filter, then `data || []`. */
  function GetAll(t: Table, reply: Reply): (x: Exchange)
    ensures x.requests == [FetchRecords(t.name, t.fields, None)]
    ensures Accepted(reply) ==> x.outcome.Returned? && Truthy(x.outcome.value)
    ensures x.outcome == ListOutcome(reply)
  {
    Exchange([FetchRecords(t.name, t.fields, None)], ListOutcome(reply))
  }

  /** getById of assignments and courses: one lookup by the integer id;
      the data comes back unchecked. */
  function GetById(t: Table, id: int, reply: Reply): (x: Exchange)
    ensures x.requests == [GetRecordById(t.name, id, t.fields)]
    ensures Accepted(reply) ==> x.outcome == Returned(reply.response.data)
    ensures x.outcome == RecordOutcome(reply)
  {
    Exchange([GetRecordById(t.name, id, t.fields)], RecordOutcome(reply))
  }

  /** create: submit the one-record batch and interpret the results. */
  function Create(t: Table, record: Payload, js: Builtins, reply: Reply): (x: Exchange)
    ensures x.requests == [CreateRecord(t.name, [record])]
    ensures x.outcome == WriteOutcome(reply, js)
  {
    Exchange([CreateRecord(t.name, [record])], WriteOutcome(reply, js))
  }

  /** update: build `updateData` from `{Id: id}` line by line, submit it as
      a one-record batch, and interpret the results. */
  method Update(t: Table, id: Value, u: Payload, js: Builtins, reply: Reply) returns (x: Exchange)
    ensures x.requests == [UpdateRecord(t.name, [UpdateData(id, t.columns, u, js)])]
    ensures x.outcome == WriteOutcome(reply, js)
  {
    var updateData := BuildUpdate(id, t.columns, u, js);
    x := Exchange([UpdateRecord(t.name, [updateData])], WriteOutcome(reply, js));
  }

  /** delete: one id in `RecordIds`, then delete's rule on the results. */
  function Delete(t: Table, id: Value, reply: Reply): (x: Exchange)
    ensures x.requests == [DeleteRecord(t.name, [id])]
    ensures x.outcome.Returned? ==> x.outcome.value.Undefined? || x.outcome.value.Bool?
    ensures x.outcome == DeleteOutcome(reply)
  {
    Exchange([DeleteRecord(t.name, [id])], DeleteOutcome(reply))
  }
}
