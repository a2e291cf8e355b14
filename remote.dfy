/** What the services send to the hosted record client and what it gives
    back. The client itself is not modelled: every operation receives the
    client's reply as a parameter. */
module Remote {
  import opened JsValue

  /** One `where` condition of a fetch: `{FieldName, Operator, Values}`. */
  datatype Filter = Filter(fieldName: string, operator: string, values: seq<Value>)

  /** The client call an operation makes, with its arguments. */
  datatype Request =
    | FetchRecords(table: string, fields: seq<string>, where: Option<seq<Filter>>)
    | GetRecordById(table: string, id: int, fields: seq<string>)
    | CreateRecord(table: string, records: seq<Payload>)
    | UpdateRecord(table: string, records: seq<Payload>)
    | DeleteRecord(table: string, recordIds: seq<Value>)

  /** One entry of `response.results`: `{success, data, message, errors}`.
      `errors` is None when it is undefined or null, so `errors?.forEach`
      does nothing. */
  datatype RecordResult = RecordResult(success: Value, data: Value, message: Value, errors: Option<seq<Value>>)

  /** A resolved client response. `results` is None when the response has
      no truthy `results` field. */
  datatype Response = Response(success: Value, message: Value, data: Value, results: Option<seq<RecordResult>>)

  /** How the awaited client call settles: with a response, or by
      rejecting with an arbitrary thrown value. */
  datatype Reply = Resolved(response: Response) | Rejected(reason: Value)
}
