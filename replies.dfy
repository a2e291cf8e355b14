/** How the services turn a client reply into a returned value or a thrown
    error. The same code is repeated in every service: a top-level
    `success` check, then for writes the `results` array is split into
    failed and successful entries, the first failed entry that has
    something to say is thrown, and otherwise the first successful entry's
    data (create, update) or "did anything succeed" (delete) is returned. */
module Replies {
  import opened JsValue
  import opened Remote
  import opened Failures

  /** One service operation as seen from outside: the client calls it made,
      in order, and how its promise settled. */
  datatype Exchange = Exchange(requests: seq<Request>, outcome: Outcome)

  /** `results.filter(result => result.success)` when `ok`, and
      `results.filter(result => !result.success)` otherwise. */
  function WithSuccess(rs: seq<RecordResult>, ok: bool): (f: seq<RecordResult>)
    ensures |f| <= |rs|
    ensures forall k :: 0 <= k < |f| ==> Truthy(f[k].success) == ok
    ensures forall k :: 0 <= k < |f| ==> f[k] in rs
    ensures forall k :: 0 <= k < |rs| && Truthy(rs[k].success) == ok ==> rs[k] in f
  {
    if rs == [] then []
    else
      var rest := WithSuccess(rs[1..], ok);
      assert forall k :: 1 <= k < |rs| ==> rs[k] == rs[1..][k - 1];
      (if Truthy(rs[0].success) == ok then [rs[0]] else []) + rest
  }

  /** Every result lands in exactly one of the two filtered lists. */
  lemma {:induction false} PartitionSizes(rs: seq<RecordResult>)
    ensures |WithSuccess(rs, true)| + |WithSuccess(rs, false)| == |rs|
  {
    if rs != [] {
      PartitionSizes(rs[1..]);
    }
  }

  /** i is the position of the first result whose `success` is truthy. */
  ghost predicate FirstSuccessAt(rs: seq<RecordResult>, i: int) {
    && 0 <= i < |rs|
    && Truthy(rs[i].success)
    && forall j :: 0 <= j < i ==> !Truthy(rs[j].success)
  }

  /** `successful[0]` is the first successful result in response order, and
      the successful list is empty exactly when no result succeeded. */
  lemma {:induction false} FirstOfSucceeded(rs: seq<RecordResult>)
    ensures WithSuccess(rs, true) == [] <==> forall i :: 0 <= i < |rs| ==> !Truthy(rs[i].success)
    ensures forall i :: FirstSuccessAt(rs, i) ==> WithSuccess(rs, true) != [] && WithSuccess(rs, true)[0] == rs[i]
  {
    if rs != [] {
      FirstOfSucceeded(rs[1..]);
      forall i | FirstSuccessAt(rs, i)
        ensures WithSuccess(rs, true) != [] && WithSuccess(rs, true)[0] == rs[i]
      {
        if i > 0 {
          assert FirstSuccessAt(rs[1..], i - 1);
        }
      }
      if forall i :: 0 <= i < |rs[1..]| ==> !Truthy(rs[1..][i].success) {
        assert forall i :: 1 <= i < |rs| ==> rs[i] == rs[1..][i - 1];
      }
    }
  }

  /** Which failures the `forEach` over failed results looks at: create and
      update throw a field error before the message; delete only the message. */
  datatype Policy = FieldErrorsFirst(js: Builtins) | MessageOnly

  /** `throw new Error(`${error.fieldLabel}: ${error}`)` for one field error;
      reading `fieldLabel` of a null or undefined entry is a TypeError. */
  function FieldError(e: Value, js: Builtins): (f: Failure)
    ensures f.Raised? <==> !Nullish(e)
    ensures f.TypeErr? <==> Nullish(e)
    ensures f.TypeErr? ==> f.property == "fieldLabel"
    ensures f.Raised? ==> f.message.Str?
    ensures f.Raised? ==> |f.message.s| == |js.template(Member(e, "fieldLabel"))| + 2 + |js.template(e)|
    ensures f.Raised? ==> f.message.s[..|js.template(Member(e, "fieldLabel"))|] == js.template(Member(e, "fieldLabel"))
    ensures f.Raised? ==> f.message.s[|js.template(Member(e, "fieldLabel"))|..|js.template(Member(e, "fieldLabel"))| + 2] == ": "
    ensures f.Raised? ==> f.message.s[|js.template(Member(e, "fieldLabel"))| + 2..] == js.template(e)
  {
    if Nullish(e) then TypeErr("fieldLabel")
    else Raised(Str(js.template(Member(e, "fieldLabel")) + ": " + js.template(e)))
  }

  /** What the `forEach` callback throws for one failed result, if anything. */
  function Complaint(r: RecordResult, p: Policy): (c: Option<Failure>)
    ensures p.FieldErrorsFirst? && r.errors.Some? && |r.errors.value| > 0 ==> c == Some(FieldError(r.errors.value[0], p.js))
    ensures (p.MessageOnly? || r.errors.None? || r.errors.value == []) && Truthy(r.message) ==> c == Some(Raised(r.message))
    ensures (p.MessageOnly? || r.errors.None? || r.errors.value == []) && !Truthy(r.message) ==> c == None
  {
    if p.FieldErrorsFirst? && r.errors.Some? && |r.errors.value| > 0 then Some(FieldError(r.errors.value[0], p.js))
    else if Truthy(r.message) then Some(Raised(r.message))
    else None
  }

  /** A result that failed and makes the `forEach` throw. */
  predicate Loud(r: RecordResult, p: Policy) {
    !Truthy(r.success) && Complaint(r, p).Some?
  }

  /** i is the first loud failure in response order. */
  ghost predicate FirstLoudAt(rs: seq<RecordResult>, i: int, p: Policy) {
    && 0 <= i < |rs|
    && Loud(rs[i], p)
    && forall j :: 0 <= j < i ==> !Loud(rs[j], p)
  }

  /** `failed.forEach(record => { ... throw ... })`: a throw inside the
      callback ends the loop, so the first record with a complaint decides. */
  function FirstComplaint(failed: seq<RecordResult>, p: Policy): (c: Option<Failure>)
    ensures c.None? <==> forall k :: 0 <= k < |failed| ==> Complaint(failed[k], p).None?
    ensures forall k :: (0 <= k < |failed| && Complaint(failed[k], p).Some?
                         && forall j :: 0 <= j < k ==> Complaint(failed[j], p).None?) ==> c == Complaint(failed[k], p)
    ensures c.Some? ==> !c.value.External?
    ensures c.Some? && p.MessageOnly? ==> c.value.Raised?
  {
    if failed == [] then None
    else if Complaint(failed[0], p).Some? then Complaint(failed[0], p)
    else
      var c := FirstComplaint(failed[1..], p);
      assert forall k :: 1 <= k < |failed| ==> failed[k] == failed[1..][k - 1];
      c
  }

  /** With no loud failure, scanning the filtered failures finds nothing. */
  lemma {:induction false} QuietFailures(rs: seq<RecordResult>, p: Policy)
    requires forall i :: 0 <= i < |rs| ==> !Loud(rs[i], p)
    ensures FirstComplaint(WithSuccess(rs, false), p) == None
  {
    if rs != [] {
      var rest := rs[1..];
      assert forall i :: 0 <= i < |rest| ==> rest[i] == rs[i + 1];
      QuietFailures(rest, p);
      var failed := WithSuccess(rs, false);
      if !Truthy(rs[0].success) {
        assert failed[1..] == WithSuccess(rest, false);
      }
    }
  }

  /** Scanning the filtered failures finds the first loud failure of the
      unfiltered results. */
  lemma {:induction false} FirstLoudFailure(rs: seq<RecordResult>, p: Policy, i: int)
    requires FirstLoudAt(rs, i, p)
    ensures FirstComplaint(WithSuccess(rs, false), p) == Complaint(rs[i], p)
  {
    var rest := rs[1..];
    var failed := WithSuccess(rs, false);
    if i == 0 {
      assert failed == [rs[0]] + WithSuccess(rest, false);
    } else {
      assert FirstLoudAt(rest, i - 1, p);
      FirstLoudFailure(rest, p, i - 1);
      if !Truthy(rs[0].success) {
        assert failed == [rs[0]] + WithSuccess(rest, false);
        assert Complaint(rs[0], p).None?;
        assert failed[1..] == WithSuccess(rest, false);
      } else {
        assert failed == WithSuccess(rest, false);
      }
    }
  }

  /** Scanning the filtered failures finds the first loud failure of the
      unfiltered results, and nothing when no failure is loud. */
  lemma ComplaintOfFailed(rs: seq<RecordResult>, p: Policy)
    ensures (forall i :: 0 <= i < |rs| ==> !Loud(rs[i], p)) ==> FirstComplaint(WithSuccess(rs, false), p) == None
    ensures forall i :: FirstLoudAt(rs, i, p) ==> FirstComplaint(WithSuccess(rs, false), p) == Complaint(rs[i], p)
  {
    if forall i :: 0 <= i < |rs| ==> !Loud(rs[i], p) {
      QuietFailures(rs, p);
    }
    forall i | FirstLoudAt(rs, i, p)
      ensures FirstComplaint(WithSuccess(rs, false), p) == Complaint(rs[i], p)
    {
      FirstLoudFailure(rs, p, i);
    }
  }

  /** Create and update once `response.success` held and `results` is
      present: the first loud failure is thrown, otherwise the first
      successful result's data (`successful[0]?.data`) is returned. */
  function WriteResults(rs: seq<RecordResult>, js: Builtins): (o: Outcome)
    ensures o.Threw? ==> !o.failure.External?
  {
    var failed := WithSuccess(rs, false);
    match FirstComplaint(failed, FieldErrorsFirst(js))
    case Some(f) => Threw(f)
    case None =>
      var successful := WithSuccess(rs, true);
      Returned(if |successful| > 0 then successful[0].data else Undefined)
  }

  /** What create and update make of the results, in response order: the
      first loud failure is thrown; with none, the first successful
      result's data is returned, or undefined when nothing succeeded. */
  lemma WriteResultsMeaning(rs: seq<RecordResult>, js: Builtins)
    ensures forall i :: FirstLoudAt(rs, i, FieldErrorsFirst(js)) ==>
              WriteResults(rs, js) == Threw(Complaint(rs[i], FieldErrorsFirst(js)).value)
    ensures (forall i :: 0 <= i < |rs| ==> !Loud(rs[i], FieldErrorsFirst(js))) ==>
              && (forall i :: FirstSuccessAt(rs, i) ==> WriteResults(rs, js) == Returned(rs[i].data))
              && ((forall i :: 0 <= i < |rs| ==> !Truthy(rs[i].success)) ==> WriteResults(rs, js) == Returned(Undefined))
  {
    ComplaintOfFailed(rs, FieldErrorsFirst(js));
    FirstOfSucceeded(rs);
  }

  /** Delete once `response.success` held and `results` is present: the
      first failed deletion with a truthy message is thrown, otherwise
      `successful.length > 0` is returned. */
  function DeleteResults(rs: seq<RecordResult>): (o: Outcome)
    ensures o.Threw? ==> o.failure.Raised?
    ensures o.Returned? ==> o.value.Bool?
  {
    var failed := WithSuccess(rs, false);
    match FirstComplaint(failed, MessageOnly)
    case Some(f) => Threw(f)
    case None => Returned(Bool(|WithSuccess(rs, true)| > 0))
  }

  /** What delete makes of the results: the first failed deletion with a
      truthy message is thrown; with none, the value returned is true
      exactly when at least one deletion succeeded. */
  lemma DeleteResultsMeaning(rs: seq<RecordResult>)
    ensures forall i :: FirstLoudAt(rs, i, MessageOnly) ==> DeleteResults(rs) == Threw(Raised(rs[i].message))
    ensures (forall i :: 0 <= i < |rs| ==> !Loud(rs[i], MessageOnly)) ==>
              DeleteResults(rs) == Returned(Bool(exists i :: 0 <= i < |rs| && Truthy(rs[i].success)))
  {
    ComplaintOfFailed(rs, MessageOnly);
    FirstOfSucceeded(rs);
  }

  /** The reply passed the top-level `if (!response.success)` check. */
  predicate Accepted(reply: Reply) {
    reply.Resolved? && Truthy(reply.response.success)
  }

  /** A client rejection reaches the caller through the catch block. */
  function Rejection(reply: Reply): Outcome
    requires reply.Rejected?
  {
    Threw(Normalise(External(reply.reason)))
  }

  /** `throw new Error(response.message)` for a reply that reports failure. */
  function Refusal(reply: Reply): Outcome
    requires reply.Resolved?
  {
    Threw(Raised(reply.response.message))
  }

  /** The whole of create and update after the client call. */
  function WriteOutcome(reply: Reply, js: Builtins): (o: Outcome)
    ensures reply.Rejected? ==> o == Rejection(reply)
    ensures reply.Resolved? && !Accepted(reply) ==> o == Refusal(reply)
    ensures Accepted(reply) && reply.response.results.None? ==> o == Returned(Undefined)
    ensures Accepted(reply) && reply.response.results.Some? ==> o == WriteResults(reply.response.results.value, js)
  {
    Catch(
      match reply
      case Rejected(e) => Threw(External(e))
      case Resolved(r) =>
        if !Truthy(r.success) then Threw(Raised(r.message))
        else if r.results.None? then Returned(Undefined)
        else WriteResults(r.results.value, js))
  }

  /** The whole of delete after the client call. */
  function DeleteOutcome(reply: Reply): (o: Outcome)
    ensures reply.Rejected? ==> o == Rejection(reply)
    ensures reply.Resolved? && !Accepted(reply) ==> o == Refusal(reply)
    ensures Accepted(reply) && reply.response.results.None? ==> o == Returned(Undefined)
    ensures Accepted(reply) && reply.response.results.Some? ==> o == DeleteResults(reply.response.results.value)
    ensures o.Returned? ==> o.value.Undefined? || o.value.Bool?
  {
    Catch(
      match reply
      case Rejected(e) => Threw(External(e))
      case Resolved(r) =>
        if !Truthy(r.success) then Threw(Raised(r.message))
        else if r.results.None? then Returned(Undefined)
        else DeleteResults(r.results.value))
  }

  /** getAll after the client call: `response.data || []`, so an accepted
      reply always yields a truthy list value and never null. */
  function ListOutcome(reply: Reply): (o: Outcome)
    ensures reply.Rejected? ==> o == Rejection(reply)
    ensures reply.Resolved? && !Accepted(reply) ==> o == Refusal(reply)
    ensures Accepted(reply) ==> o.Returned? && Truthy(o.value)
    ensures Accepted(reply) && Truthy(reply.response.data) ==> o == Returned(reply.response.data)
    ensures Accepted(reply) && !Truthy(reply.response.data) ==> o == Returned(Arr([]))
  {
    Catch(
      match reply
      case Rejected(e) => Threw(External(e))
      case Resolved(r) =>
        if !Truthy(r.success) then Threw(Raised(r.message))
        else Returned(Or(r.data, Arr([]))))
  }

  /** getById of assignments and courses after the client call: the data
      is returned as the client gave it, missing or not. */
  function RecordOutcome(reply: Reply): (o: Outcome)
    ensures reply.Rejected? ==> o == Rejection(reply)
    ensures reply.Resolved? && !Accepted(reply) ==> o == Refusal(reply)
    ensures Accepted(reply) ==> o == Returned(reply.response.data)
  {
    Catch(
      match reply
      case Rejected(e) => Threw(External(e))
      case Resolved(r) =>
        if !Truthy(r.success) then Threw(Raised(r.message))
        else Returned(r.data))
  }
}
