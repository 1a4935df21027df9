/**
 * The job collection endpoint (app/api/jobs/route.ts): `POST` validates a new application,
 * fills in its defaults and stores it for the caller; `GET` lists the caller's applications,
 * most recent first.
 *
 * The store is a sequence of records: creating appends, listing filters by owner and sorts.
 * The caller's identity, the current time and the new record's id come from outside and are
 * parameters.
 */
module JobsApi {
  import opened Wrappers
  import opened Sorting
  import opened Domain

  /** A property of the JSON request body: absent, `null`, or a value. */
  datatype Field<T> = Missing | Null | Given(value: T)

  /**
   * Who calls: nobody signed in (no session, or a session without a user), or a user with an
   * id, written `[]` when the session carries none.
   */
  datatype Caller = Anonymous | User(id: string)

  /** The caller has a (truthy) id. */
  predicate HasId(c: Caller) {
    c.User? && c.id != []
  }

  /** The body of a create request, property by property. */
  datatype CreateBody = CreateBody(
    company: Field<string>,
    role: Field<string>,
    url: Field<string>,
    status: Field<string>,
    priority: Field<string>,
    dateApplied: Field<DateText>,
    notes: Field<string>,
    tags: Field<seq<string>>,
    oaDeadline: Field<DateText>,
    interviewDate: Field<DateText>,
    reminderDaysBefore: Field<int>)

  /** A stored application: dates are milliseconds since the epoch, `None` for null. */
  datatype StoredJob = StoredJob(
    id: string,
    userId: string,
    company: string,
    role: string,
    url: Option<string>,
    status: Status,
    priority: Priority,
    dateApplied: int,
    notes: Option<string>,
    tags: seq<string>,
    oaDeadline: Option<int>,
    interviewDate: Option<int>,
    reminderDaysBefore: Option<int>,
    createdAt: int)

  datatype CreateResponse = Created(job: StoredJob) | BadRequest | Unauthorized | ServerError

  /** The HTTP status of a create response. */
  function CreateCode(r: CreateResponse): nat {
    match r
    case Created(_) => 201
    case BadRequest => 400
    case Unauthorized => 401
    case ServerError => 500
  }

  // ---------------------------------------------------------------- defaults and normalisation

  /** A text property JavaScript treats as false: absent, `null` or the empty string. */
  predicate Falsy(f: Field<string>) {
    !f.Given? || f.value == []
  }

  /** `f || null`: the text when it is truthy, otherwise null. */
  function OrNull(f: Field<string>): (r: Option<string>)
    ensures r.None? <==> Falsy(f)
    ensures r.Some? ==> f == Given(r.value)
  {
    if Falsy(f) then None else Some(f.value)
  }

  /**
   * The stored status: "applied" when the property is absent (the destructuring default, which
   * `null` does not trigger), otherwise the named status, if the store's enum has it.
   */
  function StatusOf(f: Field<string>): (r: Option<Status>)
    ensures f.Missing? ==> r == Some(Applied)
    ensures f.Null? ==> r.None?
    ensures f.Given? ==> (r.Some? <==> exists s :: StatusName(s) == f.value)
    ensures f.Given? && r.Some? ==> StatusName(r.value) == f.value
  {
    match f
    case Missing => Some(Applied)
    case Null => None
    case Given(name) => StatusFromName(name)
  }

  /** The stored priority: "medium" when absent, otherwise the named priority, if there is one. */
  function PriorityOf(f: Field<string>): (r: Option<Priority>)
    ensures f.Missing? ==> r == Some(Medium)
    ensures f.Null? ==> r.None?
    ensures f.Given? ==> (r.Some? <==> exists p :: PriorityName(p) == f.value)
    ensures f.Given? && r.Some? ==> PriorityName(r.value) == f.value
  {
    match f
    case Missing => Some(Medium)
    case Null => None
    case Given(name) => PriorityFromName(name)
  }

  /** The application date: the given date when it is non-empty and parseable, else now. */
  function AppliedTime(f: Field<DateText>, now: int): (t: int)
    ensures f.Given? && f.value.text != [] && f.value.time.Some? ==> t == f.value.time.value
    ensures !(f.Given? && f.value.text != [] && f.value.time.Some?) ==> t == now
  {
    match f
    case Given(DateText(text, Some(ms))) => if text != [] then ms else now
    case _ => now
  }

  /** `d ? new Date(d) : null` is storable: null, or a date that is valid. */
  predicate DeadlineStorable(f: Field<DateText>) {
    f.Given? && f.value.text != [] ==> f.value.time.Some?
  }

  /** The stored deadline: null for an absent, null or empty property, otherwise its time. */
  function DeadlineOf(f: Field<DateText>): (r: Option<int>)
    requires DeadlineStorable(f)
    ensures r.None? <==> !f.Given? || f.value.text == []
    ensures r.Some? ==> r == f.value.time
  {
    match f
    case Given(DateText(text, time)) => if text != [] then time else None
    case _ => None
  }

  /**
   * The body passes the handler's check (company and role truthy) and the store's own checks
   * (known status and priority, valid dates).
   */
  predicate Accepted(b: CreateBody) {
    && !Falsy(b.company) && !Falsy(b.role)
    && StatusOf(b.status).Some? && PriorityOf(b.priority).Some?
    && DeadlineStorable(b.oaDeadline) && DeadlineStorable(b.interviewDate)
  }

  /** The record the store creates for an accepted body. */
  function Record(b: CreateBody, userId: string, now: int, newId: string): (job: StoredJob)
    requires Accepted(b)
    ensures job.id == newId && job.userId == userId && job.createdAt == now
    ensures job.company == b.company.value && job.role == b.role.value
    ensures job.company != [] && job.role != []
    ensures job.url.None? <==> Falsy(b.url)
    ensures job.url.Some? ==> b.url == Given(job.url.value)
    ensures job.notes.None? <==> Falsy(b.notes)
    ensures job.notes.Some? ==> b.notes == Given(job.notes.value)
    ensures b.dateApplied.Given? && b.dateApplied.value.text != [] && b.dateApplied.value.time.Some? ==>
      job.dateApplied == b.dateApplied.value.time.value
    ensures !(b.dateApplied.Given? && b.dateApplied.value.text != [] && b.dateApplied.value.time.Some?) ==>
      job.dateApplied == now
    ensures b.status.Missing? ==> job.status == Applied
    ensures b.status.Given? ==> StatusName(job.status) == b.status.value
    ensures b.priority.Missing? ==> job.priority == Medium
    ensures b.priority.Given? ==> PriorityName(job.priority) == b.priority.value
    ensures b.tags.Given? ==> job.tags == b.tags.value
    ensures !b.tags.Given? ==> job.tags == []
    ensures job.reminderDaysBefore.Some? <==> b.reminderDaysBefore.Given?
    ensures job.reminderDaysBefore.Some? ==> job.reminderDaysBefore.value == b.reminderDaysBefore.value
    ensures job.oaDeadline.None? <==> !b.oaDeadline.Given? || b.oaDeadline.value.text == []
    ensures job.oaDeadline.Some? ==> job.oaDeadline == b.oaDeadline.value.time
    ensures job.interviewDate.None? <==> !b.interviewDate.Given? || b.interviewDate.value.text == []
    ensures job.interviewDate.Some? ==> job.interviewDate == b.interviewDate.value.time
  {
    StoredJob(
      newId,
      userId,
      b.company.value,
      b.role.value,
      OrNull(b.url),
      StatusOf(b.status).value,
      PriorityOf(b.priority).value,
      AppliedTime(b.dateApplied, now),
      OrNull(b.notes),
      if b.tags.Given? then b.tags.value else [],
      DeadlineOf(b.oaDeadline),
      DeadlineOf(b.interviewDate),
      if b.reminderDaysBefore.Given? then Some(b.reminderDaysBefore.value) else None,
      now)
  }

  // ---------------------------------------------------------------- POST

  /**
   * The response to a create request. `body` is `None` when `req.json()` rejects the body (it
   * is not JSON) or when the body is JSON `null`, whose destructuring throws; those, and a body
   * the store refuses, end in the catch-all 500. Any other JSON value that is not an object (an
   * array, number, string or boolean) destructures to absent properties: it is the body with
   * every property `Missing`, and gets the 400 for the missing company and role.
   */
  function Create(caller: Caller, body: Option<CreateBody>, now: int, newId: string): (r: CreateResponse)
    ensures !HasId(caller) ==> r == Unauthorized
    ensures HasId(caller) && body.None? ==> r == ServerError
    ensures HasId(caller) && body.Some? && (Falsy(body.value.company) || Falsy(body.value.role)) ==>
      r == BadRequest
    ensures r.Created? <==> HasId(caller) && body.Some? && Accepted(body.value)
    ensures r.Created? ==> r.job.userId == caller.id && CreateCode(r) == 201
    ensures r.Created? ==> r.job == Record(body.value, caller.id, now, newId)
    ensures (HasId(caller) && body.Some? && !Falsy(body.value.company) && !Falsy(body.value.role)
      && !Accepted(body.value)) ==> r == ServerError
  {
    if !HasId(caller) then Unauthorized
    else if body.None? then ServerError
    else
      var b := body.value;
      if Falsy(b.company) || Falsy(b.role) then BadRequest
      else if !Accepted(b) then ServerError
      else Created(Record(b, caller.id, now, newId))
  }

  /** `POST`: the response, and the store with the new record appended when one was created. */
  function Post(caller: Caller, body: Option<CreateBody>, store: seq<StoredJob>, now: int, newId: string)
    : (r: (CreateResponse, seq<StoredJob>))
    ensures r.0 == Create(caller, body, now, newId)
    ensures r.0.Created? ==> r.1 == store + [r.0.job]
    ensures !r.0.Created? ==> r.1 == store
  {
    var response := Create(caller, body, now, newId);
    if response.Created? then (response, store + [response.job]) else (response, store)
  }

  // ---------------------------------------------------------------- GET

  /**
   * The response to a list request. Without a session the handler reads the id of an absent
   * user and throws, which the framework answers with a 500 (`Crashed`); a session without an
   * id gets a 401.
   */
  datatype ListResponse = Listed(jobs: seq<StoredJob>) | ListUnauthorized | Crashed

  /** The records of user `userId`, in store order. */
  function Owned(store: seq<StoredJob>, userId: string): (r: seq<StoredJob>)
    ensures |r| <= |store|
    ensures forall k :: 0 <= k < |r| ==> r[k].userId == userId
  {
    if store == [] then []
    else (if store[0].userId == userId then [store[0]] else []) + Owned(store[1..], userId)
  }

  lemma {:induction false} OwnedOccurrences(store: seq<StoredJob>, userId: string, x: StoredJob)
    ensures multiset(Owned(store, userId))[x] == if x.userId == userId then multiset(store)[x] else 0
  {
    if store != [] {
      OwnedOccurrences(store[1..], userId, x);
      assert store == [store[0]] + store[1..];
    }
  }

  lemma {:induction false} OwnedAppend(store: seq<StoredJob>, extra: StoredJob, userId: string)
    ensures Owned(store + [extra], userId) == Owned(store, userId) + (if extra.userId == userId then [extra] else [])
  {
    if store == [] {
      assert store + [extra] == [extra];
      assert Owned([extra], userId) == (if extra.userId == userId then [extra] else []) + Owned([], userId);
    } else {
      var head := if store[0].userId == userId then [store[0]] else [];
      assert (store + [extra])[1..] == store[1..] + [extra];
      assert Owned(store + [extra], userId) == head + Owned(store[1..] + [extra], userId);
      OwnedAppend(store[1..], extra, userId);
      assert Owned(store, userId) == head + Owned(store[1..], userId);
    }
  }

  /** The sort key of the list: the latest application first. */
  function LatestFirst(j: StoredJob): int {
    -j.dateApplied
  }

  /** `GET`: the caller's records, latest application first. */
  function List(caller: Caller, store: seq<StoredJob>): (r: ListResponse)
    ensures caller.Anonymous? ==> r == Crashed
    ensures caller.User? && caller.id == [] ==> r == ListUnauthorized
    ensures r.Listed? <==> HasId(caller)
    ensures r.Listed? ==> forall i, k :: 0 <= i < k < |r.jobs| ==> r.jobs[i].dateApplied >= r.jobs[k].dateApplied
    ensures r.Listed? ==> multiset(r.jobs) == multiset(Owned(store, caller.id))
  {
    match caller
    case Anonymous => Crashed
    case User(id) =>
      if id == [] then ListUnauthorized
      else
        var jobs := SortBy(Owned(store, id), LatestFirst);
        assert forall i, k :: 0 <= i < k < |jobs| ==> LatestFirst(jobs[i]) <= LatestFirst(jobs[k]);
        Listed(jobs)
  }

  /** A signed-in caller sees exactly their own records, each as often as it is stored. */
  lemma ListedExactly(caller: Caller, store: seq<StoredJob>, x: StoredJob)
    requires HasId(caller)
    ensures multiset(List(caller, store).jobs)[x] == if x.userId == caller.id then multiset(store)[x] else 0
    ensures x in List(caller, store).jobs <==> x in store && x.userId == caller.id
  {
    OwnedOccurrences(store, caller.id, x);
  }

  /**
   * A created record shows up in its owner's list, which grows by exactly that record, and
   * every other user's list stays as it was.
   */
  lemma CreatedIsListed(caller: Caller, body: Option<CreateBody>, store: seq<StoredJob>, now: int, newId: string, other: string)
    requires Create(caller, body, now, newId).Created?
    requires other != [] && other != caller.id
    ensures var (response, after) := Post(caller, body, store, now, newId);
      && response.job in List(caller, after).jobs
      && multiset(List(caller, after).jobs) == multiset(List(caller, store).jobs) + multiset{response.job}
      && multiset(List(User(other), after).jobs) == multiset(List(User(other), store).jobs)
  {
    var (response, after) := Post(caller, body, store, now, newId);
    OwnedAppend(store, response.job, caller.id);
    OwnedAppend(store, response.job, other);
    ListedExactly(caller, after, response.job);
  }
}
