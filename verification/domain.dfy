/**
 * The job-application record as the client views receive it, its two enumerations, the
 * date representation shared by every view, and the per-status grouping that the table,
 * the board and the stats page all build.
 */
module Domain {
  import opened Wrappers

  datatype Status = Applied | Shortlisted | OaAssigned | Interview | Selected | Rejected

  datatype Priority = Low | Medium | High

  /** The display order of the status columns and counters. */
  const StatusOrder: seq<Status> := [Applied, Shortlisted, OaAssigned, Interview, Selected, Rejected]

  /** The name a status has in JSON, in the database enum and in the CSV export. */
  function StatusName(s: Status): string {
    match s
    case Applied => "applied"
    case Shortlisted => "shortlisted"
    case OaAssigned => "oa_assigned"
    case Interview => "interview"
    case Selected => "selected"
    case Rejected => "rejected"
  }

  /** The status with this name, if there is one: the enum check that keeps unknown names out. */
  function StatusFromName(name: string): (r: Option<Status>)
    ensures r.Some? ==> StatusName(r.value) == name
    ensures forall s :: StatusName(s) == name ==> r == Some(s)
  {
    if name == "applied" then Some(Applied)
    else if name == "shortlisted" then Some(Shortlisted)
    else if name == "oa_assigned" then Some(OaAssigned)
    else if name == "interview" then Some(Interview)
    else if name == "selected" then Some(Selected)
    else if name == "rejected" then Some(Rejected)
    else None
  }

  function PriorityName(p: Priority): string {
    match p
    case Low => "low"
    case Medium => "medium"
    case High => "high"
  }

  function PriorityFromName(name: string): (r: Option<Priority>)
    ensures r.Some? ==> PriorityName(r.value) == name
    ensures forall p :: PriorityName(p) == name ==> r == Some(p)
  {
    if name == "low" then Some(Low)
    else if name == "medium" then Some(Medium)
    else if name == "high" then Some(High)
    else None
  }

  /** A date the server produced: its ISO 8601 text and its time in milliseconds since the epoch. */
  datatype Instant = Instant(iso: string, ms: int)

  /** A date as text, together with what `Date.parse` makes of it (`None` when that is NaN). */
  datatype DateText = DateText(text: string, time: Option<int>)

  /** A job application as the views hold it (the JSON the list endpoint returns). */
  datatype Job = Job(
    id: string,
    company: string,
    role: string,
    url: Option<string>,
    status: Status,
    priority: Priority,
    dateApplied: Instant,
    notes: Option<string>,
    tags: seq<string>,
    oaDeadline: Option<DateText>,
    interviewDate: Option<DateText>,
    reminderDaysBefore: Option<int>,
    createdAt: string,
    lastUpdated: string)

  /** The two deadlines a job can carry: the online assessment ("OA") and the interview. */
  datatype DeadlineKind = OnlineAssessment | InterviewRound

  /** The time a job was applied for: the key that puts the earliest application first. */
  function AppliedAt(j: Job): int {
    j.dateApplied.ms
  }

  /** Milliseconds in a day, `1000 * 60 * 60 * 24`. */
  const MsPerDay: int := 86400000

  /**
   * `Math.ceil((target - now) / MsPerDay)`: the number of days left until `target`, the
   * least whole number of days that reaches it.
   */
  function DaysUntil(target: int, now: int): (d: int)
    ensures (d - 1) * MsPerDay < target - now <= d * MsPerDay
  {
    -((now - target) / MsPerDay)
  }

  /**
   * The time of an optional deadline when the views use it: present, not the empty string,
   * and parseable (`d && !Number.isNaN(Date.parse(d))`).
   */
  function DeadlineTime(d: Option<DateText>): (t: Option<int>)
    ensures t.Some? <==> d.Some? && d.value.text != [] && d.value.time.Some?
    ensures t.Some? ==> t == d.value.time
  {
    match d
    case Some(DateText(text, time)) => if text != [] then time else None
    case None => None
  }

  /** The jobs with status `s`, in list order. */
  function WithStatus(jobs: seq<Job>, s: Status): (r: seq<Job>)
    ensures |r| <= |jobs|
    ensures forall k :: 0 <= k < |r| ==> r[k].status == s
  {
    if jobs == [] then []
    else (if jobs[0].status == s then [jobs[0]] else []) + WithStatus(jobs[1..], s)
  }

  /** The group of a non-empty list: its first job if that has status `s`, then the group of the rest. */
  lemma WithStatusCons(jobs: seq<Job>, s: Status)
    requires jobs != []
    ensures WithStatus(jobs, s) == (if jobs[0].status == s then [jobs[0]] else []) + WithStatus(jobs[1..], s)
  {
  }

  /** The group of status `s` holds each job of that status as often as the list does, and no other. */
  lemma {:induction false} WithStatusOccurrences(jobs: seq<Job>, s: Status, x: Job)
    ensures multiset(WithStatus(jobs, s))[x] == if x.status == s then multiset(jobs)[x] else 0
  {
    if jobs != [] {
      var head := if jobs[0].status == s then [jobs[0]] else [];
      WithStatusCons(jobs, s);
      WithStatusOccurrences(jobs[1..], s, x);
      assert jobs == [jobs[0]] + jobs[1..];
      assert multiset(jobs)[x] == multiset([jobs[0]])[x] + multiset(jobs[1..])[x];
      assert multiset(WithStatus(jobs, s))[x] == multiset(head)[x] + multiset(WithStatus(jobs[1..], s))[x];
    }
  }

  /** Appending a job appends it to the group of its status only. */
  lemma {:induction false} WithStatusSnoc(jobs: seq<Job>, x: Job, s: Status)
    ensures WithStatus(jobs + [x], s) == WithStatus(jobs, s) + (if x.status == s then [x] else [])
  {
    if jobs == [] {
      assert [] + [x] == [x];
      assert WithStatus([x], s) == (if x.status == s then [x] else []) + WithStatus([], s);
    } else {
      var head := if jobs[0].status == s then [jobs[0]] else [];
      assert (jobs + [x])[0] == jobs[0];
      assert (jobs + [x])[1..] == jobs[1..] + [x];
      assert WithStatus(jobs + [x], s) == head + WithStatus(jobs[1..] + [x], s);
      WithStatusSnoc(jobs[1..], x, s);
      assert WithStatus(jobs, s) == head + WithStatus(jobs[1..], s);
    }
  }

  /** The sum of the six per-status numbers of a complete status-to-number record. */
  function Total(counts: map<Status, nat>): nat
    requires forall s :: s in counts
  {
    counts[Applied] + counts[Shortlisted] + counts[OaAssigned]
    + counts[Interview] + counts[Selected] + counts[Rejected]
  }

  /** The six status groups together hold every job once. */
  lemma {:induction false} StatusPartition(jobs: seq<Job>)
    ensures |WithStatus(jobs, Applied)| + |WithStatus(jobs, Shortlisted)| + |WithStatus(jobs, OaAssigned)|
            + |WithStatus(jobs, Interview)| + |WithStatus(jobs, Selected)| + |WithStatus(jobs, Rejected)|
            == |jobs|
  {
    if jobs != [] {
      var rest := jobs[1..];
      StatusPartition(rest);
      WithStatusCons(jobs, Applied);
      WithStatusCons(jobs, Shortlisted);
      WithStatusCons(jobs, OaAssigned);
      WithStatusCons(jobs, Interview);
      WithStatusCons(jobs, Selected);
      WithStatusCons(jobs, Rejected);
    }
  }

  /**
   * The per-status counters: start every status at 0 and add 1 for each job's status.
   * Each counter is the number of jobs with that status, and the six add up to `|jobs|`.
   */
  method TallyByStatus(jobs: seq<Job>) returns (counts: map<Status, nat>)
    ensures forall s :: s in counts && counts[s] == |WithStatus(jobs, s)|
    ensures Total(counts) == |jobs|
  {
    counts := map[Applied := 0, Shortlisted := 0, OaAssigned := 0,
                  Interview := 0, Selected := 0, Rejected := 0];
    assert jobs[..0] == [];
    forall s ensures s in counts && counts[s] == 0 {
      match s
      case Applied =>
      case Shortlisted =>
      case OaAssigned =>
      case Interview =>
      case Selected =>
      case Rejected =>
    }
    for i := 0 to |jobs|
      invariant forall s :: s in counts && counts[s] == |WithStatus(jobs[..i], s)|
    {
      forall s {
        WithStatusSnoc(jobs[..i], jobs[i], s);
      }
      assert jobs[..i + 1] == jobs[..i] + [jobs[i]];
      counts := counts[jobs[i].status := counts[jobs[i].status] + 1];
    }
    assert jobs[..|jobs|] == jobs;
    StatusPartition(jobs);
  }
}
