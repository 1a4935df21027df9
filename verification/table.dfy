/**
 * The derived state of the table view (app/page.tsx): the filtered and sorted list, the
 * "upcoming deadlines" reminders, the normalisation of the tag and reminder inputs of the
 * form, and the list of jobs the page holds, which each server answer updates.
 * The per-status counters of the page are `Domain.TallyByStatus`.
 */
module TableView {
  import opened Wrappers
  import opened Text
  import opened Sorting
  import opened Domain
  import JobsApi

  // ---------------------------------------------------------------- filter, search, sort

  datatype StatusFilter = AnyStatus | OnlyStatus(status: Status)

  datatype PriorityFilter = AnyPriority | OnlyPriority(priority: Priority)

  /** The filter controls of the table: status, priority and the search box. */
  datatype Criteria = Criteria(status: StatusFilter, priority: PriorityFilter, search: string)

  /**
   * The search filter: a blank search lets every job through; otherwise the lower-cased
   * company or role must contain the lower-cased search text, which is not trimmed. So the
   * company's own name, in any ASCII case, finds it, and a non-blank search longer than both
   * company and role finds nothing.
   */
  predicate MatchesSearch(j: Job, search: string) {
    Trim(search) == []
    || Contains(Lower(j.company), Lower(search))
    || Contains(Lower(j.role), Lower(search))
  }

  /** What the search filter lets through and what it keeps out. */
  lemma SearchFacts(j: Job, search: string)
    ensures (forall i :: 0 <= i < |search| ==> IsSpace(search[i])) ==> MatchesSearch(j, search)
    ensures Lower(search) == Lower(j.company) ==> MatchesSearch(j, search)
    ensures MatchesSearch(j, search) && Trim(search) != [] ==> |search| <= |j.company| || |search| <= |j.role|
  {
    var q := Lower(search);
    if q == Lower(j.company) {
      assert Contains(Lower(j.company), q);
    }
    if Contains(Lower(j.company), q) {
      assert |q| <= |Lower(j.company)|;
    }
    if Contains(Lower(j.role), q) {
      assert |q| <= |Lower(j.role)|;
    }
  }

  /** A job passes the three filters of the table. */
  predicate Passes(j: Job, c: Criteria) {
    && (c.status.AnyStatus? || j.status == c.status.status)
    && (c.priority.AnyPriority? || j.priority == c.priority.priority)
    && MatchesSearch(j, c.search)
  }

  /** The jobs that pass the filters, in list order. */
  function Matching(jobs: seq<Job>, c: Criteria): (r: seq<Job>)
    ensures |r| <= |jobs|
    ensures forall k :: 0 <= k < |r| ==> Passes(r[k], c)
  {
    if jobs == [] then []
    else
      var head := if Passes(jobs[0], c) then [jobs[0]] else [];
      var rest := Matching(jobs[1..], c);
      assert forall k :: 0 <= k < |head| ==> Passes(head[k], c);
      head + rest
  }

  /** When every job passes the filters, the table shows the whole list in its order. */
  lemma {:induction false} MatchingAll(jobs: seq<Job>, c: Criteria)
    requires forall k :: 0 <= k < |jobs| ==> Passes(jobs[k], c)
    ensures Matching(jobs, c) == jobs
  {
    if jobs != [] {
      assert Passes(jobs[0], c);
      MatchingAll(jobs[1..], c);
      assert jobs == [jobs[0]] + jobs[1..];
    }
  }

  /** The matching jobs hold each passing job as often as the list does, and nothing else. */
  lemma {:induction false} MatchingOccurrences(jobs: seq<Job>, c: Criteria, x: Job)
    ensures multiset(Matching(jobs, c))[x] == if Passes(x, c) then multiset(jobs)[x] else 0
  {
    if jobs != [] {
      MatchingOccurrences(jobs[1..], c, x);
      assert jobs == [jobs[0]] + jobs[1..];
    }
  }

  /** The sort key that puts the most recently applied job first. */
  function NewestFirst(j: Job): int {
    -j.dateApplied.ms
  }

  /** `visibleJobs`: the jobs that pass the filters, most recent application first. */
  function VisibleJobs(jobs: seq<Job>, c: Criteria): (r: seq<Job>)
    ensures forall i, k :: 0 <= i < k < |r| ==> r[i].dateApplied.ms >= r[k].dateApplied.ms
    ensures multiset(r) == multiset(Matching(jobs, c))
  {
    var r := SortBy(Matching(jobs, c), NewestFirst);
    assert forall i, k :: 0 <= i < k < |r| ==> NewestFirst(r[i]) <= NewestFirst(r[k]);
    r
  }

  /** A job is shown exactly when it is in the list and passes the filters, as often as it is listed. */
  lemma VisibleJobsExactly(jobs: seq<Job>, c: Criteria, x: Job)
    ensures multiset(VisibleJobs(jobs, c))[x] == if Passes(x, c) then multiset(jobs)[x] else 0
    ensures x in VisibleJobs(jobs, c) <==> x in jobs && Passes(x, c)
  {
    MatchingOccurrences(jobs, c, x);
  }

  /** With both filters on "all" and a blank search, the view shows the whole list. */
  lemma NoFilterShowsAll(jobs: seq<Job>, search: string)
    requires forall i :: 0 <= i < |search| ==> IsSpace(search[i])
    ensures multiset(VisibleJobs(jobs, Criteria(AnyStatus, AnyPriority, search))) == multiset(jobs)
  {
    var c := Criteria(AnyStatus, AnyPriority, search);
    forall x {
      VisibleJobsExactly(jobs, c, x);
    }
  }

  // ---------------------------------------------------------------- upcoming deadlines

  /** One deadline of a reminder: which one, when, and how many days are left. */
  datatype Entry = Entry(kind: DeadlineKind, time: int, diffDays: int)

  datatype Reminder = Reminder(job: Job, entries: seq<Entry>)

  /** The number of days before a deadline from which it is shown when the job sets none. */
  const DefaultReminderDays: int := 2

  /** The reminder window of a job: its own setting, which may be 0, or the default. */
  function ReminderWindow(j: Job): int {
    j.reminderDaysBefore.GetOr(DefaultReminderDays)
  }

  /**
   * One deadline's entry, kept exactly when the deadline is set and parseable and the days
   * left are between -1 (one day past) and the window.
   */
  function DueEntry(kind: DeadlineKind, d: Option<DateText>, window: int, now: int): (r: seq<Entry>)
    ensures r != [] <==>
      DeadlineTime(d).Some? && -1 <= DaysUntil(DeadlineTime(d).value, now) <= window
    ensures r != [] ==>
      r == [Entry(kind, DeadlineTime(d).value, DaysUntil(DeadlineTime(d).value, now))]
  {
    match DeadlineTime(d)
    case None => []
    case Some(t) =>
      var diffDays := DaysUntil(t, now);
      if diffDays <= window && diffDays >= -1 then [Entry(kind, t, diffDays)] else []
  }

  /** The kept entries of a job: the assessment's first, then the interview's. */
  function DueEntries(j: Job, now: int): (r: seq<Entry>)
    ensures |r| <= 2
    ensures forall e :: e in r ==> -1 <= e.diffDays <= ReminderWindow(j) && e.diffDays == DaysUntil(e.time, now)
    ensures |r| == 2 ==> r[0].kind == OnlineAssessment && r[1].kind == InterviewRound
  {
    DueEntry(OnlineAssessment, j.oaDeadline, ReminderWindow(j), now)
    + DueEntry(InterviewRound, j.interviewDate, ReminderWindow(j), now)
  }

  /**
   * `upcoming`: one reminder, in list order, for each job with a kept entry; jobs without
   * any are left out.
   */
  function Upcoming(jobs: seq<Job>, now: int): (r: seq<Reminder>)
    ensures |r| <= |jobs|
    ensures forall k :: 0 <= k < |r| ==>
      r[k].job in jobs && r[k].entries == DueEntries(r[k].job, now) && r[k].entries != []
  {
    if jobs == [] then []
    else
      var rest := Upcoming(jobs[1..], now);
      assert forall k :: 0 <= k < |rest| ==> rest[k].job in jobs;
      ReminderOf(jobs[0], now) + rest
  }

  /** The reminder of one job, when it has a kept entry. */
  function ReminderOf(j: Job, now: int): seq<Reminder> {
    if DueEntries(j, now) == [] then [] else [Reminder(j, DueEntries(j, now))]
  }

  /** Every job with a kept entry has its reminder. */
  lemma {:induction false} UpcomingComplete(jobs: seq<Job>, now: int, j: Job)
    requires j in jobs && DueEntries(j, now) != []
    ensures Reminder(j, DueEntries(j, now)) in Upcoming(jobs, now)
  {
    assert Upcoming(jobs, now) == ReminderOf(jobs[0], now) + Upcoming(jobs[1..], now);
    if j != jobs[0] {
      UpcomingComplete(jobs[1..], now, j);
    }
  }

  /** A single job gives its reminder when it has a kept entry, and nothing otherwise. */
  lemma UpcomingOne(j: Job, now: int)
    ensures DueEntries(j, now) == [] ==> Upcoming([j], now) == []
    ensures DueEntries(j, now) != [] ==> Upcoming([j], now) == [Reminder(j, DueEntries(j, now))]
  {
    assert [j][1..] == [];
  }

  /** The reminders keep the list order: those of a concatenation are those of each part in turn. */
  lemma {:induction false} UpcomingAppend(a: seq<Job>, b: seq<Job>, now: int)
    ensures Upcoming(a + b, now) == Upcoming(a, now) + Upcoming(b, now)
  {
    if a == [] {
      assert a + b == b;
    } else {
      var head := ReminderOf(a[0], now);
      calc {
        Upcoming(a + b, now);
      == { assert (a + b)[0] == a[0]; assert (a + b)[1..] == a[1..] + b; }
        head + Upcoming(a[1..] + b, now);
      == { UpcomingAppend(a[1..], b, now); }
        head + (Upcoming(a[1..], now) + Upcoming(b, now));
      == { Associative(head, Upcoming(a[1..], now), Upcoming(b, now)); }
        (head + Upcoming(a[1..], now)) + Upcoming(b, now);
      }
    }
  }

  lemma Associative<T>(x: seq<T>, y: seq<T>, z: seq<T>)
    ensures x + (y + z) == (x + y) + z
  {
  }

  /** The window boundaries: one day past is still shown, two days past no longer; the window's last day is shown, the next is not. */
  lemma ReminderBoundaries(j: Job, now: int, t: int)
    requires j.oaDeadline.Some? && j.oaDeadline.value.text != [] && j.oaDeadline.value.time == Some(t)
    ensures DaysUntil(t, now) == -1 && ReminderWindow(j) >= -1 ==>
      Entry(OnlineAssessment, t, -1) in DueEntries(j, now)
    ensures DaysUntil(t, now) == ReminderWindow(j) && ReminderWindow(j) >= -1 ==>
      Entry(OnlineAssessment, t, ReminderWindow(j)) in DueEntries(j, now)
    ensures DaysUntil(t, now) <= -2 || DaysUntil(t, now) > ReminderWindow(j) ==>
      forall e :: e in DueEntries(j, now) ==> e.kind == InterviewRound
  {
    var oa := DueEntry(OnlineAssessment, j.oaDeadline, ReminderWindow(j), now);
    var iv := DueEntry(InterviewRound, j.interviewDate, ReminderWindow(j), now);
    assert DueEntries(j, now) == oa + iv;
    assert oa != [] ==> oa[0] in oa + iv;
  }

  // ---------------------------------------------------------------- form inputs

  function TrimEach(parts: seq<string>): (r: seq<string>)
    ensures |r| == |parts|
    ensures forall k :: 0 <= k < |r| ==> r[k] == Trim(parts[k]) && IsTrimmed(r[k])
  {
    seq(|parts|, k requires 0 <= k < |parts| => Trim(parts[k]))
  }

  /** Trimming every piece brings no character into any of them. */
  lemma TrimEachKeepsMissing(parts: seq<string>, c: char)
    requires forall k :: 0 <= k < |parts| ==> c !in parts[k]
    ensures forall k :: 0 <= k < |parts| ==> c !in TrimEach(parts)[k]
  {
    forall k | 0 <= k < |parts| ensures c !in TrimEach(parts)[k] {
      TrimKeepsMissing(parts[k], c);
    }
  }

  /**
   * `filter(Boolean)` on strings: the non-empty ones, in order, each as often as it occurs;
   * the empty string is dropped.
   */
  function NonEmpty(parts: seq<string>): (r: seq<string>)
    ensures forall t :: t in r <==> t in parts && t != []
    ensures forall t :: multiset(r)[t] == if t != [] then multiset(parts)[t] else 0
  {
    if parts == [] then []
    else
      assert parts == [parts[0]] + parts[1..];
      (if parts[0] != [] then [parts[0]] else []) + NonEmpty(parts[1..])
  }

  /** Filtering a list with a first string. */
  lemma NonEmptyCons(p: string, rest: seq<string>)
    ensures NonEmpty([p] + rest) == (if p != [] then [p] else []) + NonEmpty(rest)
  {
    assert ([p] + rest)[1..] == rest;
  }

  /** Filtering works piece by piece, so the kept strings stay in their order. */
  lemma {:induction false} NonEmptyAppend(a: seq<string>, b: seq<string>)
    ensures NonEmpty(a + b) == NonEmpty(a) + NonEmpty(b)
  {
    if a == [] {
      assert a + b == b;
    } else {
      var head := if a[0] != [] then [a[0]] else [];
      NonEmptyAppend(a[1..], b);
      assert a + b == [a[0]] + (a[1..] + b);
      assert a == [a[0]] + a[1..];
      NonEmptyCons(a[0], a[1..] + b);
      NonEmptyCons(a[0], a[1..]);
      assert head + (NonEmpty(a[1..]) + NonEmpty(b)) == (head + NonEmpty(a[1..])) + NonEmpty(b);
    }
  }

  /** Trimming works piece by piece. */
  lemma TrimEachAppend(a: seq<string>, b: seq<string>)
    ensures TrimEach(a + b) == TrimEach(a) + TrimEach(b)
  {
    var l := TrimEach(a + b);
    var r := TrimEach(a) + TrimEach(b);
    assert |l| == |r|;
    forall k | 0 <= k < |l| ensures l[k] == r[k] {
      if k < |a| {
        assert (a + b)[k] == a[k];
        assert r[k] == TrimEach(a)[k];
      } else {
        assert (a + b)[k] == b[k - |a|];
        assert r[k] == TrimEach(b)[k - |a|];
      }
    }
    assert l == r;
  }

  /** A tag as parsing produces it: non-empty, trimmed and free of commas. */
  predicate CleanTag(t: string) {
    t != [] && IsTrimmed(t) && ',' !in t
  }

  /**
   * The tag input: split on commas, each piece trimmed, empty pieces dropped; order and
   * duplicates are kept. Every tag is non-empty, trimmed and free of commas.
   */
  function ParseTags(input: string): (tags: seq<string>)
    ensures forall t :: t in tags ==> CleanTag(t)
  {
    var pieces := Split(input, ',');
    TrimEachKeepsMissing(pieces, ',');
    NonEmpty(TrimEach(pieces))
  }

  /** A piece without a comma gives its trimmed text as the one tag, or no tag when it is blank. */
  lemma ParseTagsPiece(x: string)
    requires ',' !in x
    ensures ParseTags(x) == if Trim(x) == [] then [] else [Trim(x)]
  {
    var t := Trim(x);
    SplitNoSeparator(x, ',');
    assert TrimEach([x]) == [t];
    assert [t][1..] == [];
    assert NonEmpty([t]) == (if t != [] then [t] else []) + NonEmpty([]);
  }

  /**
   * The tags of the text on both sides of a comma are the tags of the left side followed by
   * those of the right: order and duplicates are kept.
   */
  lemma ParseTagsAppend(x: string, y: string)
    ensures ParseTags(x + [','] + y) == ParseTags(x) + ParseTags(y)
  {
    SplitAtSeparator(x, y, ',');
    TrimEachAppend(Split(x, ','), Split(y, ','));
    NonEmptyAppend(TrimEach(Split(x, ',')), TrimEach(Split(y, ',')));
  }

  /** Trimming never brings in a character. */
  lemma TrimKeepsMissing(s: string, c: char)
    requires c !in s
    ensures c !in Trim(s)
  {
    var t := TrimStart(s);
    assert forall i :: 0 <= i < |t| ==> t[i] == s[|s| - |t| + i];
  }

  /** The pieces of a `", "`-join, seen as a `","`-join: each piece after the first gets a blank. */
  function Padded(tags: seq<string>): (r: seq<string>)
    ensures |r| == |tags|
  {
    seq(|tags|, k requires 0 <= k < |tags| => if k == 0 then tags[0] else [' '] + tags[k])
  }

  lemma JoinBlankFirst(parts: seq<string>, sep: string)
    requires |parts| >= 1
    ensures Join(parts[0 := [' '] + parts[0]], sep) == [' '] + Join(parts, sep)
  {
    var q := parts[0 := [' '] + parts[0]];
    if |parts| > 1 {
      assert q[1..] == parts[1..];
    }
  }

  lemma {:induction false} JoinPadded(tags: seq<string>)
    requires |tags| >= 1
    ensures Join(tags, ", ") == Join(Padded(tags), [','])
  {
    if |tags| > 1 {
      JoinPadded(tags[1..]);
      var p := Padded(tags[1..]);
      assert Padded(tags)[1..] == p[0 := [' '] + p[0]];
      JoinBlankFirst(p, [',']);
      assert ", " == [','] + [' '];
    }
  }

  /**
   * Editing a job fills the tag input with its tags joined by ", "; saving parses that input
   * back. Tags that are non-empty, trimmed and free of commas survive the round trip unchanged.
   */
  lemma TagsRoundTrip(tags: seq<string>)
    requires forall t :: t in tags ==> CleanTag(t)
    ensures ParseTags(Join(tags, ", ")) == tags
  {
    if tags == [] {
      assert Split([], ',') == [[]];
      assert TrimEach([[]]) == [[]];
      assert NonEmpty([[]]) == [];
    } else {
      var pieces := Split(Join(tags, ", "), ',');
      JoinPadded(tags);
      PaddedSplits(tags);
      assert pieces == Padded(tags);
      TrimPadded(tags);
      assert TrimEach(pieces) == tags;
      NonEmptyKeeps(tags);
      assert ParseTags(Join(tags, ", ")) == NonEmpty(tags);
    }
  }

  /** The padded pieces hold no comma, so splitting their join gives them back. */
  lemma PaddedSplits(tags: seq<string>)
    requires |tags| >= 1 && forall t :: t in tags ==> CleanTag(t)
    ensures Split(Join(Padded(tags), [',']), ',') == Padded(tags)
  {
    var p := Padded(tags);
    forall k | 0 <= k < |p| ensures ',' !in p[k] {
      assert CleanTag(tags[k]);
    }
    SplitJoin(p, ',');
  }

  /** Trimming the padded pieces gives the tags back. */
  lemma TrimPadded(tags: seq<string>)
    requires |tags| >= 1 && forall t :: t in tags ==> CleanTag(t)
    ensures TrimEach(Padded(tags)) == tags
  {
    var p := Padded(tags);
    forall k | 0 <= k < |tags| ensures Trim(p[k]) == tags[k] {
      assert CleanTag(tags[k]);
      if k > 0 {
        TrimAfterBlank(tags[k]);
      }
    }
  }

  lemma {:induction false} NonEmptyKeeps(parts: seq<string>)
    requires forall t :: t in parts ==> CleanTag(t)
    ensures NonEmpty(parts) == parts
  {
    if parts != [] {
      assert parts[0] in parts;
      assert forall t :: t in parts[1..] ==> t in parts;
      NonEmptyKeeps(parts[1..]);
      assert [parts[0]] + parts[1..] == parts;
    }
  }

  /**
   * The reminder input: blank becomes null, and so does any input whose `Number(...)` is 0 or
   * NaN (`number` is that value, `None` for NaN); any other number is kept.
   */
  function ParseReminder(text: string, number: Option<int>): (r: Option<int>)
    ensures r.Some? <==> Trim(text) != [] && number.Some? && number.value != 0
    ensures r.Some? ==> r == number
  {
    if Trim(text) == [] then None
    else if number.None? || number.value == 0 then None
    else number
  }

  /**
   * The inputs of the add form. A date input is its text together with what `Date.parse` makes
   * of it; `reminderNumber` is `Number(reminderInput)`, `None` for NaN.
   */
  datatype Form = Form(
    company: string,
    role: string,
    url: string,
    status: Status,
    priority: Priority,
    dateApplied: DateText,
    notes: string,
    tagsInput: string,
    oaDeadline: DateText,
    interviewDate: DateText,
    reminderInput: string,
    reminderNumber: Option<int>)

  /** `s.trim() || null`. */
  function TrimmedOrNull(s: string): (f: JobsApi.Field<string>)
    ensures f.Given? ==> f.value == Trim(s) && f.value != []
    ensures f.Null? <==> Trim(s) == []
  {
    if Trim(s) == [] then JobsApi.Null else JobsApi.Given(Trim(s))
  }

  /** `d || null` for a date input. */
  function DateOrNull(d: DateText): (f: JobsApi.Field<DateText>)
    ensures f.Given? ==> f.value == d && d.text != []
    ensures f.Null? <==> d.text == []
  {
    if d.text == [] then JobsApi.Null else JobsApi.Given(d)
  }

  /**
   * The create request the form sends: nothing when company or role is blank (the submit
   * handler returns early), otherwise the trimmed texts, the parsed tags and reminder, and the
   * deadlines with empty inputs as null.
   */
  function SubmitBody(form: Form): (r: Option<JobsApi.CreateBody>)
    ensures r.None? <==> Trim(form.company) == [] || Trim(form.role) == []
    ensures r.Some? ==>
      r.value.company == JobsApi.Given(Trim(form.company)) && r.value.role == JobsApi.Given(Trim(form.role))
    ensures r.Some? ==> (r.value.url.Null? <==> Trim(form.url) == [])
    ensures r.Some? && Trim(form.url) != [] ==> r.value.url == JobsApi.Given(Trim(form.url))
    ensures r.Some? ==> (r.value.notes.Null? <==> Trim(form.notes) == [])
    ensures r.Some? && Trim(form.notes) != [] ==> r.value.notes == JobsApi.Given(Trim(form.notes))
    ensures r.Some? ==> r.value.status == JobsApi.Given(StatusName(form.status))
    ensures r.Some? ==> r.value.priority == JobsApi.Given(PriorityName(form.priority))
    ensures r.Some? ==> r.value.dateApplied == JobsApi.Given(form.dateApplied)
    ensures r.Some? ==> r.value.tags == JobsApi.Given(ParseTags(form.tagsInput))
    ensures r.Some? ==> (r.value.oaDeadline.Null? <==> form.oaDeadline.text == [])
    ensures r.Some? && form.oaDeadline.text != [] ==> r.value.oaDeadline == JobsApi.Given(form.oaDeadline)
    ensures r.Some? ==> (r.value.interviewDate.Null? <==> form.interviewDate.text == [])
    ensures r.Some? && form.interviewDate.text != [] ==>
      r.value.interviewDate == JobsApi.Given(form.interviewDate)
    ensures r.Some? ==>
      (r.value.reminderDaysBefore.Null? <==> ParseReminder(form.reminderInput, form.reminderNumber).None?)
    ensures r.Some? && ParseReminder(form.reminderInput, form.reminderNumber).Some? ==>
      r.value.reminderDaysBefore == JobsApi.Given(ParseReminder(form.reminderInput, form.reminderNumber).value)
  {
    if Trim(form.company) == [] || Trim(form.role) == [] then None
    else
      Some(JobsApi.CreateBody(
        JobsApi.Given(Trim(form.company)),
        JobsApi.Given(Trim(form.role)),
        TrimmedOrNull(form.url),
        JobsApi.Given(StatusName(form.status)),
        JobsApi.Given(PriorityName(form.priority)),
        JobsApi.Given(form.dateApplied),
        TrimmedOrNull(form.notes),
        JobsApi.Given(ParseTags(form.tagsInput)),
        DateOrNull(form.oaDeadline),
        DateOrNull(form.interviewDate),
        match ParseReminder(form.reminderInput, form.reminderNumber)
        case None => JobsApi.Null
        case Some(n) => JobsApi.Given(n)))
  }

  /** A date input gives either nothing or a date that parses. */
  predicate DateInputOk(d: DateText) {
    d.text == [] || d.time.Some?
  }

  /**
   * The form and the endpoint agree: a form that is sent by a signed-in user, with date inputs
   * that parse, is always created, and the new record holds the trimmed company, role, url and
   * notes (none when blank), the chosen status and priority, the application date (the time of
   * the date input, or the request time when it is empty or does not parse), the parsed tags,
   * the deadlines (none when empty) and the parsed reminder.
   */
  lemma SubmittedFormIsCreated(form: Form, caller: JobsApi.Caller, now: int, newId: string)
    requires SubmitBody(form).Some? && JobsApi.HasId(caller)
    requires DateInputOk(form.oaDeadline) && DateInputOk(form.interviewDate)
    ensures var r := JobsApi.Create(caller, SubmitBody(form), now, newId);
      && r.Created?
      && r.job.company == Trim(form.company) && r.job.role == Trim(form.role)
      && r.job.status == form.status && r.job.priority == form.priority
      && r.job.tags == ParseTags(form.tagsInput)
      && r.job.reminderDaysBefore == ParseReminder(form.reminderInput, form.reminderNumber)
      && (r.job.url.None? <==> Trim(form.url) == [])
      && (r.job.url.Some? ==> r.job.url.value == Trim(form.url))
      && (r.job.notes.None? <==> Trim(form.notes) == [])
      && (r.job.notes.Some? ==> r.job.notes.value == Trim(form.notes))
      && (form.dateApplied.text != [] && form.dateApplied.time.Some? ==>
          r.job.dateApplied == form.dateApplied.time.value)
      && (form.dateApplied.text == [] || form.dateApplied.time.None? ==> r.job.dateApplied == now)
      && (r.job.oaDeadline.None? <==> form.oaDeadline.text == [])
      && (form.oaDeadline.text != [] ==> r.job.oaDeadline == form.oaDeadline.time)
      && (r.job.interviewDate.None? <==> form.interviewDate.text == [])
      && (form.interviewDate.text != [] ==> r.job.interviewDate == form.interviewDate.time)
  {
    var b := SubmitBody(form).value;
    assert JobsApi.StatusOf(b.status) == Some(form.status);
    assert JobsApi.PriorityOf(b.priority) == Some(form.priority);
    assert JobsApi.Accepted(b);
    var job := JobsApi.Record(b, caller.id, now, newId);
    assert JobsApi.Create(caller, SubmitBody(form), now, newId) == JobsApi.Created(job);
    var reminder := ParseReminder(form.reminderInput, form.reminderNumber);
    assert b.reminderDaysBefore == if reminder.Some? then JobsApi.Given(reminder.value) else JobsApi.Null;
    assert job.reminderDaysBefore == reminder;
  }

  // ---------------------------------------------------------------- the page's job list

  /**
   * `prev.map((j) => (j.id === id ? replacement : j))`: the jobs with that id become the
   * replacement, the others stay in place, and a list without that id is unchanged.
   */
  function ReplaceById(jobs: seq<Job>, id: string, replacement: Job): (r: seq<Job>)
    ensures |r| == |jobs|
    ensures forall k :: 0 <= k < |jobs| && jobs[k].id == id ==> r[k] == replacement
    ensures forall k :: 0 <= k < |jobs| && jobs[k].id != id ==> r[k] == jobs[k]
    ensures (forall k :: 0 <= k < |jobs| ==> jobs[k].id != id) ==> r == jobs
  {
    seq(|jobs|, k requires 0 <= k < |jobs| => if jobs[k].id == id then replacement else jobs[k])
  }

  /** `prev.filter((j) => j.id !== id)`: no job with that id is left. */
  function WithoutId(jobs: seq<Job>, id: string): (r: seq<Job>)
    ensures |r| <= |jobs|
    ensures forall k :: 0 <= k < |r| ==> r[k].id != id
  {
    if jobs == [] then []
    else (if jobs[0].id != id then [jobs[0]] else []) + WithoutId(jobs[1..], id)
  }

  /** Removing an id the list does not hold changes nothing. */
  lemma {:induction false} WithoutAbsentId(jobs: seq<Job>, id: string)
    requires forall k :: 0 <= k < |jobs| ==> jobs[k].id != id
    ensures WithoutId(jobs, id) == jobs
  {
    if jobs != [] {
      assert jobs[0].id != id;
      WithoutAbsentId(jobs[1..], id);
      assert jobs == [jobs[0]] + jobs[1..];
    }
  }

  /** Exactly the jobs with another id are kept. */
  lemma {:induction false} WithoutIdMembers(jobs: seq<Job>, id: string, x: Job)
    ensures x in WithoutId(jobs, id) <==> x in jobs && x.id != id
  {
    if jobs != [] {
      WithoutIdMembers(jobs[1..], id, x);
      assert jobs == [jobs[0]] + jobs[1..];
    }
  }

  /** Removal works piece by piece, so the kept jobs stay in their order. */
  lemma {:induction false} WithoutIdAppend(a: seq<Job>, b: seq<Job>, id: string)
    ensures WithoutId(a + b, id) == WithoutId(a, id) + WithoutId(b, id)
  {
    if a == [] {
      assert a + b == b;
    } else {
      var head := if a[0].id != id then [a[0]] else [];
      WithoutIdAppend(a[1..], b, id);
      assert (a + b)[0] == a[0];
      assert (a + b)[1..] == a[1..] + b;
      assert WithoutId(a + b, id) == head + WithoutId(a[1..] + b, id);
      assert WithoutId(a, id) == head + WithoutId(a[1..], id);
    }
  }

  /** No two jobs of the list share an id. */
  ghost predicate UniqueIds(jobs: seq<Job>) {
    forall i, k :: 0 <= i < k < |jobs| ==> jobs[i].id != jobs[k].id
  }

  /** Replacing a job by one with the same id keeps the ids unique, and every other job unchanged. */
  lemma ReplaceKeepsIds(jobs: seq<Job>, replacement: Job)
    requires UniqueIds(jobs)
    ensures UniqueIds(ReplaceById(jobs, replacement.id, replacement))
    ensures forall k :: 0 <= k < |jobs| && jobs[k].id != replacement.id ==>
      ReplaceById(jobs, replacement.id, replacement)[k] == jobs[k]
  {
  }

  /** Removing by id keeps the ids unique. */
  lemma {:induction false} WithoutIdKeepsIds(jobs: seq<Job>, id: string)
    requires UniqueIds(jobs)
    ensures UniqueIds(WithoutId(jobs, id))
  {
    if jobs != [] {
      WithoutIdKeepsIds(jobs[1..], id);
      var rest := WithoutId(jobs[1..], id);
      forall x | x in rest ensures x in jobs[1..] {
        WithoutIdMembers(jobs[1..], id, x);
      }
      assert forall x :: x in jobs[1..] ==> x.id != jobs[0].id;
    }
  }

  /** The list of jobs the page holds; every server answer replaces it through `setJobs`. */
  class JobList {
    var jobs: seq<Job>

    constructor (initial: seq<Job>)
      ensures jobs == initial
    {
      jobs := initial;
    }

    /** After a successful edit: the job with the answer's id becomes the answer. */
    method ApplyUpdate(updated: Job)
      modifies this
      ensures jobs == ReplaceById(old(jobs), updated.id, updated)
      ensures UniqueIds(old(jobs)) ==> UniqueIds(jobs)
    {
      if UniqueIds(jobs) {
        ReplaceKeepsIds(jobs, updated);
      }
      jobs := ReplaceById(jobs, updated.id, updated);
    }

    /** After a successful status change of job `id`: that job becomes the server's answer. */
    method ApplyStatusChange(id: string, updated: Job)
      modifies this
      ensures jobs == ReplaceById(old(jobs), id, updated)
      ensures |jobs| == |old(jobs)|
      ensures forall k :: 0 <= k < |jobs| && old(jobs)[k].id != id ==> jobs[k] == old(jobs)[k]
    {
      jobs := ReplaceById(jobs, id, updated);
    }

    /** After a successful create: the new job first, the others after it in their order. */
    method AddCreated(created: Job)
      modifies this
      ensures jobs == [created] + old(jobs)
      ensures UniqueIds(old(jobs)) && (forall x :: x in old(jobs) ==> x.id != created.id) ==> UniqueIds(jobs)
    {
      jobs := [created] + jobs;
    }

    /** After a successful delete: exactly the jobs with that id are gone, the rest keep their order. */
    method RemoveDeleted(id: string)
      modifies this
      ensures jobs == WithoutId(old(jobs), id)
      ensures forall x :: x in jobs ==> x.id != id
      ensures UniqueIds(old(jobs)) ==> UniqueIds(jobs)
    {
      if UniqueIds(jobs) {
        WithoutIdKeepsIds(jobs, id);
      }
      forall x | x in WithoutId(jobs, id) ensures x.id != id {
        WithoutIdMembers(jobs, id, x);
      }
      jobs := WithoutId(jobs, id);
    }
  }
}
