/**
 * The kanban board (app/board/BoardClient.tsx): one column per status, each sorted by
 * application date; dragging a card to another place sets its status at once and puts the
 * old one back when the server refuses; each card shows its deadlines with a colour band.
 */
module Board {
  import opened Wrappers
  import opened Sorting
  import opened Domain
  import TableView

  /** Every status is one of the six columns. */
  lemma EveryStatusHasColumn(s: Status) returns (j: nat)
    ensures j < |StatusOrder| && StatusOrder[j] == s
  {
    match s
    case Applied => j := 0;
    case Shortlisted => j := 1;
    case OaAssigned => j := 2;
    case Interview => j := 3;
    case Selected => j := 4;
    case Rejected => j := 5;
  }

  /** The six columns are six different statuses. */
  lemma StatusOrderDistinct()
    ensures forall i, j :: 0 <= i < j < |StatusOrder| ==> StatusOrder[i] != StatusOrder[j]
  {
  }

  /** The first pass of `columns`: push every job onto the list of its status, in board order. */
  method GroupByStatus(jobs: seq<Job>) returns (columns: map<Status, seq<Job>>)
    ensures forall s :: s in columns && columns[s] == WithStatus(jobs, s)
  {
    columns := map[Applied := [], Shortlisted := [], OaAssigned := [],
                   Interview := [], Selected := [], Rejected := []];
    assert jobs[..0] == [];
    forall s ensures s in columns && columns[s] == [] {
      match s
      case Applied =>
      case Shortlisted =>
      case OaAssigned =>
      case Interview =>
      case Selected =>
      case Rejected =>
    }
    for i := 0 to |jobs|
      invariant forall s :: s in columns && columns[s] == WithStatus(jobs[..i], s)
    {
      var x := jobs[i];
      var next := columns[x.status := columns[x.status] + [x]];
      assert jobs[..i + 1] == jobs[..i] + [x];
      forall s ensures s in next && next[s] == WithStatus(jobs[..i + 1], s) {
        WithStatusSnoc(jobs[..i], x, s);
      }
      columns := next;
    }
    assert jobs[..|jobs|] == jobs;
  }

  /** The second pass of `columns`: sort each of the six lists by application date. */
  method SortColumns(groups: map<Status, seq<Job>>) returns (columns: map<Status, seq<Job>>)
    requires forall s :: s in groups
    ensures forall s :: s in columns && columns[s] == SortBy(groups[s], AppliedAt)
  {
    columns := groups;
    for k := 0 to |StatusOrder|
      invariant forall s :: s in columns
      invariant forall j :: 0 <= j < k ==> columns[StatusOrder[j]] == SortBy(groups[StatusOrder[j]], AppliedAt)
      invariant forall j :: k <= j < |StatusOrder| ==> columns[StatusOrder[j]] == groups[StatusOrder[j]]
    {
      var s := StatusOrder[k];
      var sorted := SortBy(columns[s], AppliedAt);
      StatusOrderDistinct();
      assert forall j :: 0 <= j < |StatusOrder| && j != k ==> StatusOrder[j] != s;
      columns := columns[s := sorted];
    }
    forall s ensures columns[s] == SortBy(groups[s], AppliedAt) {
      var j := EveryStatusHasColumn(s);
    }
  }

  /**
   * `columns`: each column holds exactly the jobs of its status, as often as the board does,
   * earliest application first, and the six columns together hold every job once.
   */
  method BuildColumns(jobs: seq<Job>) returns (columns: map<Status, seq<Job>>)
    ensures forall s :: s in columns && columns[s] == SortBy(WithStatus(jobs, s), AppliedAt)
    ensures forall s :: Ascending(columns[s], AppliedAt)
    ensures forall s, x :: multiset(columns[s])[x] == if x.status == s then multiset(jobs)[x] else 0
    ensures |columns[Applied]| + |columns[Shortlisted]| + |columns[OaAssigned]|
            + |columns[Interview]| + |columns[Selected]| + |columns[Rejected]| == |jobs|
  {
    var groups := GroupByStatus(jobs);
    columns := SortColumns(groups);
    forall s, x ensures multiset(columns[s])[x] == if x.status == s then multiset(jobs)[x] else 0 {
      WithStatusOccurrences(jobs, s, x);
    }
    StatusPartition(jobs);
  }

  // ---------------------------------------------------------------- drag and drop

  /** A place on the board: a column (its droppable id is the status name) and an index in it. */
  datatype Place = Place(column: Status, index: int)

  /** What the drag library reports at the end of a drag. */
  datatype DropResult = DropResult(draggableId: string, source: Place, destination: Option<Place>)

  /** `prev.map((job) => job.id === id ? { ...job, status } : job)`. */
  function SetStatus(jobs: seq<Job>, id: string, status: Status): (r: seq<Job>)
    ensures |r| == |jobs|
    ensures forall k :: 0 <= k < |jobs| ==> r[k].id == jobs[k].id
    ensures forall k :: 0 <= k < |jobs| && jobs[k].id == id ==> r[k].status == status
  {
    seq(|jobs|, k requires 0 <= k < |jobs| => if jobs[k].id == id then jobs[k].(status := status) else jobs[k])
  }

  /** Setting the status of card `id` changes that card's status and nothing else on the board. */
  lemma SetStatusEffect(jobs: seq<Job>, id: string, status: Status)
    ensures forall k :: 0 <= k < |jobs| && jobs[k].id == id ==>
      SetStatus(jobs, id, status)[k].status == status
      && SetStatus(jobs, id, status)[k] == jobs[k].(status := status)
    ensures forall k :: 0 <= k < |jobs| && jobs[k].id != id ==> SetStatus(jobs, id, status)[k] == jobs[k]
  {
  }

  /** A drag that ends outside any column, or where it started, does nothing. */
  predicate IsNoOp(drop: DropResult) {
    drop.destination.None? || drop.destination.value == drop.source
  }

  /**
   * Moving a card and then moving it back restores the board, provided every card with that id
   * was in the source column to begin with.
   */
  lemma RevertRestores(jobs: seq<Job>, id: string, source: Status, dest: Status)
    requires forall k :: 0 <= k < |jobs| && jobs[k].id == id ==> jobs[k].status == source
    ensures SetStatus(SetStatus(jobs, id, dest), id, source) == jobs
  {
    var back := SetStatus(SetStatus(jobs, id, dest), id, source);
    forall k | 0 <= k < |jobs| ensures back[k] == jobs[k] {
      if jobs[k].id == id {
        assert jobs[k].(status := source) == jobs[k];
      }
    }
  }

  /** After the move, each card with the dragged id sits in the destination column. */
  lemma DroppedCardInColumn(jobs: seq<Job>, id: string, dest: Status, k: nat)
    requires k < |jobs| && jobs[k].id == id
    ensures jobs[k].(status := dest) in SortBy(WithStatus(SetStatus(jobs, id, dest), dest), AppliedAt)
  {
    var moved := SetStatus(jobs, id, dest);
    assert moved[k] == jobs[k].(status := dest);
    WithStatusOccurrences(moved, dest, moved[k]);
    assert moved[k] in multiset(moved);
  }

  /** The board's cards. */
  class BoardState {
    var jobs: seq<Job>

    constructor (initial: seq<Job>)
      ensures jobs == initial
    {
      jobs := initial;
    }

    /**
     * `handleDragEnd`: a drag that ends outside a column or where it started sends nothing and
     * changes nothing. Otherwise the card takes the destination's status at once and a status
     * update is sent; `accepted` is whether the server answered with a success. On failure
     * the card takes the source column's status again, which restores the board when the card
     * was in the source column.
     */
    method HandleDragEnd(drop: DropResult, accepted: bool) returns (sent: Option<Status>)
      modifies this
      ensures IsNoOp(drop) ==> sent.None? && jobs == old(jobs)
      ensures !IsNoOp(drop) ==> sent == Some(drop.destination.value.column)
      ensures !IsNoOp(drop) && accepted ==>
        jobs == SetStatus(old(jobs), drop.draggableId, drop.destination.value.column)
      ensures !IsNoOp(drop) && !accepted ==>
        jobs == SetStatus(SetStatus(old(jobs), drop.draggableId, drop.destination.value.column),
                          drop.draggableId, drop.source.column)
      ensures !IsNoOp(drop) && !accepted
        && (forall k :: 0 <= k < |old(jobs)| && old(jobs)[k].id == drop.draggableId ==>
              old(jobs)[k].status == drop.source.column)
        ==> jobs == old(jobs)
    {
      if drop.destination.None? {
        return None;
      }
      var destination := drop.destination.value;
      if destination.column == drop.source.column && destination.index == drop.source.index {
        return None;
      }
      var sourceStatus := drop.source.column;
      var destStatus := destination.column;
      ghost var before := jobs;
      jobs := SetStatus(jobs, drop.draggableId, destStatus);
      sent := Some(destStatus);
      if !accepted {
        jobs := SetStatus(jobs, drop.draggableId, sourceStatus);
        if forall k :: 0 <= k < |before| && before[k].id == drop.draggableId ==> before[k].status == sourceStatus {
          RevertRestores(before, drop.draggableId, sourceStatus, destStatus);
        }
      }
    }
  }

  // ---------------------------------------------------------------- deadline badges

  /** The colour band of a deadline badge. */
  datatype Band = Overdue | Urgent | Soon | Calm

  /** Due or past (0 days or fewer), within two days, within a week, or later. */
  function Classify(daysLeft: int): (b: Band)
    ensures b == Overdue <==> daysLeft <= 0
    ensures b == Urgent <==> 1 <= daysLeft <= 2
    ensures b == Soon <==> 3 <= daysLeft <= 7
    ensures b == Calm <==> daysLeft > 7
  {
    if daysLeft <= 0 then Overdue
    else if daysLeft <= 2 then Urgent
    else if daysLeft <= 7 then Soon
    else Calm
  }

  function Severity(b: Band): nat {
    match b
    case Overdue => 3
    case Urgent => 2
    case Soon => 1
    case Calm => 0
  }

  /** A deadline that is nearer never gets a calmer band. */
  lemma ClassifyMonotone(nearer: int, later: int)
    requires nearer <= later
    ensures Severity(Classify(nearer)) >= Severity(Classify(later))
  {
  }

  /** One badge: which deadline, when, the days left and the band. */
  datatype Badge = Badge(kind: DeadlineKind, time: int, daysLeft: int, band: Band)

  /** The badge of one deadline, if it is set and parseable. */
  function BadgeFor(kind: DeadlineKind, d: Option<DateText>, now: int): (r: seq<Badge>)
    ensures r != [] <==> DeadlineTime(d).Some?
    ensures r != [] ==> |r| == 1 && r[0].kind == kind && r[0].time == DeadlineTime(d).value
    ensures forall b :: b in r ==> b.daysLeft == DaysUntil(b.time, now) && b.band == Classify(b.daysLeft)
  {
    match DeadlineTime(d)
    case None => []
    case Some(t) => [Badge(kind, t, DaysUntil(t, now), Classify(DaysUntil(t, now)))]
  }

  /**
   * `b` is the badge of one of the job's usable deadlines: of that kind, at that deadline's time,
   * with the days left until it and the band of those days.
   */
  predicate IsBadgeOf(j: Job, now: int, b: Badge) {
    && ((b.kind == OnlineAssessment && DeadlineTime(j.oaDeadline) == Some(b.time))
        || (b.kind == InterviewRound && DeadlineTime(j.interviewDate) == Some(b.time)))
    && b.daysLeft == DaysUntil(b.time, now)
    && b.band == Classify(b.daysLeft)
  }

  /**
   * `DeadlineRow`: the assessment's badge, then the interview's; nothing at all when neither
   * deadline is set and parseable.
   */
  function DeadlineBadges(j: Job, now: int): (r: seq<Badge>)
    ensures r == [] <==> DeadlineTime(j.oaDeadline).None? && DeadlineTime(j.interviewDate).None?
    ensures |r| <= 2
    ensures |r| == 2 ==> r[0].kind == OnlineAssessment && r[1].kind == InterviewRound
    ensures forall b :: b in r <==> IsBadgeOf(j, now, b)
  {
    BadgeFor(OnlineAssessment, j.oaDeadline, now) + BadgeFor(InterviewRound, j.interviewDate, now)
  }

  /**
   * The table's reminders and the board's badges agree: with a window of at most two days,
   * every deadline the table reminds of shows on the board with the same days left, in the
   * overdue or the urgent band.
   */
  lemma ReminderHasBadge(j: Job, now: int, e: TableView.Entry)
    requires e in TableView.DueEntries(j, now)
    requires TableView.ReminderWindow(j) <= 2
    ensures Badge(e.kind, e.time, e.diffDays, Classify(e.diffDays)) in DeadlineBadges(j, now)
    ensures Classify(e.diffDays) == Overdue || Classify(e.diffDays) == Urgent
  {
    var w := TableView.ReminderWindow(j);
    var oa := TableView.DueEntry(OnlineAssessment, j.oaDeadline, w, now);
    var iv := TableView.DueEntry(InterviewRound, j.interviewDate, w, now);
    assert TableView.DueEntries(j, now) == oa + iv;
    var oaBadge := BadgeFor(OnlineAssessment, j.oaDeadline, now);
    var ivBadge := BadgeFor(InterviewRound, j.interviewDate, now);
    assert DeadlineBadges(j, now) == oaBadge + ivBadge;
    if e in oa {
      assert oaBadge[0] in oaBadge + ivBadge;
    } else {
      assert e in iv;
      assert ivBadge[0] in oaBadge + ivBadge;
    }
  }
}
