/**
 * The contractor dashboard (src/pages/ContractorDashboard.tsx): the "my timesheets" filter, the
 * submission guard, id generation, the new pending entry, and the submit handler that appends it
 * to the stored list and resets the form.
 */
module ContractorDashboard {
  import opened Wrappers
  import opened Seqs
  import opened Auth
  import opened Timesheets

  /**
   * The record belongs to the user: its contractor id is the user's id or its contractor name is
   * the user's name. Without a user, `user?.id` is undefined, which only a record stored without
   * a contractor id matches, and `user?.username` matches no name.
   */
  predicate BelongsTo(t: Timesheet, user: Option<User>) {
    match user
    case None => t.contractorId.None?
    case Some(u) => t.contractorId == Some(u.id) || t.contractorName == u.username
  }

  /**
   * `userTimesheets`: in stored order, exactly the records that belong to the user, each as often
   * as it is stored.
   */
  function UserTimesheets(ts: seq<Timesheet>, user: Option<User>): (r: seq<Timesheet>)
    ensures IsSubsequence(r, ts)
    ensures forall t :: t in r <==> t in ts && BelongsTo(t, user)
    ensures forall t :: multiset(r)[t] == if BelongsTo(t, user) then multiset(ts)[t] else 0
  {
    var p := (t: Timesheet) => BelongsTo(t, user);
    FilterIsSubsequence(ts, p);
    assert forall t :: multiset(Filter(ts, p))[t] == if p(t) then multiset(ts)[t] else 0 by {
      forall t ensures multiset(Filter(ts, p))[t] == if p(t) then multiset(ts)[t] else 0 {
        FilterMultiplicity(ts, p, t);
      }
    }
    Filter(ts, p)
  }

  /** The submission guard: a date, a project and a positive number of hours are required. */
  predicate IsValidForm(f: TimesheetFormData) {
    f.date != "" && f.project != "" && f.hoursWorked > 0.0
  }

  /** The largest stored id. */
  function MaxId(ts: seq<Timesheet>): (m: nat)
    requires |ts| > 0
    ensures forall i :: 0 <= i < |ts| ==> ts[i].id <= m
    ensures exists i :: 0 <= i < |ts| && ts[i].id == m
  {
    if |ts| == 1 then ts[0].id
    else
      var m := MaxId(ts[1..]);
      assert forall i :: 1 <= i < |ts| ==> ts[i] == ts[1..][i - 1];
      if ts[0].id < m then m else ts[0].id
  }

  /** The auto-increment id: 1 for an empty list, otherwise one more than the largest id. */
  function NextId(ts: seq<Timesheet>): (r: nat)
    ensures |ts| == 0 ==> r == 1
    ensures |ts| > 0 ==> exists i :: 0 <= i < |ts| && r == ts[i].id + 1
    ensures forall i :: 0 <= i < |ts| ==> ts[i].id < r
  {
    if |ts| > 0 then MaxId(ts) + 1 else 1
  }

  /** The new id is fresh: no stored record has it. */
  lemma NextIdIsFresh(ts: seq<Timesheet>)
    ensures forall t :: t in ts ==> t.id != NextId(ts)
  {
  }

  /** The name stamped on a new entry: the user's name, or "" without a user. */
  function SubmitterName(user: Option<User>): (r: string)
    ensures user.None? ==> r == ""
    ensures user.Some? ==> r == user.value.username
  {
    match user
    case None => ""
    case Some(u) => u.username
  }

  /**
   * The entry built from the form: pending and unreviewed, submitted at `now`, with the form's date,
   * project, hours and comments and the user's id and name. The form's own id, contractor id and
   * contractor name are not used.
   */
  function NewEntry(f: TimesheetFormData, user: Option<User>, id: nat, now: string): (r: Timesheet)
    ensures r.id == id && r.status == Pending && r.submittedAt == now
    ensures r.reviewedAt == None && r.reviewedBy == None
    ensures r.date == f.date && r.project == f.project && r.hoursWorked == f.hoursWorked && r.comments == f.comments
    ensures r.contractorId == (if user.Some? then Some(user.value.id) else None)
    ensures r.contractorName == SubmitterName(user)
  {
    Timesheet(
      id,
      if user.Some? then Some(user.value.id) else None,
      SubmitterName(user),
      f.date, f.project, f.hoursWorked, f.comments,
      Pending, now, None, None)
  }

  /** Appending the entry with the generated id keeps ids unique. */
  lemma SubmitKeepsIdsUnique(ts: seq<Timesheet>, f: TimesheetFormData, user: Option<User>, now: string)
    requires UniqueIds(ts)
    ensures UniqueIds(ts + [NewEntry(f, user, NextId(ts), now)])
  {
    var after := ts + [NewEntry(f, user, NextId(ts), now)];
    forall i, j | 0 <= i < j < |after| ensures after[i].id != after[j].id {
      if j == |ts| {
        assert after[i] == ts[i];
      }
    }
  }

  /** A submitted entry shows up, last, in the list of its submitter, and nothing else changes there. */
  lemma SubmittedEntryIsListed(ts: seq<Timesheet>, f: TimesheetFormData, user: Option<User>, id: nat, now: string)
    ensures UserTimesheets(ts + [NewEntry(f, user, id, now)], user) ==
            UserTimesheets(ts, user) + [NewEntry(f, user, id, now)]
  {
    var e := NewEntry(f, user, id, now);
    FilterAppend(ts, [e], (t: Timesheet) => BelongsTo(t, user));
  }

  /**
   * The dashboard's state: the list held in storage and the form. A submission reads and writes
   * the whole stored list.
   */
  class Dashboard {
    var timesheets: seq<Timesheet>
    var formData: TimesheetFormData
    var showForm: bool

    constructor (stored: seq<Timesheet>)
      ensures timesheets == stored && formData == BlankForm && !showForm
    {
      timesheets := stored;
      formData := BlankForm;
      showForm := false;
    }

    /**
     * `handleSubmit` at time `now`: an invalid form changes nothing; a valid one appends exactly
     * one new pending entry with the next id, resets the form and hides it.
     */
    method HandleSubmit(user: Option<User>, now: string) returns (submitted: bool)
      modifies this
      ensures submitted <==> IsValidForm(old(formData))
      ensures !submitted ==>
                timesheets == old(timesheets) && formData == old(formData) && showForm == old(showForm)
      ensures submitted ==>
                timesheets == old(timesheets) + [NewEntry(old(formData), user, NextId(old(timesheets)), now)] &&
                formData == BlankForm && !showForm
      ensures submitted && UniqueIds(old(timesheets)) ==> UniqueIds(timesheets)
    {
      if !IsValidForm(formData) {
        return false;
      }
      var newId := NextId(timesheets);
      var newEntry := NewEntry(formData, user, newId, now);
      if UniqueIds(timesheets) {
        SubmitKeepsIdsUnique(timesheets, formData, user, now);
      }
      timesheets := timesheets + [newEntry];
      formData := BlankForm;
      showForm := false;
      return true;
    }
  }
}
