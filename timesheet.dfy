/** The stored record and the submission form (src/types/timesheet.ts). */
module Timesheets {
  import opened Wrappers

  datatype Status = Pending | Approved | Rejected

  /** The string a status is stored and filtered under. */
  function StatusName(s: Status): (r: string)
    ensures r in {"pending", "approved", "rejected"}
  {
    match s
    case Pending => "pending"
    case Approved => "approved"
    case Rejected => "rejected"
  }

  /** Distinct statuses have distinct names, and none of them is the "all" filter value. */
  lemma StatusNameInjective(s: Status, t: Status)
    ensures StatusName(s) == StatusName(t) <==> s == t
    ensures StatusName(s) != "all"
  {
    assert "pending"[0] != "approved"[0] && "approved"[0] != "rejected"[0] && "pending"[0] != "rejected"[0];
    assert |"all"| != |StatusName(s)|;
  }

  /**
   * One hours-worked entry. Timesheet ids are natural numbers (the source stores their decimal
   * string); `contractorId` is `None` when the entry was submitted without a logged-in user.
   */
  datatype Timesheet = Timesheet(
    id: nat,
    contractorId: Option<string>,
    contractorName: string,
    date: string,
    project: string,
    hoursWorked: real,
    comments: string,
    status: Status,
    submittedAt: string,
    reviewedAt: Option<string>,
    reviewedBy: Option<string>)

  /** Contents of the submission form. */
  datatype TimesheetFormData = TimesheetFormData(
    id: int,
    contractorId: int,
    contractorName: string,
    date: string,
    project: string,
    hoursWorked: real,
    comments: string)

  /** The value the form starts with and is reset to after a submission. */
  const BlankForm := TimesheetFormData(0, 0, "", "", "", 0.0, "")

  /** The invariant the id generator is meant to keep: no two stored records share an id. */
  predicate UniqueIds(ts: seq<Timesheet>) {
    forall i, j :: 0 <= i < j < |ts| ==> ts[i].id != ts[j].id
  }
}
