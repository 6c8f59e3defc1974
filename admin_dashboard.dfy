/**
 * The record-list logic of the admin dashboard (src/pages/AdminDashboard.tsx): the search and
 * filter predicate, the approve / reject / review update, the per-status counts and the list of
 * contractor names offered by the contractor filter. The list read from storage is a parameter;
 * an update returns the list that would be written back.
 */
module AdminDashboard {
  import opened Wrappers
  import opened Seqs
  import opened Text
  import opened Timesheets

  /** The value of both select filters that disables them. */
  const All := "all"

  /** The name stamped on every reviewed record. */
  const Reviewer := "Admin User"

  datatype Action = Approve | Reject | Review

  // ---------------------------------------------------------------- search and filters

  /** The lower-cased search term occurs in the lower-cased contractor name, project or comments. */
  predicate MatchesSearch(t: Timesheet, searchTerm: string) {
    var term := ToLower(searchTerm);
    Includes(ToLower(t.contractorName), term) ||
    Includes(ToLower(t.project), term) ||
    Includes(ToLower(t.comments), term)
  }

  predicate MatchesStatus(t: Timesheet, statusFilter: string) {
    statusFilter == All || StatusName(t.status) == statusFilter
  }

  predicate MatchesContractor(t: Timesheet, contractorFilter: string) {
    contractorFilter == All || t.contractorName == contractorFilter
  }

  predicate Matches(t: Timesheet, searchTerm: string, statusFilter: string, contractorFilter: string) {
    MatchesSearch(t, searchTerm) && MatchesStatus(t, statusFilter) && MatchesContractor(t, contractorFilter)
  }

  /**
   * The table rows: the stored records that pass the search and both filters. They keep their
   * stored order, every matching record is shown as often as it is stored, and nothing else is.
   */
  function FilteredTimesheets(ts: seq<Timesheet>, searchTerm: string, statusFilter: string,
                              contractorFilter: string): (r: seq<Timesheet>)
    ensures IsSubsequence(r, ts)
    ensures forall t :: t in r <==> t in ts && Matches(t, searchTerm, statusFilter, contractorFilter)
    ensures forall t :: multiset(r)[t] ==
                        if Matches(t, searchTerm, statusFilter, contractorFilter) then multiset(ts)[t] else 0
  {
    var p := (t: Timesheet) => Matches(t, searchTerm, statusFilter, contractorFilter);
    FilterIsSubsequence(ts, p);
    assert forall t :: multiset(Filter(ts, p))[t] == if p(t) then multiset(ts)[t] else 0 by {
      forall t ensures multiset(Filter(ts, p))[t] == if p(t) then multiset(ts)[t] else 0 {
        FilterMultiplicity(ts, p, t);
      }
    }
    Filter(ts, p)
  }

  /** With an empty search term and both filters on "all", every stored record is shown. */
  lemma UnfilteredShowsAll(ts: seq<Timesheet>)
    ensures FilteredTimesheets(ts, "", All, All) == ts
  {
    var p := (t: Timesheet) => Matches(t, "", All, All);
    forall i | 0 <= i < |ts| ensures p(ts[i]) {
      IncludesEmpty(ToLower(ts[i].contractorName));
    }
    FilterKeepsAll(ts, p);
  }

  /**
   * Applying the three conditions as separate filters, one after the other, gives the table rows,
   * and the order in which they are applied does not matter.
   */
  lemma FiltersCompose(ts: seq<Timesheet>, searchTerm: string, statusFilter: string, contractorFilter: string)
    ensures FilteredTimesheets(ts, searchTerm, statusFilter, contractorFilter) ==
            Filter(Filter(Filter(ts, (t: Timesheet) => MatchesSearch(t, searchTerm)),
                          (t: Timesheet) => MatchesStatus(t, statusFilter)),
                   (t: Timesheet) => MatchesContractor(t, contractorFilter))
    ensures FilteredTimesheets(ts, searchTerm, statusFilter, contractorFilter) ==
            Filter(Filter(Filter(ts, (t: Timesheet) => MatchesContractor(t, contractorFilter)),
                          (t: Timesheet) => MatchesStatus(t, statusFilter)),
                   (t: Timesheet) => MatchesSearch(t, searchTerm))
  {
    var s := (t: Timesheet) => MatchesSearch(t, searchTerm);
    var st := (t: Timesheet) => MatchesStatus(t, statusFilter);
    var c := (t: Timesheet) => MatchesContractor(t, contractorFilter);
    var all := (t: Timesheet) => Matches(t, searchTerm, statusFilter, contractorFilter);
    var sst := (t: Timesheet) => s(t) && st(t);
    var stc := (t: Timesheet) => st(t) && c(t);
    FilterFilter(ts, s, st, sst);
    FilterFilter(ts, sst, c, all);
    FilterFilter(ts, st, c, stc);
    FilterFilter(ts, s, stc, all);
  }

  // ---------------------------------------------------------------- approve / reject / review

  /** The status an action sets, whatever the status was before. */
  function NextStatus(a: Action): Status {
    match a
    case Approve => Approved
    case Reject => Rejected
    case Review => Pending
  }

  /** A record after an admin action taken at time `now`. */
  function Reviewed(t: Timesheet, a: Action, now: string): (r: Timesheet)
    ensures r.status == NextStatus(a)
    ensures r.reviewedAt == Some(now) && r.reviewedBy == Some(Reviewer)
    ensures r.id == t.id && r.contractorId == t.contractorId && r.contractorName == t.contractorName
    ensures r.date == t.date && r.project == t.project && r.hoursWorked == t.hoursWorked
    ensures r.comments == t.comments && r.submittedAt == t.submittedAt
  {
    t.(status := NextStatus(a), reviewedAt := Some(now), reviewedBy := Some(Reviewer))
  }

  /** `Array.prototype.find` by id: the first record with that id, if any. */
  function Find(ts: seq<Timesheet>, id: nat): (r: Option<Timesheet>)
    ensures r.None? <==> forall i :: 0 <= i < |ts| ==> ts[i].id != id
    ensures r.Some? ==> exists i :: 0 <= i < |ts| && ts[i] == r.value && r.value.id == id &&
                                    forall j :: 0 <= j < i ==> ts[j].id != id
  {
    if ts == [] then None
    else if ts[0].id == id then Some(ts[0])
    else
      var r := Find(ts[1..], id);
      if r.Some? then
        var i :| 0 <= i < |ts[1..]| && ts[1..][i] == r.value && r.value.id == id &&
                 forall j :: 0 <= j < i ==> ts[1..][j].id != id;
        assert ts[i + 1] == r.value && forall j :: 0 <= j < i + 1 ==> ts[j].id != id;
        r
      else r
  }

  /**
   * `handleAction`: `None` when no record has the id (nothing is written); otherwise the list to
   * write back, in which every record with that id has been reviewed and the others are untouched.
   */
  function HandleAction(ts: seq<Timesheet>, id: nat, a: Action, now: string): (r: Option<seq<Timesheet>>)
    ensures r.None? <==> forall i :: 0 <= i < |ts| ==> ts[i].id != id
    ensures r.Some? ==> |r.value| == |ts|
    ensures r.Some? ==> forall i :: 0 <= i < |ts| && ts[i].id != id ==> r.value[i] == ts[i]
    ensures r.Some? ==> forall i :: 0 <= i < |ts| && ts[i].id == id ==> r.value[i] == Reviewed(ts[i], a, now)
  {
    match Find(ts, id)
    case None => None
    case Some(_) => Some(seq(|ts|, i requires 0 <= i < |ts| => if ts[i].id == id then Reviewed(ts[i], a, now) else ts[i]))
  }

  /** The stored list after the action: the written list, or the old one when nothing was written. */
  function StoredAfter(ts: seq<Timesheet>, id: nat, a: Action, now: string): (r: seq<Timesheet>)
    ensures |r| == |ts|
    ensures forall i :: 0 <= i < |ts| ==> r[i] == if ts[i].id == id then Reviewed(ts[i], a, now) else ts[i]
  {
    match HandleAction(ts, id, a, now)
    case None => ts
    case Some(updated) => updated
  }

  /** Every record keeps its id and its position, so unique ids stay unique. */
  lemma ActionKeepsIds(ts: seq<Timesheet>, id: nat, a: Action, now: string)
    ensures |StoredAfter(ts, id, a, now)| == |ts|
    ensures forall i :: 0 <= i < |ts| ==> StoredAfter(ts, id, a, now)[i].id == ts[i].id
    ensures UniqueIds(ts) ==> UniqueIds(StoredAfter(ts, id, a, now))
  {
  }

  /** An action on an id no record has leaves the stored list as it is. */
  lemma ActionOnMissingIdChangesNothing(ts: seq<Timesheet>, id: nat, a: Action, now: string)
    requires forall t :: t in ts ==> t.id != id
    ensures HandleAction(ts, id, a, now).None?
    ensures StoredAfter(ts, id, a, now) == ts
  {
  }

  /** The action's effect depends only on the last action: repeating it only re-stamps the time. */
  lemma ActionIdempotent(ts: seq<Timesheet>, id: nat, a: Action, now: string, later: string)
    ensures StoredAfter(StoredAfter(ts, id, a, now), id, a, later) == StoredAfter(ts, id, a, later)
  {
    ActionKeepsIds(ts, id, a, now);
  }

  // ---------------------------------------------------------------- the status machine the table offers

  /** The action buttons shown in a row: approve and reject only on pending records, review always. */
  function OfferedActions(s: Status): (r: set<Action>)
    ensures Review in r
    ensures Approve in r <==> s == Pending
    ensures Reject in r <==> s == Pending
  {
    if s == Pending then {Approve, Reject, Review} else {Review}
  }

  /** A sequence of actions on one record, each offered by the status the record then has. */
  predicate OfferedTrace(s: Status, acts: seq<Action>)
    decreases |acts|
  {
    acts == [] || (acts[0] in OfferedActions(s) && OfferedTrace(NextStatus(acts[0]), acts[1..]))
  }

  /** The statuses a record passes through under a sequence of actions, starting with `s`. */
  function Path(s: Status, acts: seq<Action>): (r: seq<Status>)
    ensures |r| == |acts| + 1 && r[0] == s
    ensures forall k :: 0 <= k < |acts| ==> r[k + 1] == NextStatus(acts[k])
    decreases |acts|
  {
    [s] + if acts == [] then [] else Path(NextStatus(acts[0]), acts[1..])
  }

  /**
   * Through the buttons, a record that is approved or rejected can only be sent back to pending
   * by a review: the other terminal status is never reached in one step.
   */
  lemma {:induction false} TerminalOnlyLeavesByReview(s: Status, acts: seq<Action>)
    requires OfferedTrace(s, acts)
    ensures forall k :: 0 <= k < |acts| && Path(s, acts)[k] != Pending ==>
              acts[k] == Review && Path(s, acts)[k + 1] == Pending
    decreases |acts|
  {
    if acts != [] {
      TerminalOnlyLeavesByReview(NextStatus(acts[0]), acts[1..]);
      var p := Path(s, acts);
      assert p[1..] == Path(NextStatus(acts[0]), acts[1..]);
      forall k | 0 <= k < |acts| && p[k] != Pending ensures acts[k] == Review && p[k + 1] == Pending {
        if k > 0 {
          assert p[k] == p[1..][k - 1];
        }
      }
    }
  }

  /** Going from approved to rejected (or back) through the buttons passes through pending. */
  lemma {:induction false} TerminalSwitchPassesPending(s: Status, acts: seq<Action>)
    requires OfferedTrace(s, acts)
    requires s != Pending && Path(s, acts)[|acts|] != Pending && Path(s, acts)[|acts|] != s
    ensures exists k :: 0 < k < |acts| && Path(s, acts)[k] == Pending
  {
    TerminalOnlyLeavesByReview(s, acts);
    assert acts != [];
    assert Path(s, acts)[1] == Pending;
  }

  // ---------------------------------------------------------------- counts and contractor list

  datatype StatusCounts = StatusCounts(pending: nat, approved: nat, rejected: nat)

  /** How many stored records have status `s`; zero exactly when none has it. */
  function CountStatus(ts: seq<Timesheet>, s: Status): (r: nat)
    ensures r <= |ts|
    ensures r == 0 <==> forall i :: 0 <= i < |ts| ==> ts[i].status != s
  {
    var kept := Filter(ts, (t: Timesheet) => t.status == s);
    assert (exists i :: 0 <= i < |ts| && ts[i].status == s) ==> kept != [] by {
      if i :| 0 <= i < |ts| && ts[i].status == s {
        assert ts[i] in kept;
      }
    }
    assert kept != [] ==> exists i :: 0 <= i < |ts| && ts[i].status == s by {
      if kept != [] {
        assert kept[0] in ts && kept[0].status == s;
        var i :| 0 <= i < |ts| && ts[i] == kept[0];
      }
    }
    |kept|
  }

  lemma {:induction false} CountsPartition(ts: seq<Timesheet>)
    ensures CountStatus(ts, Pending) + CountStatus(ts, Approved) + CountStatus(ts, Rejected) == |ts|
  {
    if ts != [] {
      CountsPartition(ts[1..]);
    }
  }

  /** The status filter on its own (empty search, any contractor) shows `CountStatus` rows. */
  lemma CountIsStatusFilterSize(ts: seq<Timesheet>, s: Status)
    ensures CountStatus(ts, s) == |FilteredTimesheets(ts, "", StatusName(s), All)|
  {
    forall i | 0 <= i < |ts|
      ensures (ts[i].status == s) == Matches(ts[i], "", StatusName(s), All)
    {
      IncludesEmpty(ToLower(ts[i].contractorName));
      StatusNameInjective(ts[i].status, s);
    }
    FilterAgree(ts, (t: Timesheet) => t.status == s, (t: Timesheet) => Matches(t, "", StatusName(s), All));
  }

  /** `getStatusCounts`: the three counts cover the list, each is the size of its status filter. */
  function GetStatusCounts(ts: seq<Timesheet>): (r: StatusCounts)
    ensures r.pending + r.approved + r.rejected == |ts|
    ensures r.pending == |FilteredTimesheets(ts, "", "pending", All)|
    ensures r.approved == |FilteredTimesheets(ts, "", "approved", All)|
    ensures r.rejected == |FilteredTimesheets(ts, "", "rejected", All)|
  {
    CountsPartition(ts);
    CountIsStatusFilterSize(ts, Pending);
    CountIsStatusFilterSize(ts, Approved);
    CountIsStatusFilterSize(ts, Rejected);
    StatusCounts(CountStatus(ts, Pending), CountStatus(ts, Approved), CountStatus(ts, Rejected))
  }

  function ContractorNames(ts: seq<Timesheet>): (r: seq<string>)
    ensures |r| == |ts| && forall i :: 0 <= i < |ts| ==> r[i] == ts[i].contractorName
  {
    seq(|ts|, i requires 0 <= i < |ts| => ts[i].contractorName)
  }

  /**
   * The contractor filter's options: each contractor name once, in the order the names first
   * appear in the stored list, and exactly the names some record carries.
   */
  function Contractors(ts: seq<Timesheet>): (r: seq<string>)
    ensures NoDuplicates(r)
    ensures forall n :: n in r <==> exists i :: 0 <= i < |ts| && ts[i].contractorName == n
    ensures IsSubsequence(r, ContractorNames(ts))
    ensures forall i, j :: 0 <= i < j < |r| ==>
              exists k :: 0 <= k < |ts| && ts[k].contractorName == r[i] &&
                          forall m :: 0 <= m < k ==> ts[m].contractorName != r[j]
  {
    var names := ContractorNames(ts);
    DistinctIsSubsequence(names);
    DistinctOrder(names);
    var r := Distinct(names);
    assert forall n :: n in r <==> n in names;
    assert forall k :: 0 <= k <= |ts| ==> forall n :: n in names[..k] <==> exists m :: 0 <= m < k && ts[m].contractorName == n;
    r
  }

  /** Admin actions never add or remove a contractor name. */
  lemma ActionKeepsContractors(ts: seq<Timesheet>, id: nat, a: Action, now: string)
    ensures Contractors(StoredAfter(ts, id, a, now)) == Contractors(ts)
  {
    assert ContractorNames(StoredAfter(ts, id, a, now)) == ContractorNames(ts);
  }
}
