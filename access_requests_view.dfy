/** The access requests page (`AccessRequests`): HR users see the registration requests with
    their statistics, filter them by status and department, and approve or reject pending
    ones; a rejection needs a reason. Server answers are inputs. */
module AccessRequestsView {
  import opened Wrappers
  import opened Text
  import Store
  import Session
  import Layout
  import Approvals

  /** A request as the listing shows it. */
  datatype ClientRequest = ClientRequest(
    id: int, userName: string, userEmail: string, department: string, requestedRole: string,
    status: string, approverName: Option<string>)

  /** `'all'`, the value of both filters that lets every request through. */
  const All := "all"

  /** A request passes when each filter is `all` or equals its field. */
  predicate Passes(request: ClientRequest, status: string, department: string)
  {
    (status == All || request.status == status) && (department == All || request.department == department)
  }

  function RequestFilter(status: string, department: string): ClientRequest -> bool
  {
    (request: ClientRequest) => Passes(request, status, department)
  }

  /** `filteredRequests`: the passing requests, in the server's order. */
  function FilteredRequests(requests: seq<ClientRequest>, status: string, department: string): (r: seq<ClientRequest>)
    ensures forall x :: x in r ==> x in requests && Passes(x, status, department)
    ensures forall x :: x in requests && Passes(x, status, department) ==> x in r
  {
    Store.Filter(requests, RequestFilter(status, department))
  }

  /** With both filters at `all` every request is listed, in order. */
  lemma AllListsEverything(requests: seq<ClientRequest>)
    ensures FilteredRequests(requests, All, All) == requests
  {
    Store.FilterAll(requests, RequestFilter(All, All));
  }

  /** The notice when nothing is listed: a hint about the filters while one is set. */
  function EmptyListNotice(status: string, department: string): (r: string)
    ensures r == "Try adjusting your filters" <==> status != All || department != All
    ensures r != "Try adjusting your filters" ==> r == "All access requests have been processed"
  {
    if status != All || department != All then "Try adjusting your filters"
    else "All access requests have been processed"
  }

  /** `getStatusColor`. */
  function StatusColor(status: string): (r: string)
    ensures status == "pending" ==> r == "bg-yellow-100 text-yellow-800"
    ensures status == "approved" ==> r == "bg-green-100 text-green-800"
    ensures status == "rejected" ==> r == "bg-red-100 text-red-800"
    ensures status !in {"pending", "approved", "rejected"} ==> r == "bg-gray-100 text-gray-800"
  {
    match status
    case "pending" => "bg-yellow-100 text-yellow-800"
    case "approved" => "bg-green-100 text-green-800"
    case "rejected" => "bg-red-100 text-red-800"
    case _ => "bg-gray-100 text-gray-800"
  }

  /** What a row's last cell offers: the two buttons for a pending request, who decided for
      a decided one, nothing otherwise. */
  datatype RowActions = Decide | DecidedBy(text: string) | NoActions

  function ActionsOf(request: ClientRequest): (r: RowActions)
    ensures r.Decide? <==> request.status == "pending"
    ensures request.status == "approved" ==> r == DecidedBy("Approved by " + OrElse(request.approverName, "HR"))
    ensures request.status == "rejected" ==> r == DecidedBy("Rejected by " + OrElse(request.approverName, "HR"))
    ensures r.NoActions? <==> request.status !in {"pending", "approved", "rejected"}
  {
    match request.status
    case "pending" => Decide
    case "approved" => DecidedBy("Approved by " + OrElse(request.approverName, "HR"))
    case "rejected" => DecidedBy("Rejected by " + OrElse(request.approverName, "HR"))
    case _ => NoActions
  }

  /** The statistics cards: a count the server did not send (or sent as 0) shows 0. */
  function StatShown(stats: map<string, int>, key: string): (r: int)
    ensures key in stats ==> r == stats[key]
    ensures key !in stats ==> r == 0
  {
    if key in stats then stats[key] else 0
  }

  /** The body of a rejection. */
  function RejectBody(reason: string): (d: Store.Body)
    ensures d.Keys == {"rejection_reason"} && d["rejection_reason"] == reason
  {
    map["rejection_reason" := reason]
  }

  /** A rejection sent from this page stores the reason typed, not the server's default. */
  lemma RejectionStoresTheTypedReason(db: Store.Db, me: int, requestId: int, reason: string, now: int)
    requires Approvals.Reject(db, me, requestId, Some(RejectBody(reason)), now).0.code == 200
    ensures var after := Approvals.Reject(db, me, requestId, Some(RejectBody(reason)), now).1;
      var k := Store.FindRequest(db.requests, requestId).value;
      k < |after.requests| && after.requests[k].rejectionReason == Some(reason)
      && after.requests[k].status == "rejected"
  {
  }

  /** What `fetch` gives back: a network failure or a body that is not JSON, or a status and
      the `error` field of the body. */
  datatype Answer = Unreachable | Answer(ok: bool, error: Option<string>)

  /** The toast after a decision. */
  function DecisionNotice(answer: Answer, done: string, failed: string, broken: string): (r: string)
    ensures answer.Answer? && answer.ok ==> r == done
    ensures answer.Answer? && !answer.ok ==> r == OrElse(answer.error, failed)
    ensures answer.Unreachable? ==> r == broken
  {
    match answer
    case Unreachable => broken
    case Answer(ok, error) => if ok then done else OrElse(error, failed)
  }

  /** The listing's answer: the requests, a refusal, or a failure. */
  datatype ListAnswer = ListFailed | ListRefused | Listed(rows: seq<ClientRequest>)

  class AccessRequestsPage {
    var requests: seq<ClientRequest>
    var stats: map<string, int>
    var loading: bool
    var filterStatus: string
    var filterDepartment: string
    var rejectionReason: string
    var selected: Option<ClientRequest>
    var showRejectModal: bool

    /** The rejection dialog is open only on a selected request. */
    predicate DialogHasRequest()
      reads this
    {
      showRejectModal ==> selected.Some?
    }

    constructor()
      ensures requests == [] && stats == map[] && loading && filterStatus == All && filterDepartment == All
      ensures rejectionReason == "" && selected.None? && !showRejectModal
      ensures DialogHasRequest()
    {
      requests, stats, loading := [], map[], true;
      filterStatus, filterDepartment := All, All;
      rejectionReason, selected, showRejectModal := "", None, false;
    }

    /** The effect on arriving: only HR users fetch the requests and the statistics. */
    method Arrive(user: Option<Session.User>) returns (fetch: bool)
      ensures fetch == Layout.HasHrAccess(user)
    {
      fetch := Layout.HasHrAccess(user);
    }

    /** `fetchAccessRequests` finishing: the list is replaced only by a successful answer, the
        spinner stops either way. */
    method RequestsLoaded(answer: ListAnswer) returns (notice: Option<string>)
      modifies this
      ensures requests == (if answer.Listed? then answer.rows else old(requests)) && !loading
      ensures answer.Listed? <==> notice.None?
      ensures answer.ListRefused? ==> notice == Some("Failed to fetch access requests")
      ensures answer.ListFailed? ==> notice == Some("Error fetching access requests")
      ensures stats == old(stats) && filterStatus == old(filterStatus) && filterDepartment == old(filterDepartment)
      ensures rejectionReason == old(rejectionReason) && selected == old(selected) && showRejectModal == old(showRejectModal)
    {
      match answer {
        case Listed(rows) =>
          requests := rows;
          notice := None;
        case ListRefused =>
          notice := Some("Failed to fetch access requests");
        case ListFailed =>
          notice := Some("Error fetching access requests");
      }
      loading := false;
    }

    /** `fetchStats` finishing; a failure keeps the old counts silently. */
    method StatsLoaded(answer: Option<map<string, int>>)
      modifies this
      ensures stats == (if answer.Some? then answer.value else old(stats))
      ensures requests == old(requests) && loading == old(loading)
      ensures filterStatus == old(filterStatus) && filterDepartment == old(filterDepartment)
      ensures rejectionReason == old(rejectionReason) && selected == old(selected) && showRejectModal == old(showRejectModal)
    {
      if answer.Some? {
        stats := answer.value;
      }
    }

    /** `handleApprove`: the approval is always sent; a success fetches both lists again. */
    method Approve(requestId: int, answer: Answer) returns (call: int, refetch: bool, notice: string)
      ensures call == requestId
      ensures refetch <==> answer.Answer? && answer.ok
      ensures notice == DecisionNotice(answer, "Access request approved successfully", "Failed to approve request",
        "Error approving request")
    {
      call := requestId;
      refetch := answer.Answer? && answer.ok;
      notice := DecisionNotice(answer, "Access request approved successfully", "Failed to approve request",
        "Error approving request");
    }

    /** `openRejectModal`. */
    method OpenRejectModal(request: ClientRequest)
      modifies this
      ensures selected == Some(request) && showRejectModal && DialogHasRequest()
      ensures requests == old(requests) && stats == old(stats) && loading == old(loading)
      ensures filterStatus == old(filterStatus) && filterDepartment == old(filterDepartment)
      ensures rejectionReason == old(rejectionReason)
    {
      selected := Some(request);
      showRejectModal := true;
    }

    /** Typing in the reason box. */
    method TypeReason(text: string)
      modifies this
      ensures rejectionReason == text
      ensures requests == old(requests) && stats == old(stats) && loading == old(loading)
      ensures filterStatus == old(filterStatus) && filterDepartment == old(filterDepartment)
      ensures selected == old(selected) && showRejectModal == old(showRejectModal)
    {
      rejectionReason := text;
    }

    /** `handleReject` from the dialog's button. A blank reason is refused before anything is
        sent; otherwise the reason is sent as typed, and a success closes and clears the
        dialog and fetches again. */
    method Reject(answer: Answer) returns (sent: Option<(int, Store.Body)>, refetch: bool, notice: string)
      requires showRejectModal && DialogHasRequest()
      modifies this
      ensures sent.None? <==> IsJsBlank(old(rejectionReason))
      ensures sent.None? ==> notice == "Please provide a rejection reason"
      ensures sent.Some? ==> sent.value == (old(selected).value.id, RejectBody(old(rejectionReason)))
      ensures sent.Some? ==> notice == DecisionNotice(answer, "Access request rejected successfully",
        "Failed to reject request", "Error rejecting request")
      ensures refetch <==> sent.Some? && answer.Answer? && answer.ok
      ensures refetch ==> !showRejectModal && rejectionReason == "" && selected.None?
      ensures !refetch ==>
        showRejectModal == old(showRejectModal) && rejectionReason == old(rejectionReason) && selected == old(selected)
      ensures DialogHasRequest()
      ensures requests == old(requests) && stats == old(stats) && loading == old(loading)
      ensures filterStatus == old(filterStatus) && filterDepartment == old(filterDepartment)
    {
      var requestId := selected.value.id;
      if IsJsBlank(rejectionReason) {
        return None, false, "Please provide a rejection reason";
      }
      sent := Some((requestId, RejectBody(rejectionReason)));
      refetch := answer.Answer? && answer.ok;
      notice := DecisionNotice(answer, "Access request rejected successfully", "Failed to reject request",
        "Error rejecting request");
      if refetch {
        showRejectModal, rejectionReason, selected := false, "", None;
      }
    }

    /** The dialog's Cancel button. */
    method CancelReject()
      modifies this
      ensures !showRejectModal && rejectionReason == "" && selected.None? && DialogHasRequest()
      ensures requests == old(requests) && stats == old(stats) && loading == old(loading)
      ensures filterStatus == old(filterStatus) && filterDepartment == old(filterDepartment)
    {
      showRejectModal, rejectionReason, selected := false, "", None;
    }
  }
}
