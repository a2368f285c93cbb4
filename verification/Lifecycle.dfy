/** The document and analysis-job life cycles: transition tables, action
    predicates, and the document status that mirrors a job status. */
module Options {
  datatype Option<+T> = None | Some(value: T)
}

module Lifecycle {
  datatype DocumentStatus = Draft | InProgress | AwaitingApproval | Ready

  datatype JobStatus =
    | Pending
    | Dispatched
    | Processing
    | Success
    | PartialSuccess
    | Failed
    | Cancelled

  function DocumentTargets(current: DocumentStatus): set<DocumentStatus> {
    match current
    case Draft => {Draft, InProgress}
    case InProgress => {AwaitingApproval, Ready, Draft}
    case AwaitingApproval => {Ready, Draft, AwaitingApproval}
    case Ready => {Draft, AwaitingApproval}
  }

  function JobTargets(current: JobStatus): set<JobStatus> {
    match current
    case Pending => {JobStatus.Dispatched, JobStatus.Failed, JobStatus.Cancelled}
    case Dispatched => {JobStatus.Processing, Success, PartialSuccess, JobStatus.Failed, JobStatus.Cancelled}
    case Processing => {Success, PartialSuccess, JobStatus.Failed, JobStatus.Cancelled}
    case _ => {}
  }

  predicate IsActive(status: JobStatus) {
    status in {JobStatus.Pending, JobStatus.Dispatched, JobStatus.Processing}
  }

  predicate IsTerminal(status: JobStatus) {
    status in {Success, PartialSuccess, JobStatus.Failed, JobStatus.Cancelled}
  }

  lemma ActiveXorTerminal(status: JobStatus)
    ensures IsActive(status) <==> !IsTerminal(status)
    ensures IsTerminal(status) <==> JobTargets(status) == {}
  {
    match status {
      case Pending => assert JobStatus.Failed in JobTargets(status);
      case Dispatched => assert JobStatus.Failed in JobTargets(status);
      case Processing => assert JobStatus.Failed in JobTargets(status);
      case _ =>
    }
  }

  /** The two tables read by target: from where each status can be reached. */
  lemma TransitionsByTarget(document: DocumentStatus, job: JobStatus)
    ensures Draft in DocumentTargets(document)
    ensures InProgress in DocumentTargets(document) <==> document == Draft
    ensures AwaitingApproval in DocumentTargets(document) <==> document != Draft
    ensures Ready in DocumentTargets(document) <==> document in {InProgress, AwaitingApproval}
    ensures JobStatus.Pending !in JobTargets(job)
    ensures JobStatus.Dispatched in JobTargets(job) <==> job == JobStatus.Pending
    ensures JobStatus.Processing in JobTargets(job) <==> job == JobStatus.Dispatched
    ensures Success in JobTargets(job) <==> job in {JobStatus.Dispatched, JobStatus.Processing}
    ensures PartialSuccess in JobTargets(job) <==> job in {JobStatus.Dispatched, JobStatus.Processing}
    ensures JobStatus.Failed in JobTargets(job) <==>
      job in {JobStatus.Pending, JobStatus.Dispatched, JobStatus.Processing}
    ensures JobStatus.Cancelled in JobTargets(job) <==>
      job in {JobStatus.Pending, JobStatus.Dispatched, JobStatus.Processing}
  {
  }

  predicate CanStartAnalysis(status: DocumentStatus) {
    status in {Draft, AwaitingApproval, Ready}
  }

  predicate NeedsConfirmation(status: DocumentStatus) {
    status in {Ready}
  }

  predicate CanReview(status: DocumentStatus) {
    status == AwaitingApproval
  }

  predicate CanResetReview(status: DocumentStatus) {
    status in {AwaitingApproval, Ready}
  }

  predicate CanDelete(status: DocumentStatus) {
    status != InProgress
  }

  /** The status a document takes from its current job. */
  function DocumentStatusFor(job: JobStatus, hasPending: bool): DocumentStatus {
    if job in {JobStatus.Dispatched, JobStatus.Processing} then InProgress
    else if job in {Success, PartialSuccess} then
      if hasPending then AwaitingApproval else Ready
    else Draft
  }
}
