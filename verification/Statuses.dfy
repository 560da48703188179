/** The stages of a case, which triage and the case lists both read. */
module Statuses {

  datatype CaseStatus =
    | Submitted | Triage | Investigating | ResponsePending | DecisionProposed
    | Approved | Published | Appealed | Closed | Rejected | Withdrawn
}
