/** The life-cycle status every stored entity carries. */
module Statuses {
  datatype Status = Active | Inactive | Deleted
}
