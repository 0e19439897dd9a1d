module Outcomes {

  datatype Option<+T> = None | Some(value: T)

  /** The errors of the service layer, of the repositories and of the storage below them. */
  datatype Error =
    | NotFound
    | InvalidInput
    | DecisionLocked
    | NotDecisionOwner
    | ReviewRole
    | SeparationOfDuty
    | InvalidTransition
    | VersionConflict
    | DuplicateKey
    | StorageFailure
    | AuditFailure

  datatype Result<+T> = Success(value: T) | Failure(error: Error)
}
