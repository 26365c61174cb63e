/** The list every validator appends to.  Evidence is accepted when a whole
    validation leaves the list as it was. */
module Violations {

  /** What a message says; its wording and label are not modelled. */
  datatype Violation =
    | EncodedTooLong | NotBase64 | NotCanonicalBase64 | InvalidCommitHeaders | InvalidParentId
    | PathByteBudget | ExpansionBudget | GitlinkInTree | DuplicateLeafPath | LeafBudget | UnreadableTree
    | CyclicOrTooDeep | GitlinkInClosure | CommitWithoutTree | KindMismatch | MissingObject | UnexpectedKind
    | ClosureNotExact | UnreachableBoundary | InvalidObjectId | InvalidObjectKind | ObjectIdMismatch
    | ClosureTooLarge | DuplicateObjectId | MalformedTreeEntry | TreeEntryBudget | UndecodableTreeText
    | UnsupportedMode | UnsafeEntryName | DuplicateEntryName | EmptyTree | TreeOutOfOrder | InvalidRefs
    | InvalidBoundaries | InvalidInventorySize | UnsortedInventory
    | WrongRootTree | InvalidTreeRecord | EmptyTreeBody | SnapshotTooLarge | TooDeep | Cyclic | MissingSubtree | SnapshotNotExact
    | UnsafeRule | MissingOwnedRoot | MissingTemplate | UndeclaredTemplate | OverlappingRoots
    | InventoryDrift | TemplateInventoryIncomplete | WrongProjectionRefs | WrongSourceTree | InvalidMappingCount
    | UnsafeMapping | RepeatedMapping | NotInSource | RewrittenInFiltered | ProjectionNotCovering
    | WrongBootstrapRefs | WrongFilteredTree | WrongR1Tree | WrongTemplates | WrongGeneratedCount | InvalidGenerated
    | WrongGeneratedPaths | GeneratedAlreadyThere | R1NotExact | WrongR1Parent | StoresDrift | WrongHistory | WrongClaims
    | ManifestCycle | ManifestOutside | UnreadableManifest | WrongState | InvalidCommit | UnavailableCommit
    | PrematureEpoch | InvalidEpochField | UncertifiedField | UnavailableRef | R0NotStrictAncestor | WrongR2 | WrongR3
    | DeletionNotAfterR2 | DeletionNotBeforeR3 | R1IsLkg | ForeignRefLocal | DuplicateArtifact | UnexpectedPrior
    | MissingPrior | WrongPriorState | PriorNotFound | PriorHashMismatch | EpochRemoved | EpochChanged | PriorCommitDrift
    | CandidateChanged | NotDescended | ArtifactChanged | InvalidState
    | WarmupDrift | ProtocolFieldsDrift | ProtocolDrift | EmptyGroupName | StatusDrift | DiagnosticDrift | MetadataDrift
    | CohortDrift | DuplicateProcesses | GroupInventoryDrift | RepeatedUnsupported | WrongProcessCount | WarmupsMeasured
    | WrongReportedStatistics | ThresholdViolated | OtherFinding(message: string)

  class ViolationList {
    var items: seq<Violation>

    constructor ()
      ensures items == []
    {
      items := [];
    }

    method Append(v: Violation)
      modifies this
      ensures items == old(items) + [v]
    {
      items := items + [v];
    }

    method Extend(vs: seq<Violation>)
      modifies this
      ensures items == old(items) + vs
    {
      items := items + vs;
    }
  }
}
