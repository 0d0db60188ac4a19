/** Evidence spans and the issues raised about them. */
module Evidence {
  import opened Common
  import opened DerivationGraph

  /** Weakest last; the rank orders them. */
  datatype EvidenceClass =
    | AExplicit | BMorphologicallyExplicit | CSpeakerAnchored | DContextResolved | EInferred | UUncertain
  {
    function Rank(): nat {
      match this
      case AExplicit => 0
      case BMorphologicallyExplicit => 1
      case CSpeakerAnchored => 2
      case DContextResolved => 3
      case EInferred => 4
      case UUncertain => 5
    }
  }

  datatype SourceLayer = RawTranscript | ReadableTranscript

  datatype EvidenceSpan = EvidenceSpan(
    id: Id,
    segment: Id,
    text: string,
    layer: SourceLayer,
    start: Option<nat>,
    end: Option<nat>,
    cls: EvidenceClass,
    mentions: seq<Id>,
    links: seq<Id>,
    derivedFrom: seq<Id>,
    createdBy: Option<Id>
  )

  datatype IssueCode =
    | EvidenceUnknownSegment | EvidenceWrongSourceLayer | EvidenceTextNotInSource
    | EvidenceOffsetsUnrecoverable | EvidenceUnknownMention
    | EvidenceDerivationUnknown | EvidenceDerivationCycle
    | CoreferenceReferenceInvalid | CoreferenceAnaphorUnsupported
    | ObjectUnknownEvidence | ObjectMissingEvidence
    | DerivedClaimSelfReference | DerivedClaimDuplicate
    | ConflictReferenceInvalid | ModelProvenanceReplaced

  datatype Issue = Issue(objectId: Option<Id>, code: IssueCode, related: seq<Id>)

  type Ledger = Dict<EvidenceSpan>

  /** Both callers key the dictionary by `evidence_id`. */
  ghost predicate KeyedById(evidence: Ledger) {
    evidence.Valid() && forall k :: k in evidence.at ==> evidence.at[k].id == k
  }

  /** Who is derived from whom. */
  function Citations(evidence: Ledger): Graph {
    map k | k in evidence.at :: evidence.at[k].derivedFrom
  }
}
