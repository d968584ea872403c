/** The journal header's own rules: what may still be saved on a posted header, and whose
    reference is taken. */
module JournalHeaders {
  import opened Calendar
  import opened Wrappers

  datatype Status = Draft | Pending | Approved | Posted | Rejected

  /** References: blank, free text by number, or the pattern a service composes. */
  datatype Reference =
    | Blank
    | Manual(number: nat)
    | YearClosing(year: int)
    | OpeningBalances(year: int)
    | AccrualPosting(code: nat)
    | AccrualReversal(code: nat)
    | Recognition(code: nat, day: Date)

  datatype Field =
    | StatusField | PostedBy | PostedAt | IsReversed
    | IsDeleted | DeletedAt | DeletedBy | UpdatedAt | ModifiedAt
    | DocumentNumber | ReferenceNumber | PostingDate | Description | Dimension | SourceField

  /** The whitelist of the posted-immutability guard, as it stands. */
  const POST_POSTING_MUTABLE_FIELDS: set<Field> :=
    {StatusField, PostedBy, PostedAt, IsReversed, IsDeleted, DeletedAt, DeletedBy, UpdatedAt, ModifiedAt}

  /** Fields a full save compares under the name of their column, which no whitelist holds. */
  const RELATIONS: set<Field> := {PostedBy, DeletedBy, Dimension}

  /** A save of named fields, or of the whole header, in which some differ from the row. */
  datatype Save = Named(fields: set<Field>) | Full(changed: set<Field>)

  /** A save passes the guard unless the stored header is posted and a field outside the
      whitelist is named or, in a full save, changed. */
  predicate SavePasses(mutable: set<Field>, prior: Option<Status>, save: Save) {
    prior == Some(Posted) ==>
      match save
      case Named(fields) => fields <= mutable
      case Full(changed) => changed <= mutable && changed !! RELATIONS
  }

  /** The services create a header as posted and then save its document number. */
  predicate NumberingPasses(mutable: set<Field>) {
    SavePasses(mutable, Some(Posted), Named({DocumentNumber}))
  }

  /** What the guard as it stands never lets change on a posted header. */
  const FROZEN: set<Field> := {DocumentNumber, ReferenceNumber, PostingDate, Description, Dimension, SourceField}

  lemma OneOfTheFields(f: Field)
    ensures f in POST_POSTING_MUTABLE_FIELDS <==> f !in FROZEN
  {
    match f
    case StatusField => case PostedBy => case PostedAt => case IsReversed => case IsDeleted =>
    case DeletedAt => case DeletedBy => case UpdatedAt => case ModifiedAt =>
    case DocumentNumber => case ReferenceNumber => case PostingDate =>
    case Description => case Dimension => case SourceField =>
  }

  lemma WithinWhitelistExactlyWhen(fields: set<Field>)
    ensures fields <= POST_POSTING_MUTABLE_FIELDS <==> fields !! FROZEN
  {
    forall f | f in fields ensures f in POST_POSTING_MUTABLE_FIELDS <==> f !in FROZEN {
      OneOfTheFields(f);
    }
  }

  /** A posted header takes exactly the saves clear of the frozen fields, and a full save may
      not change who posted or deleted it either; any other header takes all.  As the
      whitelist stands, unposting and soft deletion pass, and the services' own numbering does
      not. */
  lemma GuardAsWritten(prior: Option<Status>, fields: set<Field>)
    ensures SavePasses(POST_POSTING_MUTABLE_FIELDS, Some(Posted), Full({StatusField}))
    ensures SavePasses(POST_POSTING_MUTABLE_FIELDS, Some(Posted), Named({IsDeleted, DeletedAt, DeletedBy}))
    ensures !NumberingPasses(POST_POSTING_MUTABLE_FIELDS)
    ensures SavePasses(POST_POSTING_MUTABLE_FIELDS, prior, Named(fields))
            <==> (prior == Some(Posted) ==> fields !! FROZEN)
    ensures SavePasses(POST_POSTING_MUTABLE_FIELDS, prior, Full(fields))
            <==> (prior == Some(Posted) ==> fields !! FROZEN && PostedBy !in fields && DeletedBy !in fields)
  {
    WithinWhitelistExactlyWhen(fields);
    assert DocumentNumber in {DocumentNumber} && DocumentNumber !in POST_POSTING_MUTABLE_FIELDS;
    assert fields !! RELATIONS <==> PostedBy !in fields && DeletedBy !in fields && Dimension !in fields;
  }

  predicate Taken(references: set<Reference>, reference: Reference) {
    reference != Blank && reference in references
  }

  function WithReference(references: set<Reference>, reference: Reference): set<Reference> {
    if reference == Blank then references else references + {reference}
  }
}
