/** The attachment service's structs as schemas: fields in id order, then the writing order. */
module AttachmentSchemas {
  import opened ThriftPrimitives
  import opened ThriftCodec
  import opened ThriftRoundTrip

  const ATTACHMENT := Struct(
    [Field(1, String, true), Field(2, Int64, true), Field(3, String, true), Field(4, String, true),
     Field(5, String, true), Field(6, Int64, true), Field(7, String, true), Field(8, String, true),
     Field(9, Int32, true), Field(10, Int32, true), Field(11, String, true),
     Field(12, String, false), Field(13, String, false), Field(14, String, false)],
    [1, 5, 8, 9, 0, 2, 3, 4, 6, 7, 10, 11, 12, 13])

  const UPLOAD_PART := Struct(
    [Field(1, Int32, true), Field(2, String, true), Field(3, String, true)],
    [0, 1, 2])

  const ATTACHMENT_UPLOAD := Struct(
    [Field(1, ATTACHMENT, true), Field(2, String, true), Field(3, List(UPLOAD_PART), true), Field(4, String, true)],
    [0, 1, 2, 3])

  const ATTACHMENT_PAGE_INFO := Struct(
    [Field(1, String, false), Field(2, Bool, true)],
    [1, 0])

  const ATTACHMENT_LIST := Struct(
    [Field(1, List(ATTACHMENT), true), Field(2, ATTACHMENT_PAGE_INFO, false)],
    [0, 1])

  const PUBLICATION_REFERENCE_COMMAND := Struct(
    [Field(1, String, true), Field(2, String, true), Field(3, Int64, true), Field(4, Int64, true),
     Field(5, List(String), true)],
    [2, 3, 0, 1, 4])

  const PUBLICATION_REFERENCE_STATE := Struct(
    [Field(1, String, true), Field(2, Int64, true), Field(3, Int64, false)],
    [1, 2, 0])

  /** A permutation can be exhibited by its inverse. */
  lemma OrderByInverse(order: seq<nat>, inverse: seq<nat>)
    requires |order| == |inverse|
    requires forall i :: 0 <= i < |order| ==> order[i] < |order| && inverse[order[i]] == i
    requires forall i :: 0 <= i < |order| ==> inverse[i] < |order| && order[inverse[i]] == i
    ensures IsOrder(order, |order|)
  {
    forall i | 0 <= i < |order| ensures i in order {
      assert order[inverse[i]] == i;
    }
    forall j, k | 0 <= j < k < |order| ensures order[j] != order[k] {
      assert inverse[order[j]] == j && inverse[order[k]] == k;
    }
  }

  lemma AttachmentIsValid()
    ensures ValidType(ATTACHMENT) && ATTACHMENT.fields[0].required
  {
    AttachmentIsNumbered();
    NumberedIsDistinct(ATTACHMENT);
    AttachmentHoldsScalars();
    OrderByInverse(ATTACHMENT.order, [4, 0, 5, 6, 7, 1, 8, 9, 2, 3, 10, 11, 12, 13]);
  }

  lemma NumberedIsDistinct(t: Type)
    requires t.Struct? && Numbered(t) && |t.fields| < 0x7fff
    ensures DistinctIds(t.fields) && forall i :: 0 <= i < |t.fields| ==> IdFits(t.fields[i].id)
  {}

  lemma AttachmentHoldsScalars()
    ensures forall i :: 0 <= i < |ATTACHMENT.fields| ==> ValidType(ATTACHMENT.fields[i].typ)
  {}

  lemma UploadPartIsValid()
    ensures ValidType(UPLOAD_PART) && UPLOAD_PART.fields[0].required
  {
    OrderByInverse(UPLOAD_PART.order, [0, 1, 2]);
  }

  lemma AttachmentUploadIsValid()
    ensures ValidType(ATTACHMENT_UPLOAD) && ATTACHMENT_UPLOAD.fields[0].required
  {
    AttachmentIsValid();
    UploadPartIsValid();
    assert ValidType(List(UPLOAD_PART));
    OrderByInverse(ATTACHMENT_UPLOAD.order, [0, 1, 2, 3]);
  }

  lemma AttachmentListIsValid()
    ensures ValidType(ATTACHMENT_PAGE_INFO) && ATTACHMENT_PAGE_INFO.fields[1].required
    ensures ValidType(ATTACHMENT_LIST) && ATTACHMENT_LIST.fields[0].required
  {
    AttachmentIsValid();
    OrderByInverse(ATTACHMENT_PAGE_INFO.order, [1, 0]);
    assert ValidType(List(ATTACHMENT));
    OrderByInverse(ATTACHMENT_LIST.order, [0, 1]);
  }

  lemma PublicationReferencesAreValid()
    ensures ValidType(PUBLICATION_REFERENCE_COMMAND) && PUBLICATION_REFERENCE_COMMAND.fields[0].required
    ensures ValidType(PUBLICATION_REFERENCE_STATE) && PUBLICATION_REFERENCE_STATE.fields[0].required
  {
    assert ValidType(List(String));
    OrderByInverse(PUBLICATION_REFERENCE_COMMAND.order, [2, 3, 0, 1, 4]);
    OrderByInverse(PUBLICATION_REFERENCE_STATE.order, [2, 0, 1]);
  }

  /** The structs whose codecs are modelled. */
  datatype Schema =
    | Attachment
    | UploadPart
    | AttachmentUpload
    | AttachmentPageInfo
    | AttachmentList
    | PublicationReferenceCommand
    | PublicationReferenceState

  function TypeOf(s: Schema): (t: Type)
    ensures t.Struct?
  {
    match s
    case Attachment => ATTACHMENT
    case UploadPart => UPLOAD_PART
    case AttachmentUpload => ATTACHMENT_UPLOAD
    case AttachmentPageInfo => ATTACHMENT_PAGE_INFO
    case AttachmentList => ATTACHMENT_LIST
    case PublicationReferenceCommand => PUBLICATION_REFERENCE_COMMAND
    case PublicationReferenceState => PUBLICATION_REFERENCE_STATE
  }

  lemma SchemasAreValid(s: Schema)
    ensures ValidType(TypeOf(s))
    ensures exists i :: 0 <= i < |TypeOf(s).fields| && TypeOf(s).fields[i].required
  {
    AttachmentIsValid();
    UploadPartIsValid();
    AttachmentUploadIsValid();
    AttachmentListIsValid();
    PublicationReferencesAreValid();
  }

  /** Every struct value of the service survives the wire, behind any bytes that follow it, if
      and only if it holds no nil struct and no oversized string or list; a nil struct in its
      place is refused. */
  lemma StructsSurviveTheWire(s: Schema, v: Value, rest: seq<byte>)
    requires HasType(TypeOf(s), v)
    ensures Transportable(v) <==> Decode(TypeOf(s), Encode(TypeOf(s), v) + rest) == Ok(v, |Encode(TypeOf(s), v)|)
    ensures v == VNil ==> Decode(TypeOf(s), Encode(TypeOf(s), v) + rest).Err?
  {
    SchemasAreValid(s);
    RoundTripExactly(TypeOf(s), v, rest);
    NilStructIsRefused(TypeOf(s), rest);
  }

  predicate FixedWidth(t: Type) {
    t.Bool? || t.Int32? || t.Int64?
  }

  /** Position `j` of the writing order may stand in front of position `k`. */
  predicate InOrder(fields: seq<Field>, i: nat, j: nat)
    requires i < |fields| && j < |fields|
  {
    if FixedWidth(fields[i].typ) == FixedWidth(fields[j].typ) then i < j else FixedWidth(fields[i].typ)
  }

  /** The fields are numbered from 1. */
  ghost predicate Numbered(t: Type)
    requires t.Struct?
  {
    forall i :: 0 <= i < |t.fields| ==> t.fields[i].id == i + 1
  }

  /** The fields of a fixed width are written first, and otherwise ids go up. */
  ghost predicate FixedFirst(t: Type)
    requires t.Struct?
  {
    && |t.order| == |t.fields|
    && (forall k :: 0 <= k < |t.order| ==> t.order[k] < |t.fields|)
    && OrderedBetween(t, 1, |t.order|)
  }

  ghost predicate OrderedBetween(t: Type, lo: nat, hi: nat)
    requires t.Struct? && hi <= |t.order| && forall k :: 0 <= k < |t.order| ==> t.order[k] < |t.fields|
  {
    forall k :: 0 < k && lo <= k < hi ==> InOrder(t.fields, t.order[k - 1], t.order[k])
  }

  predicate Optional(s: Schema, id: int) {
    match s
    case Attachment => 12 <= id <= 14
    case AttachmentPageInfo => id == 1
    case AttachmentList => id == 2
    case PublicationReferenceState => id == 3
    case _ => false
  }

  /** Which fields a reader insists on, and in which order they are written. */
  lemma SchemasAreGenerated(s: Schema)
    ensures AsGenerated(s)
  {
    match s
    case Attachment => AttachmentIsGenerated();
    case UploadPart => UploadPartIsGenerated();
    case AttachmentUpload => AttachmentUploadIsGenerated();
    case AttachmentPageInfo => AttachmentPageInfoIsGenerated();
    case AttachmentList => AttachmentListIsGenerated();
    case PublicationReferenceCommand => PublicationReferenceCommandIsGenerated();
    case PublicationReferenceState => PublicationReferenceStateIsGenerated();
  }

  /** The reader insists on all fields but the optional ones. */
  ghost predicate Insists(s: Schema) {
    forall i :: 0 <= i < |TypeOf(s).fields| ==>
      (TypeOf(s).fields[i].required <==> !Optional(s, TypeOf(s).fields[i].id))
  }

  ghost predicate AsGenerated(s: Schema) {
    Numbered(TypeOf(s)) && FixedFirst(TypeOf(s)) && Insists(s)
  }

  lemma AttachmentIsGenerated()
    ensures AsGenerated(Attachment)
  {
    AttachmentIsNumbered();
    AttachmentOrder();
    AttachmentInsists();
  }

  lemma AttachmentIsNumbered()
    ensures Numbered(ATTACHMENT)
  {}

  lemma AttachmentOrder()
    ensures FixedFirst(ATTACHMENT)
  {
    AttachmentOrderIsInRange();
    AttachmentOrderBegins();
    AttachmentOrderEnds();
  }

  lemma AttachmentOrderIsInRange()
    ensures |ATTACHMENT.order| == |ATTACHMENT.fields| == 14
    ensures forall k :: 0 <= k < |ATTACHMENT.order| ==> ATTACHMENT.order[k] < |ATTACHMENT.fields|
  {}

  lemma AttachmentOrderBegins()
    requires forall k :: 0 <= k < |ATTACHMENT.order| ==> ATTACHMENT.order[k] < |ATTACHMENT.fields|
    ensures OrderedBetween(ATTACHMENT, 1, 5)
  {}

  lemma AttachmentOrderEnds()
    requires forall k :: 0 <= k < |ATTACHMENT.order| ==> ATTACHMENT.order[k] < |ATTACHMENT.fields|
    ensures OrderedBetween(ATTACHMENT, 5, 14)
  {}

  lemma AttachmentInsists()
    ensures Insists(Attachment)
  {}

  lemma UploadPartIsGenerated()
    ensures AsGenerated(UploadPart)
  {}

  lemma AttachmentUploadIsGenerated()
    ensures AsGenerated(AttachmentUpload)
  {}

  lemma AttachmentPageInfoIsGenerated()
    ensures AsGenerated(AttachmentPageInfo)
  {}

  lemma AttachmentListIsGenerated()
    ensures AsGenerated(AttachmentList)
  {}

  lemma PublicationReferenceCommandIsGenerated()
    ensures AsGenerated(PublicationReferenceCommand)
  {}

  lemma PublicationReferenceStateIsGenerated()
    ensures AsGenerated(PublicationReferenceState)
  {}
}
