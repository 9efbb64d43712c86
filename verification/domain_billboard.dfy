/** domain/billboard.go: the billboard entity, its creation payload with
    the two-stage validation, and the mappers `ToBillboard` and
    `ToResponse`. The uploaded image is a `*multipart.FileHeader`, of which
    only the file name matters here. */
module DomainBillboard {
  import opened Results
  import opened Uuids
  import opened GoStrings
  import opened Validators
  import opened DomainUser

  /** `Label` is `labelText` here: `label` is a Dafny keyword. */
  datatype Billboard = Billboard(id: Uuid, storeId: Uuid, labelText: string, imageUrl: string, createdAt: Instant)

  datatype BillboardPayload = BillboardPayload(labelText: string, image: Option<FileHeader>)

  datatype BillboardResponse = BillboardResponse(id: string, labelText: string, storeId: string, imageUrl: string, createdAt: Instant)

  /** A payload after `Validate`, with the error it returned if any. */
  datatype Validated = Validated(payload: BillboardPayload, outcome: Outcome)

  /** The struct tags: `Label` is `required,min=1,max=100`, `Image` is
      `required` (a non-nil pointer). */
  predicate StructValid(p: BillboardPayload) {
    p.labelText != "" && LengthIn(p.labelText, 1, 100) && p.image.Some?
  }

  /** `BillboardPayload.Validate`: trim the labelText, run the struct rules
      and stop at their error, then check the image file name. */
  function Validate(p: BillboardPayload): (v: Validated)
    ensures v.payload == p.(labelText := TrimSpace(p.labelText))
    ensures v.outcome.Pass? <==>
      && 1 <= |TrimSpace(p.labelText)| <= 100
      && p.image.Some?
      && Extension(p.image.value.filename) in ImageExtensions
    ensures !(1 <= |TrimSpace(p.labelText)| <= 100 && p.image.Some?) ==> v.outcome == Fail(ErrValidation)
    ensures 1 <= |TrimSpace(p.labelText)| <= 100 && p.image.Some? ==> v.outcome == ValidateFile(p.image)
  {
    var t := p.(labelText := TrimSpace(p.labelText));
    if !StructValid(t) then Validated(t, Fail(ErrValidation))
    else Validated(t, ValidateFile(t.image))
  }

  /** The struct rule on `Image` runs first, so the file check's own
      "file required" error never reaches the caller: a missing image is a
      validation error, a present one with a bad name is
      `ErrInvalidFileType`. */
  lemma ValidateNeverReportsMissingFile(p: BillboardPayload)
    ensures Validate(p).outcome != Fail(ErrFileRequired)
    ensures Validate(p).outcome.Fail? ==>
      Validate(p).outcome.error == ErrValidation || Validate(p).outcome.error == ErrInvalidFileType
  {
  }

  lemma ValidateIdempotent(p: BillboardPayload)
    ensures Validate(Validate(p).payload) == Validate(p)
  {
    TrimSpaceIdempotent(p.labelText);
  }

  /** `BillboardPayload.ToBillboard`: the fresh id and the clock reading
      are parameters. */
  function ToBillboard(p: BillboardPayload, imageUrl: string, storeId: Uuid, id: Uuid, now: Instant): (b: Billboard)
    ensures b.labelText == p.labelText && b.storeId == storeId && b.imageUrl == imageUrl
    ensures b.id == id && b.createdAt == now
  {
    Billboard(id, storeId, p.labelText, imageUrl, now)
  }

  /** `Billboard.ToResponse`: both identifiers as text. */
  function ToResponse(b: Billboard): (r: BillboardResponse)
    ensures Parse(r.id) == Ok(b.id) && Parse(r.storeId) == Ok(b.storeId)
    ensures r.labelText == b.labelText && r.imageUrl == b.imageUrl && r.createdAt == b.createdAt
  {
    ParseFormat(b.id);
    ParseFormat(b.storeId);
    BillboardResponse(Format(b.id), b.labelText, Format(b.storeId), b.imageUrl, b.createdAt)
  }
}
