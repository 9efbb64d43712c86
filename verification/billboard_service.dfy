/** service/billboard.go: creating a billboard in a store. The checks run in
    a fixed order — a caller in the context, the store exists, the caller
    owns it — and only then is the image uploaded and the billboard
    saved. The store lookup, the image upload (a Cloudflare client that is
    not part of this model) and the insert are parameters; the reply lists
    the external calls made, in order. */
module BillboardService {
  import opened Results
  import opened Uuids
  import opened Validators
  import DomainUser
  import opened DomainSession
  import opened DomainStore
  import opened DomainBillboard
  import Stores = StoreService

  datatype BillboardCall =
    | FindStore(id: Uuid)
    | UploadImage(image: Option<FileHeader>)
    | InsertBillboard(billboard: Billboard)

  datatype Reply = Reply(result: Result<BillboardResponse>, calls: seq<BillboardCall>)

  /** `Create` for the store `storeId`. `upload` is what `UploadImage`
      answers: the image URL or an error. */
  function Create(
    ctx: CtxValue, storeId: Uuid, p: BillboardPayload, lookup: Lookup<Store>,
    upload: Result<string>, insert: Outcome, id: Uuid, now: DomainUser.Instant): (r: Reply)
    ensures !ctx.SessionRef? ==> r == Reply(Err(ErrUserNotFoundInContext), [])
    ensures ctx.SessionRef? && lookup.Failed? ==> r == Reply(Err(lookup.error), [FindStore(storeId)])
    ensures ctx.SessionRef? && lookup.Missing? ==> r == Reply(Err(ErrStoreNotFound), [FindStore(storeId)])
    ensures ctx.SessionRef? && lookup.Found? && lookup.row.userId != ctx.session.userId ==>
      r == Reply(Err(ErrUnauthorizedAction), [FindStore(storeId)])
    ensures |r.calls| > 1 <==> ctx.SessionRef? && lookup.Found? && lookup.row.userId == ctx.session.userId
    ensures |r.calls| > 1 ==> r.calls[1] == UploadImage(p.image)
    ensures |r.calls| > 1 && upload.Err? ==> r == Reply(Err(upload.error), r.calls) && |r.calls| == 2
    ensures |r.calls| > 2 <==> |r.calls| > 1 && upload.Ok?
    ensures |r.calls| > 2 ==> (
      && |r.calls| == 3 && r.calls[2].InsertBillboard?
      && r.calls[2].billboard.storeId == storeId
      && r.calls[2].billboard.imageUrl == upload.value
      && r.calls[2].billboard.labelText == p.labelText
      && r.calls[2].billboard.id == id)
    ensures r.result.Ok? <==> |r.calls| > 2 && insert.Pass?
    ensures |r.calls| > 2 && insert.Fail? ==> r.result == Err(insert.error)
    ensures r.result.Ok? ==> (
      && Parse(r.result.value.id) == Ok(id)
      && Parse(r.result.value.storeId) == Ok(storeId)
      && r.result.value.imageUrl == upload.value
      && r.result.value.labelText == p.labelText)
  {
    match AsSession(ctx)
    case None => Reply(Err(ErrUserNotFoundInContext), [])
    case Some(session) =>
      var find := [FindStore(storeId)];
      match lookup
      case Failed(e) => Reply(Err(e), find)
      case Missing => Reply(Err(ErrStoreNotFound), find)
      case Found(store) =>
        if store.userId != session.userId then Reply(Err(ErrUnauthorizedAction), find)
        else
          var uploaded := find + [UploadImage(p.image)];
          match upload
          case Err(e) => Reply(Err(e), uploaded)
          case Ok(url) =>
            var billboard := ToBillboard(p, url, storeId, id, now);
            var calls := uploaded + [InsertBillboard(billboard)];
            match insert
            case Fail(e) => Reply(Err(e), calls)
            case Pass => Reply(Ok(DomainBillboard.ToResponse(billboard)), calls)
  }

  /** Unlike the store service's guard, a stranger's refusal here is the
      bare sentinel, not a wrapping of it; `errors.Is` sees both. */
  lemma StrangerRefusals(ctx: CtxValue, storeId: Uuid, p: BillboardPayload, store: Store,
                         upload: Result<string>, insert: Outcome, id: Uuid, now: DomainUser.Instant)
    requires ctx.SessionRef? && store.userId != ctx.session.userId
    ensures Create(ctx, storeId, p, Found(store), upload, insert, id, now).result == Err(ErrUnauthorizedAction)
    ensures Stores.Guard(ctx, Found(store)) == Err(Wrapped(ErrUnauthorizedAction))
    ensures Is(Create(ctx, storeId, p, Found(store), upload, insert, id, now).result.error, ErrUnauthorizedAction)
    ensures Is(Stores.Guard(ctx, Found(store)).error, ErrUnauthorizedAction)
  {
  }

  /** Against a stores table the lookup agrees with, a billboard is only
      ever saved into a store the caller owns, and the billboard created is
      the one that was saved. */
  lemma SavedOnlyIntoOwnStore(t: Stores.Table, ctx: CtxValue, storeId: Uuid, p: BillboardPayload, lookup: Lookup<Store>,
                              upload: Result<string>, insert: Outcome, id: Uuid, now: DomainUser.Instant)
    requires Stores.Agrees(t, storeId, lookup)
    ensures
      var r := Create(ctx, storeId, p, lookup, upload, insert, id, now);
      forall k :: 0 <= k < |r.calls| && r.calls[k].InsertBillboard? ==>
        && ctx.SessionRef?
        && r.calls[k].billboard.storeId in t
        && t[r.calls[k].billboard.storeId].userId == ctx.session.userId
    ensures
      var r := Create(ctx, storeId, p, lookup, upload, insert, id, now);
      r.result.Ok? ==> r.calls[|r.calls| - 1] == InsertBillboard(ToBillboard(p, upload.value, storeId, id, now))
  {
  }
}
