/** service/store.go: the store use cases behind `CheckLoggedIn`. Each one
    takes the caller from the `*domain.Session` in the request context and
    refuses a request without one before touching the database; the
    ones that act on an existing store refuse any caller but its owner.

    The store repository (gorm) is outside the model: what it answers is a
    parameter (`Lookup` for `GetByID` and `GetAll`, `Outcome` for a write),
    and each use case returns, beside its result, the repository calls it
    made in order. `Apply` reads such a trace against a stores table, which
    is how the ownership guarantees are stated. */
module StoreService {
  import opened Results
  import opened Uuids
  import DomainUser
  import opened DomainSession
  import opened DomainStore

  datatype StoreCall =
    | InsertStore(store: Store)
    | ListStores(userId: Uuid)
    | FindStore(id: Uuid)
    | RenameStore(id: Uuid, name: string)
    | DeleteStore(id: Uuid)

  /** A use case's result and the repository calls it made. */
  datatype Reply<+T> = Reply(result: Result<T>, calls: seq<StoreCall>)

  /** The `Store` rows by id. */
  type Table = map<Uuid, Store>

  /** The effect of one repository call on the table, should it take
      effect: a soft delete hides the row from every later query, which is
      removal here. A write the repository reports as failed may or may not
      have happened, so `Apply` of a trace bounds what the call can change. */
  function ApplyCall(t: Table, c: StoreCall): (t': Table)
    ensures c.InsertStore? ==> t' == t[c.store.id := c.store]
    ensures c.DeleteStore? ==> t' == t - {c.id}
    ensures (c.ListStores? || c.FindStore?) ==> t' == t
  {
    match c
    case InsertStore(s) => t[s.id := s]
    case RenameStore(id, name) => if id in t then t[id := t[id].(name := name)] else t
    case DeleteStore(id) => t - {id}
    case _ => t
  }

  function Apply(t: Table, calls: seq<StoreCall>): Table
    decreases |calls|
  {
    if calls == [] then t else Apply(ApplyCall(t, calls[0]), calls[1..])
  }

  /** Writes are only rename and delete of existing rows and inserts. */
  predicate Writes(c: StoreCall) {
    c.InsertStore? || c.RenameStore? || c.DeleteStore?
  }

  /** The repository's answer to `GetByID(id)` agrees with the table. */
  predicate Agrees(t: Table, id: Uuid, lookup: Lookup<Store>) {
    match lookup
    case Found(s) => id in t && t[id] == s
    case Missing => id !in t
    case Failed(_) => true
  }

  /** `Create`: the new store belongs to the caller. */
  function Create(ctx: CtxValue, p: StorePayload, insert: Outcome, id: Uuid, now: DomainUser.Instant): (r: Reply<StoreResponse>)
    ensures !ctx.SessionRef? ==> r == Reply(Err(ErrUserNotFoundInContext), [])
    ensures ctx.SessionRef? ==> |r.calls| == 1 && r.calls[0].InsertStore?
    ensures ctx.SessionRef? ==> (
      var s := r.calls[0].store;
      s.userId == ctx.session.userId && s.name == p.name && s.id == id && s.createdAt == now)
    ensures r.result.Ok? <==> ctx.SessionRef? && insert.Pass?
    ensures ctx.SessionRef? && insert.Fail? ==> r.result == Err(insert.error)
    ensures r.result.Ok? ==> Parse(r.result.value.id) == Ok(id) && r.result.value.name == p.name
  {
    match AsSession(ctx)
    case None => Reply(Err(ErrUserNotFoundInContext), [])
    case Some(session) =>
      var store := ToStore(p, session.userId, id, now);
      var calls := [InsertStore(store)];
      match insert
      case Fail(e) => Reply(Err(e), calls)
      case Pass => Reply(Ok(ToResponse(store)), calls)
  }

  /** `GetAll`: the caller's stores, in the order the repository gave
      them. A nil slice (`Missing`) is `ErrStoresNotFound`; an empty
      non-nil one is an empty answer. */
  method GetAll(ctx: CtxValue, listing: Lookup<seq<Store>>) returns (r: Reply<seq<StoreResponse>>)
    ensures !ctx.SessionRef? ==> r == Reply(Err(ErrUserNotFoundInContext), [])
    ensures ctx.SessionRef? ==> r.calls == [ListStores(ctx.session.userId)]
    ensures ctx.SessionRef? && listing.Failed? ==> r.result == Err(listing.error)
    ensures ctx.SessionRef? && listing.Missing? ==> r.result == Err(ErrStoresNotFound)
    ensures r.result.Ok? <==> ctx.SessionRef? && listing.Found?
    ensures r.result.Ok? ==> |r.result.value| == |listing.row|
    ensures r.result.Ok? ==> forall i :: 0 <= i < |listing.row| ==>
      && Parse(r.result.value[i].id) == Ok(listing.row[i].id)
      && r.result.value[i].name == listing.row[i].name
      && r.result.value[i].createdAt == listing.row[i].createdAt
  {
    if !ctx.SessionRef? {
      return Reply(Err(ErrUserNotFoundInContext), []);
    }
    var calls := [ListStores(ctx.session.userId)];
    match listing {
      case Failed(e) =>
        return Reply(Err(e), calls);
      case Missing =>
        return Reply(Err(ErrStoresNotFound), calls);
      case Found(stores) =>
        var responses: seq<StoreResponse> := [];
        var i := 0;
        while i < |stores|
          invariant 0 <= i <= |stores|
          invariant |responses| == i
          invariant forall k :: 0 <= k < i ==> responses[k] == ToResponse(stores[k])
        {
          responses := responses + [ToResponse(stores[i])];
          i := i + 1;
        }
        return Reply(Ok(responses), calls);
    }
  }

  /** The three checks `UpdateName` and `Delete` share: a caller, an
      existing store, and the caller owning it. The error for a stranger
      wraps `ErrUnauthorizedAction` (`fmt.Errorf` with `%w`). */
  function Guard(ctx: CtxValue, lookup: Lookup<Store>): (res: Result<Store>)
    ensures res.Ok? <==> ctx.SessionRef? && lookup.Found? && lookup.row.userId == ctx.session.userId
    ensures res.Ok? ==> res.value == lookup.row
    ensures !ctx.SessionRef? ==> res == Err(ErrUserNotFoundInContext)
    ensures ctx.SessionRef? && lookup.Failed? ==> res == Err(lookup.error)
    ensures ctx.SessionRef? && lookup.Missing? ==> res == Err(ErrStoreNotFound)
    ensures ctx.SessionRef? && lookup.Found? && lookup.row.userId != ctx.session.userId ==>
      res.Err? && Is(res.error, ErrUnauthorizedAction)
  {
    match AsSession(ctx)
    case None => Err(ErrUserNotFoundInContext)
    case Some(session) =>
      match lookup
      case Failed(e) => Err(e)
      case Missing => Err(ErrStoreNotFound)
      case Found(store) =>
        if store.userId != session.userId then Err(Wrapped(ErrUnauthorizedAction))
        else Ok(store)
  }

  /** `UpdateName`: rename the store `storeId` with the payload's name. */
  function UpdateName(ctx: CtxValue, storeId: Uuid, p: StoreNameUpdatePayload, lookup: Lookup<Store>, write: Outcome): (r: Reply<()>)
    ensures !ctx.SessionRef? ==> r == Reply(Err(ErrUserNotFoundInContext), [])
    ensures ctx.SessionRef? ==> |r.calls| >= 1 && r.calls[0] == FindStore(storeId)
    ensures (exists k :: 0 <= k < |r.calls| && Writes(r.calls[k])) <==> Guard(ctx, lookup).Ok?
    ensures Guard(ctx, lookup).Err? ==> r.result == Err(Guard(ctx, lookup).error)
    ensures Guard(ctx, lookup).Ok? ==> r.calls == [FindStore(storeId), RenameStore(storeId, p.name)]
    ensures r.result.Ok? <==> Guard(ctx, lookup).Ok? && write.Pass?
    ensures Guard(ctx, lookup).Ok? && write.Fail? ==> r.result == Err(write.error)
  {
    if !ctx.SessionRef? then Reply(Err(ErrUserNotFoundInContext), [])
    else
      match Guard(ctx, lookup)
      case Err(e) => Reply(Err(e), [FindStore(storeId)])
      case Ok(_) =>
        var calls := [FindStore(storeId), RenameStore(storeId, p.name)];
        assert Writes(calls[1]);
        match write
        case Fail(e) => Reply(Err(e), calls)
        case Pass => Reply(Ok(()), calls)
  }

  /** `Delete`: remove the store `storeId`. */
  function Delete(ctx: CtxValue, storeId: Uuid, lookup: Lookup<Store>, write: Outcome): (r: Reply<()>)
    ensures !ctx.SessionRef? ==> r == Reply(Err(ErrUserNotFoundInContext), [])
    ensures ctx.SessionRef? ==> |r.calls| >= 1 && r.calls[0] == FindStore(storeId)
    ensures (exists k :: 0 <= k < |r.calls| && Writes(r.calls[k])) <==> Guard(ctx, lookup).Ok?
    ensures Guard(ctx, lookup).Err? ==> r.result == Err(Guard(ctx, lookup).error)
    ensures Guard(ctx, lookup).Ok? ==> r.calls == [FindStore(storeId), DeleteStore(storeId)]
    ensures r.result.Ok? <==> Guard(ctx, lookup).Ok? && write.Pass?
    ensures Guard(ctx, lookup).Ok? && write.Fail? ==> r.result == Err(write.error)
  {
    if !ctx.SessionRef? then Reply(Err(ErrUserNotFoundInContext), [])
    else
      match Guard(ctx, lookup)
      case Err(e) => Reply(Err(e), [FindStore(storeId)])
      case Ok(_) =>
        var calls := [FindStore(storeId), DeleteStore(storeId)];
        assert Writes(calls[1]);
        match write
        case Fail(e) => Reply(Err(e), calls)
        case Pass => Reply(Ok(()), calls)
  }

  /** Whatever a caller asks, `UpdateName` and `Delete` leave every store
      of every other user as it was; the set of stores changes only by the
      caller's own store disappearing, and a successful rename renames
      exactly that store. */
  lemma {:induction false} OthersStoresUntouched(t: Table, ctx: CtxValue, storeId: Uuid, p: StoreNameUpdatePayload, lookup: Lookup<Store>, write: Outcome)
    requires Agrees(t, storeId, lookup)
    ensures
      var t' := Apply(t, UpdateName(ctx, storeId, p, lookup, write).calls);
      && t'.Keys == t.Keys
      && (forall id :: id in t && (!ctx.SessionRef? || t[id].userId != ctx.session.userId) ==> t'[id] == t[id])
      && (forall id :: id in t && id != storeId ==> t'[id] == t[id])
      && (UpdateName(ctx, storeId, p, lookup, write).result.Ok? ==> t'[storeId] == t[storeId].(name := p.name))
    ensures
      var t' := Apply(t, Delete(ctx, storeId, lookup, write).calls);
      && t'.Keys <= t.Keys
      && (forall id :: id in t && (!ctx.SessionRef? || t[id].userId != ctx.session.userId) ==> id in t' && t'[id] == t[id])
      && (forall id :: id in t && id != storeId ==> id in t' && t'[id] == t[id])
      && (Delete(ctx, storeId, lookup, write).result.Ok? ==> storeId !in t')
  {
    var u := UpdateName(ctx, storeId, p, lookup, write);
    var d := Delete(ctx, storeId, lookup, write);
    ApplyTwo(t, u.calls);
    ApplyTwo(t, d.calls);
  }

  /** A trace of at most two calls, unfolded. */
  lemma {:induction false} ApplyTwo(t: Table, calls: seq<StoreCall>)
    requires |calls| <= 2
    ensures |calls| == 0 ==> Apply(t, calls) == t
    ensures |calls| == 1 ==> Apply(t, calls) == ApplyCall(t, calls[0])
    ensures |calls| == 2 ==> Apply(t, calls) == ApplyCall(ApplyCall(t, calls[0]), calls[1])
  {
    if |calls| > 0 {
      var t1 := ApplyCall(t, calls[0]);
      var rest := calls[1..];
      assert Apply(t, calls) == Apply(t1, rest);
      if |rest| > 0 {
        assert rest[1..] == [];
        assert Apply(t1, rest) == Apply(ApplyCall(t1, rest[0]), rest[1..]);
      }
    }
  }

  /** `Create` under a fresh id can add only the caller's new store and
      changes no existing one. */
  lemma {:induction false} CreateAddsOwnStore(t: Table, ctx: CtxValue, p: StorePayload, insert: Outcome, id: Uuid, now: DomainUser.Instant)
    requires id !in t
    ensures
      var t' := Apply(t, Create(ctx, p, insert, id, now).calls);
      && (forall k :: k in t ==> k in t' && t'[k] == t[k])
      && (ctx.SessionRef? ==> t'.Keys == t.Keys + {id} && t'[id].userId == ctx.session.userId && t'[id].name == p.name)
      && (!ctx.SessionRef? ==> t' == t)
  {
    ApplyTwo(t, Create(ctx, p, insert, id, now).calls);
  }
}
