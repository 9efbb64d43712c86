/** domain/store.go: the store entity, the two store payloads with their
    trimming and validation, and the mappers `ToStore` and `ToResponse`.

    `StoreResponse.CreatedAt` is the creation instant written as RFC 3339
    text; the text form is not part of this model, the instant is kept. */
module DomainStore {
  import opened Results
  import opened Uuids
  import opened GoStrings
  import opened DomainUser

  datatype Store = Store(id: Uuid, name: string, userId: Uuid, createdAt: Instant)

  datatype StorePayload = StorePayload(name: string)

  datatype StoreNameUpdatePayload = StoreNameUpdatePayload(id: Uuid, name: string)

  datatype StoreResponse = StoreResponse(id: string, name: string, createdAt: Instant)

  /** The name rule of both payloads: `required,min=1,max=100`. */
  predicate ValidStoreName(s: string) {
    s != "" && LengthIn(s, 1, 100)
  }

  /** `StorePayload.Validate`: trim the name, then check it. */
  function ValidateStore(p: StorePayload): (c: Checked<StorePayload>)
    ensures c.payload.name == TrimSpace(p.name)
    ensures c.ok <==> 1 <= |TrimSpace(p.name)| <= 100
  {
    var t := StorePayload(TrimSpace(p.name));
    Checked(t, ValidStoreName(t.name))
  }

  /** `StoreNameUpdatePayload.Validate`: the name as above; `required` on
      the `uuid.UUID` array refuses its zero value. */
  function ValidateStoreNameUpdate(p: StoreNameUpdatePayload): (c: Checked<StoreNameUpdatePayload>)
    ensures c.payload.id == p.id
    ensures c.payload.name == TrimSpace(p.name)
    ensures c.ok <==> p.id != Nil && 1 <= |TrimSpace(p.name)| <= 100
  {
    Checked(p.(name := TrimSpace(p.name)), p.id != Nil && ValidStoreName(TrimSpace(p.name)))
  }

  /** Validation is idempotent, and a name of blanks is refused exactly
      like the empty name. */
  lemma ValidateStoreIdempotent(p: StorePayload)
    ensures ValidateStore(ValidateStore(p).payload) == ValidateStore(p)
    ensures ValidateStore(p).ok == ValidateStore(StorePayload(TrimSpace(p.name))).ok
  {
    TrimSpaceIdempotent(p.name);
  }

  lemma ValidateStoreNameUpdateIdempotent(p: StoreNameUpdatePayload)
    ensures ValidateStoreNameUpdate(ValidateStoreNameUpdate(p).payload) == ValidateStoreNameUpdate(p)
  {
    TrimSpaceIdempotent(p.name);
  }

  /** `StorePayload.ToStore`: the fresh id (`uuid.New()`) and the clock
      reading (`time.Now()`) are parameters. */
  function ToStore(p: StorePayload, userId: Uuid, id: Uuid, now: Instant): (s: Store)
    ensures s.userId == userId && s.name == p.name
    ensures s.id == id && s.createdAt == now
  {
    Store(id, p.name, userId, now)
  }

  /** `Store.ToResponse`. */
  function ToResponse(s: Store): (r: StoreResponse)
    ensures Parse(r.id) == Ok(s.id)
    ensures r.name == s.name && r.createdAt == s.createdAt
  {
    ParseFormat(s.id);
    StoreResponse(Format(s.id), s.name, s.createdAt)
  }

  /** The response to a new store gives back the id it was stored under
      and the name as validated; distinct stores answer with distinct ids. */
  lemma ResponseIdentifiesStore(p: StorePayload, userId: Uuid, id: Uuid, now: Instant, other: Store)
    ensures ToResponse(ToStore(p, userId, id, now)).name == p.name
    ensures other.id != id ==> ToResponse(other).id != ToResponse(ToStore(p, userId, id, now)).id
  {
  }
}
