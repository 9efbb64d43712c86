/** The Redis instance that holds sessions and one-time codes, as a map from
    key to value and time-to-live, seen through the go-redis v8 client.

    Time is counted in abstract ticks of one second. A value is either a
    session record (the JSON text the repositories write, whose
    marshal/unmarshal round trip is taken as exact) or a plain string.
    `up == false` stands for a client whose every command fails with a
    transport error. */
module RedisStore {
  import opened Results
  import opened DomainSession

  datatype Value = SessionJson(session: Session) | Text(text: string)

  datatype Ttl = Persistent | Expires(remaining: nat)

  datatype Entry = Entry(value: Value, ttl: Ttl)

  datatype Redis = Redis(data: map<string, Entry>, up: bool)

  /** An entry that is still alive has at least one tick left. */
  predicate Live(e: Entry) {
    e.ttl.Expires? ==> e.ttl.remaining > 0
  }

  predicate Valid(r: Redis) {
    forall k :: k in r.data ==> Live(r.data[k])
  }

  /** The `time.Duration` argument of `SET`. Whole seconds, plus the two
      nanosecond values that the client's `TTL` reply produces for "no
      expiry" (-1 ns, which is also `redis.KeepTTL`) and "no such key"
      (-2 ns). */
  datatype Expiration = Seconds(n: int) | MinusOneNs | MinusTwoNs

  /** The expiry `SET key value exp` leaves on `key`: a positive duration
      sets it; `KeepTTL` keeps the key's current one; any other duration
      (zero, negative) adds no expiry argument, so the key persists. */
  function TtlAfterSet(r: Redis, key: string, exp: Expiration): (t: Ttl)
    ensures exp.Seconds? && exp.n > 0 ==> t == Expires(exp.n)
    ensures exp.MinusOneNs? && key in r.data ==> t == r.data[key].ttl
    ensures (exp.Seconds? && exp.n <= 0) || exp.MinusTwoNs? || (exp.MinusOneNs? && key !in r.data) ==> t == Persistent
  {
    match exp
    case Seconds(n) => if n > 0 then Expires(n) else Persistent
    case MinusOneNs => if key in r.data then r.data[key].ttl else Persistent
    case MinusTwoNs => Persistent
  }

  /** `SET key value exp`: overwrites whatever `key` held. */
  function Set(r: Redis, key: string, v: Value, exp: Expiration): (res: Result<Redis>)
    requires Valid(r)
    ensures !r.up <==> res == Err(External(RedisTransport))
    ensures res.Ok? ==> Valid(res.value) && res.value.up
    ensures res.Ok? ==> res.value.data.Keys == r.data.Keys + {key}
    ensures res.Ok? ==> res.value.data[key] == Entry(v, TtlAfterSet(r, key, exp))
    ensures res.Ok? ==> forall k :: k in r.data && k != key ==> res.value.data[k] == r.data[k]
  {
    if !r.up then Err(External(RedisTransport))
    else Ok(r.(data := r.data[key := Entry(v, TtlAfterSet(r, key, exp))]))
  }

  /** `GET key`; an absent key answers with the `redis.Nil` sentinel. */
  function Get(r: Redis, key: string): (res: Result<Value>)
    ensures !r.up ==> res == Err(External(RedisTransport))
    ensures r.up ==> (res == Err(RedisNil) <==> key !in r.data)
    ensures res.Ok? <==> r.up && key in r.data
    ensures res.Ok? ==> res.value == r.data[key].value
  {
    if !r.up then Err(External(RedisTransport))
    else if key !in r.data then Err(RedisNil)
    else Ok(r.data[key].value)
  }

  /** The reply of `TTL key`: -2 (no key), -1 (no expiry) or the seconds
      left. */
  datatype TtlReply = NoKey | NoExpiry | Remaining(seconds: nat)

  function TtlOf(r: Redis, key: string): (res: Result<TtlReply>)
    ensures !r.up <==> res == Err(External(RedisTransport))
    ensures res.Ok? ==> (res.value == NoKey <==> key !in r.data)
    ensures res.Ok? && key in r.data ==> (res.value == NoExpiry <==> r.data[key].ttl == Persistent)
    ensures res.Ok? && key in r.data && r.data[key].ttl.Expires? ==> res.value == Remaining(r.data[key].ttl.remaining)
  {
    if !r.up then Err(External(RedisTransport))
    else if key !in r.data then Ok(NoKey)
    else match r.data[key].ttl
      case Persistent => Ok(NoExpiry)
      case Expires(n) => Ok(Remaining(n))
  }

  /** How go-redis hands the `TTL` reply back as a `time.Duration`: -2 and -1
      are passed through as nanoseconds, anything else is seconds. */
  function AsDuration(t: TtlReply): Expiration {
    match t
    case NoKey => MinusTwoNs
    case NoExpiry => MinusOneNs
    case Remaining(s) => Seconds(s)
  }

  /** Passing the reply of `TTL` back to `SET` leaves the key's expiry as it
      was, when the key exists and has a positive time left. */
  lemma SetWithOwnTtl(r: Redis, key: string, v: Value)
    requires Valid(r) && r.up && key in r.data
    ensures TtlOf(r, key).Ok?
    ensures Set(r, key, v, AsDuration(TtlOf(r, key).value)).value.data[key].ttl == r.data[key].ttl
  {
  }

  function TickEntry(e: Entry, dt: nat): Entry
    requires e.ttl.Expires? ==> e.ttl.remaining > dt
  {
    match e.ttl
    case Persistent => e
    case Expires(n) => e.(ttl := Expires(n - dt))
  }

  predicate Survives(e: Entry, dt: nat) {
    e.ttl.Expires? ==> e.ttl.remaining > dt
  }

  /** `dt` ticks pass: keys whose time runs out are evicted, the others
      count down. */
  function Tick(r: Redis, dt: nat): (r': Redis)
    requires Valid(r)
    ensures Valid(r') && r'.up == r.up
    ensures forall k :: k in r'.data <==> k in r.data && Survives(r.data[k], dt)
    ensures forall k :: k in r'.data ==> r'.data[k].value == r.data[k].value
    ensures forall k :: k in r'.data && r.data[k].ttl == Persistent ==> r'.data[k].ttl == Persistent
    ensures forall k :: k in r'.data && r.data[k].ttl.Expires? ==>
      r.data[k].ttl.remaining > dt && r'.data[k].ttl == Expires(r.data[k].ttl.remaining - dt)
  {
    r.(data := TickData(r.data, dt))
  }

  /** The map part of `Tick`. */
  function TickData(d: map<string, Entry>, dt: nat): map<string, Entry> {
    map k | k in d && Survives(d[k], dt) :: TickEntry(d[k], dt)
  }

  /** Letting `a` then `b` ticks pass is letting `a + b` pass. */
  lemma TickAdditive(r: Redis, a: nat, b: nat)
    requires Valid(r)
    ensures Tick(Tick(r, a), b) == Tick(r, a + b)
  {
    TickDataAdditive(r.data, a, b);
  }

  lemma TickDataAdditive(d: map<string, Entry>, a: nat, b: nat)
    ensures TickData(TickData(d, a), b) == TickData(d, a + b)
  {
    var mid := TickData(d, a);
    assert TickData(mid, b).Keys == TickData(d, a + b).Keys;
  }
}
