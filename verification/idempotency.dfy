/** The idempotency coordinator: a table of records, keyed by a fingerprint of
    (user, endpoint, request body), that lets one execution of a request handler
    through and answers retries from the stored response.

    The table is the DynamoDB table; each store call may fail with a transport
    error, given as an `Option<Error>` (None: the call succeeds). SHA-256 followed
    by hex encoding is the oracle `hash`, JSON the oracle pair `JsonCodec`. */
module Idempotency {
  import opened Common

  datatype Status = Pending | Completed | Failed

  /** One item of the table. `ttl` is the store's own expiry attribute (Unix
      seconds); `updatedAt` is the `updated_at` attribute that only an update writes. */
  datatype Record = Record(
    key: string,
    userId: string,
    requestHash: string,
    response: string,
    status: Status,
    createdAt: Time,
    expiresAt: Time,
    ttl: int,
    updatedAt: Option<Time>)

  type Table = map<string, Record>

  /** `json.Marshal` and `json.Unmarshal` for handler results of type V. */
  datatype JsonCodec<!V> = JsonCodec(marshal: V -> Result<string, Error>, unmarshal: string -> Result<V, Error>)

  /** What JSON promises: unmarshalling what was marshalled gives the value back. */
  ghost predicate RoundTrips<V(!new)>(codec: JsonCodec<V>)
  {
    forall v :: codec.marshal(v).Success? ==> codec.unmarshal(codec.marshal(v).value) == Success(v)
  }

  /** A hash with no collisions: the idealisation of SHA-256 the design relies on. */
  ghost predicate Injective(hash: string -> string)
  {
    forall x, y :: hash(x) == hash(y) ==> x == y
  }

  /** Transport failures of the store calls made by one request: the read, the
      delete of an expired record, the conditional put and the final update. */
  datatype StoreFaults = StoreFaults(get: Option<Error>, delete: Option<Error>, put: Option<Error>, update: Option<Error>)

  const NoFaults := StoreFaults(None, None, None, None)

  const CheckFailedMsg := "failed to check idempotency"
  const StoreFailedMsg := "failed to store idempotency record"
  const UpdateFailedMsg := "failed to update idempotency record"
  const DeleteFailedMsg := "failed to delete idempotency record"
  const KeyExists := Leaf("idempotency key already exists")
  const AlreadyProcessing := Leaf("request is already being processed")
  const KeyConflict := Leaf("idempotency key conflict: same key used for different request")

  /** The store's invariant: every item sits under its own `key` attribute. */
  ghost predicate KeyedByKey(t: Table)
  {
    forall k :: k in t ==> t[k].key == k
  }

  /** `time.Now().After(record.ExpiresAt)`. */
  predicate Expired(r: Record, now: Time)
  {
    now > r.expiresAt
  }

  /** The record a read returns: present and not yet expired. */
  function Live(t: Table, key: string, now: Time): Option<Record>
  {
    if key in t && !Expired(t[key], now) then Some(t[key]) else None
  }

  /** The table after a successful read of `key`: an expired record is deleted,
      unless the delete itself fails (its error is ignored). */
  function AfterCheck(t: Table, key: string, now: Time, deleteErr: Option<Error>): Table
  {
    if key in t && Expired(t[key], now) && deleteErr.None? then t - {key} else t
  }

  /** The error of the conditional put of a record under `key`, if any. */
  function PutRefusal(t: Table, key: string, putErr: Option<Error>): Option<Error>
  {
    if putErr.Some? then Some(Wrap(StoreFailedMsg, putErr.value))
    else if key in t then Some(KeyExists)
    else None
  }

  /** The record as the store keeps it: its TTL set 24 hours after `now`. */
  function Stamped(r: Record, now: Time): Record
  {
    r.(ttl := now + Day)
  }

  /** The item after `UpdateItem` sets response, status and updated_at. An update
      of an absent key creates an item that has only these attributes. */
  function Updated(t: Table, key: string, response: string, status: Status, now: Time): Record
  {
    if key in t then t[key].(response := response, status := status, updatedAt := Some(now))
    else Record(key, "", "", response, status, ZeroTime, ZeroTime, 0, Some(now))
  }

  function AfterUpdate(t: Table, key: string, response: string, status: Status, now: Time, updateErr: Option<Error>): Table
  {
    if updateErr.Some? then t else t[key := Updated(t, key, response, status, now)]
  }

  /** The record inserted at first sight of a key. */
  function PendingRecord(key: string, userId: string, requestHash: string, now: Time): Record
  {
    Record(key, userId, requestHash, "", Pending, now, now + Day, 0, None)
  }

  /** The cached response of a completed record, decoded. */
  function Cached<V>(codec: JsonCodec<V>, response: string): Result<V, Error>
  {
    match codec.unmarshal(response)
    case Success(v) => Success(v)
    case Failure(e) => Failure(Wrap("failed to unmarshal cached response", e))
  }

  /** Either the request is answered without running the handler, or the handler
      must run, a pending record for `key` having been stored. */
  datatype Admission<V> = Replay(result: Result<V, Error>) | Proceed(key: string)

  /** Specification of everything `ProcessIdempotentRequest` does before it
      invokes the handler: the answer, and the table afterwards. */
  function Admit<V>(t: Table, key: string, userId: string, requestHash: string, now: Time,
                    codec: JsonCodec<V>, faults: StoreFaults): (Admission<V>, Table)
  {
    if faults.get.Some? then
      (Replay(Failure(Wrap(CheckFailedMsg, Wrap(CheckFailedMsg, faults.get.value)))), t)
    else
      var live := Live(t, key, now);
      var t1 := AfterCheck(t, key, now, faults.delete);
      if live.Some? && live.value.requestHash == requestHash && live.value.status == Completed then
        (Replay(Cached(codec, live.value.response)), t1)
      else if live.Some? && live.value.requestHash == requestHash && live.value.status == Pending then
        (Replay(Failure(AlreadyProcessing)), t1)
      else if live.Some? && live.value.requestHash != requestHash then
        (Replay(Failure(KeyConflict)), t1)
      else
        match PutRefusal(t1, key, faults.put)
        case Some(e) => (Replay(Failure(Wrap(StoreFailedMsg, e))), t1)
        case None => (Proceed(key), t1[key := Stamped(PendingRecord(key, userId, requestHash, now), now)])
  }

  /** Specification of what `ProcessIdempotentRequest` does after the handler
      returned `outcome`: the answer, and the table afterwards. */
  function Complete<V>(t: Table, key: string, outcome: Result<V, Error>, codec: JsonCodec<V>,
                       now: Time, updateErr: Option<Error>): (Result<V, Error>, Table)
  {
    match outcome
    case Failure(e) =>
      (Failure(e), AfterUpdate(t, key, "error: " + Text(e), Failed, now, updateErr))
    case Success(v) =>
      match codec.marshal(v)
      case Failure(me) =>
        (Failure(Wrap("failed to marshal response", me)),
         AfterUpdate(t, key, "error: failed to marshal response", Failed, now, updateErr))
      case Success(json) =>
        (Success(v), AfterUpdate(t, key, json, Completed, now, updateErr))
  }

  class IdempotencyService {
    /** SHA-256 of the bytes of a string, hex encoded. */
    const hash: string -> string
    var table: Table
    /** How many times a handler has been invoked through this service. */
    ghost var handlerRuns: nat

    ghost predicate Valid()
      reads this
    {
      KeyedByKey(table)
    }

    constructor (hash: string -> string)
      ensures Valid()
      ensures this.hash == hash && table == map[] && handlerRuns == 0
    {
      this.hash := hash;
      table := map[];
      handlerRuns := 0;
    }

    /** The key: the hash of "user:endpoint:body". */
    function GenerateIdempotencyKey(userId: string, endpoint: string, requestBody: string): string
    {
      hash(userId + ":" + endpoint + ":" + requestBody)
    }

    /** The hash of the request body alone. */
    function GenerateRequestHash(requestBody: string): string
    {
      hash(requestBody)
    }

    /** With a collision-free hash, one user's requests to one endpoint share a
        key exactly when their bodies are equal. */
    lemma KeySeparatesBodies(userId: string, endpoint: string, body1: string, body2: string)
      requires Injective(hash)
      ensures GenerateIdempotencyKey(userId, endpoint, body1) == GenerateIdempotencyKey(userId, endpoint, body2)
              <==> body1 == body2
    {
      var prefix := userId + ":" + endpoint + ":";
      if GenerateIdempotencyKey(userId, endpoint, body1) == GenerateIdempotencyKey(userId, endpoint, body2) {
        assert prefix + body1 == prefix + body2;
        assert body1 == (prefix + body1)[|prefix|..];
        assert body2 == (prefix + body2)[|prefix|..];
      }
    }

    /** With a collision-free hash, two bodies get one request hash exactly
        when they are equal: the hash check detects any change of body. */
    lemma RequestHashSeparatesBodies(body1: string, body2: string)
      requires Injective(hash)
      ensures GenerateRequestHash(body1) == GenerateRequestHash(body2) <==> body1 == body2
    {
    }

    /** The ":"-joined fingerprint does not separate the user from the endpoint:
        even a collision-free hash gives these two different requests one key. */
    lemma KeyJoinIsAmbiguous(body: string)
      ensures GenerateIdempotencyKey("a:b", "c", body) == GenerateIdempotencyKey("a", "b:c", body)
    {
      assert "a:b" + ":" + "c" + ":" + body == "a" + ":" + "b:c" + ":" + body;
    }

    /** Reads `key`; an expired record reads as absent and is deleted. */
    method CheckIdempotency(key: string, now: Time, getErr: Option<Error>, deleteErr: Option<Error>)
      returns (r: Result<Option<Record>, Error>)
      requires Valid()
      modifies this`table
      ensures Valid()
      ensures getErr.Some? ==> r == Failure(Wrap(CheckFailedMsg, getErr.value)) && table == old(table)
      ensures getErr.None? ==> r == Success(Live(old(table), key, now))
                               && table == AfterCheck(old(table), key, now, deleteErr)
      ensures r.Success? && r.value.Some? ==> r.value.value.key == key
    {
      if getErr.Some? {
        return Failure(Wrap(CheckFailedMsg, getErr.value));
      }
      if key !in table {
        return Success(None);
      }
      var record := table[key];
      if now > record.expiresAt {
        var _ := DeleteIdempotencyRecord(key, deleteErr);
        return Success(None);
      }
      return Success(Some(record));
    }

    /** Conditional put: inserts `record` only if its key is absent. */
    method StoreIdempotencyRecord(record: Record, now: Time, putErr: Option<Error>) returns (r: Option<Error>)
      requires Valid()
      modifies this`table
      ensures Valid()
      ensures r == PutRefusal(old(table), record.key, putErr)
      ensures r.Some? ==> table == old(table)
      ensures r.None? ==> table == old(table)[record.key := Stamped(record, now)]
    {
      var stamped := Stamped(record, now);
      if putErr.Some? {
        return Some(Wrap(StoreFailedMsg, putErr.value));
      }
      if record.key in table {
        return Some(KeyExists);
      }
      table := table[record.key := stamped];
      return None;
    }

    /** Sets the response and status of `key` (and its updated_at stamp). */
    method UpdateIdempotencyRecord(key: string, response: string, status: Status, now: Time, updateErr: Option<Error>)
      returns (r: Option<Error>)
      requires Valid()
      modifies this`table
      ensures Valid()
      ensures r == if updateErr.Some? then Some(Wrap(UpdateFailedMsg, updateErr.value)) else None
      ensures table == AfterUpdate(old(table), key, response, status, now, updateErr)
    {
      if updateErr.Some? {
        return Some(Wrap(UpdateFailedMsg, updateErr.value));
      }
      table := table[key := Updated(table, key, response, status, now)];
      return None;
    }

    method DeleteIdempotencyRecord(key: string, deleteErr: Option<Error>) returns (r: Option<Error>)
      requires Valid()
      modifies this`table
      ensures Valid()
      ensures r == if deleteErr.Some? then Some(Wrap(DeleteFailedMsg, deleteErr.value)) else None
      ensures table == if deleteErr.Some? then old(table) else old(table) - {key}
    {
      if deleteErr.Some? {
        return Some(Wrap(DeleteFailedMsg, deleteErr.value));
      }
      table := table - {key};
      return None;
    }

    /** Everything before the handler runs: key and hash, the read, the three
        early answers, and the conditional insert of a pending record. */
    method BeginIdempotentRequest<V>(userId: string, endpoint: string, requestBody: string, now: Time,
                                     codec: JsonCodec<V>, faults: StoreFaults)
      returns (a: Admission<V>)
      requires Valid()
      modifies this`table
      ensures Valid()
      ensures (a, table) == Admit(old(table), GenerateIdempotencyKey(userId, endpoint, requestBody), userId,
                                  GenerateRequestHash(requestBody), now, codec, faults)
    {
      var key := GenerateIdempotencyKey(userId, endpoint, requestBody);
      var requestHash := GenerateRequestHash(requestBody);

      var existing := CheckIdempotency(key, now, faults.get, faults.delete);
      if existing.Failure? {
        return Replay(Failure(Wrap(CheckFailedMsg, existing.error)));
      }
      var record := existing.value;

      if record.Some? && record.value.requestHash == requestHash {
        if record.value.status == Completed {
          return Replay(Cached(codec, record.value.response));
        } else if record.value.status == Pending {
          return Replay(Failure(AlreadyProcessing));
        }
      }

      if record.Some? && record.value.requestHash != requestHash {
        return Replay(Failure(KeyConflict));
      }

      var pending := PendingRecord(key, userId, requestHash, now);
      var err := StoreIdempotencyRecord(pending, now, faults.put);
      if err.Some? {
        return Replay(Failure(Wrap(StoreFailedMsg, err.value)));
      }
      return Proceed(key);
    }

    /** Everything after the handler returned `outcome`: record the outcome
        under `key` and answer. */
    method FinishIdempotentRequest<V>(key: string, outcome: Result<V, Error>, codec: JsonCodec<V>,
                                      now: Time, updateErr: Option<Error>)
      returns (r: Result<V, Error>)
      requires Valid()
      modifies this`table
      ensures Valid()
      ensures (r, table) == Complete(old(table), key, outcome, codec, now, updateErr)
    {
      if outcome.Failure? {
        var _ := UpdateIdempotencyRecord(key, "error: " + Text(outcome.error), Failed, now, updateErr);
        return Failure(outcome.error);
      }
      var responseJson := codec.marshal(outcome.value);
      if responseJson.Failure? {
        var _ := UpdateIdempotencyRecord(key, "error: failed to marshal response", Failed, now, updateErr);
        return Failure(Wrap("failed to marshal response", responseJson.error));
      }
      // A failed update is only logged: the response is returned regardless.
      var _ := UpdateIdempotencyRecord(key, responseJson.value, Completed, now, updateErr);
      return Success(outcome.value);
    }

    /** The whole flow, the handler being the oracle whose answer is `outcome`:
        it runs (and `handlerRuns` counts it) only when admission lets it. */
    method ProcessIdempotentRequest<V>(userId: string, endpoint: string, requestBody: string, now: Time,
                                       codec: JsonCodec<V>, outcome: Result<V, Error>, faults: StoreFaults)
      returns (r: Result<V, Error>)
      requires Valid()
      modifies this`table, this`handlerRuns
      ensures Valid()
      ensures var (a, t1) := Admit(old(table), GenerateIdempotencyKey(userId, endpoint, requestBody), userId,
                                   GenerateRequestHash(requestBody), now, codec, faults);
              match a
              case Replay(result) =>
                r == result && table == t1 && handlerRuns == old(handlerRuns)
              case Proceed(key) =>
                (r, table) == Complete(t1, key, outcome, codec, now, faults.update)
                && handlerRuns == old(handlerRuns) + 1
    {
      var a := BeginIdempotentRequest(userId, endpoint, requestBody, now, codec, faults);
      if a.Replay? {
        return a.result;
      }
      handlerRuns := handlerRuns + 1;
      r := FinishIdempotentRequest(a.key, outcome, codec, now, faults.update);
    }
  }

  // ---------------------------------------------------------------------------
  // Properties of the coordinator, stated on its specification functions.

  /** Admission keeps the store's invariant. */
  lemma AdmitKeepsKeys<V>(t: Table, key: string, userId: string, requestHash: string, now: Time,
                          codec: JsonCodec<V>, faults: StoreFaults)
    requires KeyedByKey(t)
    ensures KeyedByKey(Admit(t, key, userId, requestHash, now, codec, faults).1)
  {
  }

  /** A live completed record with the same body hash is answered from the
      cache: the handler does not run and the table does not change. */
  lemma CompletedIsReplayed<V>(t: Table, key: string, userId: string, requestHash: string, now: Time,
                               codec: JsonCodec<V>, faults: StoreFaults)
    requires faults.get.None?
    requires key in t && !Expired(t[key], now)
    requires t[key].requestHash == requestHash && t[key].status == Completed
    ensures Admit(t, key, userId, requestHash, now, codec, faults) == (Replay(Cached(codec, t[key].response)), t)
  {
  }

  /** A live pending record with the same body hash means a concurrent attempt:
      fail fast, without running the handler. */
  lemma PendingIsRejected<V>(t: Table, key: string, userId: string, requestHash: string, now: Time,
                             codec: JsonCodec<V>, faults: StoreFaults)
    requires faults.get.None?
    requires key in t && !Expired(t[key], now)
    requires t[key].requestHash == requestHash && t[key].status == Pending
    ensures Admit(t, key, userId, requestHash, now, codec, faults) == (Replay(Failure(AlreadyProcessing)), t)
  {
  }

  /** A live record with another body hash is a key conflict, whatever its status. */
  lemma MismatchIsConflict<V>(t: Table, key: string, userId: string, requestHash: string, now: Time,
                              codec: JsonCodec<V>, faults: StoreFaults)
    requires faults.get.None?
    requires key in t && !Expired(t[key], now)
    requires t[key].requestHash != requestHash
    ensures Admit(t, key, userId, requestHash, now, codec, faults) == (Replay(Failure(KeyConflict)), t)
  {
  }

  /** A live failed record with the same body hash is not retried: the
      conditional insert finds the key and the call fails, table unchanged. */
  lemma FailedBlocksUntilExpiry<V>(t: Table, key: string, userId: string, requestHash: string, now: Time,
                                   codec: JsonCodec<V>, faults: StoreFaults)
    requires faults.get.None? && faults.put.None?
    requires key in t && !Expired(t[key], now)
    requires t[key].requestHash == requestHash && t[key].status == Failed
    ensures Admit(t, key, userId, requestHash, now, codec, faults) == (Replay(Failure(Wrap(StoreFailedMsg, KeyExists))), t)
  {
  }

  /** First sight of a key: a pending record expiring 24 hours later is stored
      and the handler is let through; no other key changes. */
  lemma FirstSightProceeds<V>(t: Table, key: string, userId: string, requestHash: string, now: Time,
                              codec: JsonCodec<V>, faults: StoreFaults)
    requires faults.get.None? && faults.put.None?
    requires key !in t
    ensures var (a, t') := Admit(t, key, userId, requestHash, now, codec, faults);
            a == Proceed(key) && key in t' && t'[key].status == Pending
            && t'[key].expiresAt == now + Day && t'[key].requestHash == requestHash
            && forall k :: k != key ==> (k in t' <==> k in t) && (k in t ==> t'[k] == t[k])
  {
  }

  /** An expired record counts as absent: it is deleted and the handler runs again. */
  lemma ExpiredIsReplaced<V>(t: Table, key: string, userId: string, requestHash: string, now: Time,
                             codec: JsonCodec<V>, faults: StoreFaults)
    requires faults == NoFaults
    requires key in t && Expired(t[key], now)
    ensures Admit(t, key, userId, requestHash, now, codec, faults)
            == (Proceed(key), t[key := Stamped(PendingRecord(key, userId, requestHash, now), now)])
  {
    var pending := Stamped(PendingRecord(key, userId, requestHash, now), now);
    assert AfterCheck(t, key, now, None) == t - {key};
    assert (t - {key})[key := pending] == t[key := pending];
  }

  /** A handler error is returned unchanged and the record is marked failed. */
  lemma HandlerErrorPropagates<V>(t: Table, key: string, e: Error, codec: JsonCodec<V>, now: Time)
    requires key in t
    ensures var (r, t') := Complete(t, key, Failure(e), codec, now, None);
            r == Failure(e) && t'[key].status == Failed && t'[key].expiresAt == t[key].expiresAt
  {
  }

  /** A handler success is returned even if recording it fails; when the record
      is written it is completed and holds the marshalled response. */
  lemma SuccessIsReturned<V>(t: Table, key: string, v: V, codec: JsonCodec<V>, now: Time, updateErr: Option<Error>)
    requires codec.marshal(v).Success?
    ensures var (r, t') := Complete(t, key, Success(v), codec, now, updateErr);
            r == Success(v)
            && (updateErr.Some? ==> t' == t)
            && (updateErr.None? ==> t'[key].status == Completed && t'[key].response == codec.marshal(v).value)
  {
  }

  /** At most once: once the handler has been let through for `key` at time
      `now` and its outcome recorded (or not), no request for the same key
      within the next 24 hours lets a handler through again, whatever its body
      and whatever the store does. A retry with the same body after a recorded
      success is answered by decoding the text stored for that success, which
      is the success itself when the codec round-trips. */
  lemma {:induction false} AtMostOnce<V(!new)>(t: Table, key: string, userId: string, requestHash: string, now: Time,
                                         codec: JsonCodec<V>, faults: StoreFaults, outcome: Result<V, Error>,
                                         userId2: string, requestHash2: string, now2: Time, faults2: StoreFaults)
    requires Admit(t, key, userId, requestHash, now, codec, faults).0.Proceed?
    requires now2 <= now + Day
    ensures var t1 := Admit(t, key, userId, requestHash, now, codec, faults).1;
            var (r, t2) := Complete(t1, key, outcome, codec, now, faults.update);
            var (a2, t3) := Admit(t2, key, userId2, requestHash2, now2, codec, faults2);
            a2.Replay?
            && ((r.Success? && faults.update.None? && faults2.get.None? && requestHash2 == requestHash) ==>
                  codec.marshal(r.value).Success?
                  && a2 == Replay(Cached(codec, codec.marshal(r.value).value))
                  && (RoundTrips(codec) ==> a2 == Replay(r)))
  {
    var t1 := Admit(t, key, userId, requestHash, now, codec, faults).1;
    var (r, t2) := Complete(t1, key, outcome, codec, now, faults.update);
    assert key in t1 && t1[key].expiresAt == now + Day && t1[key].requestHash == requestHash;
    assert key in t2 && t2[key].expiresAt == now + Day && t2[key].requestHash == requestHash;
    assert Live(t2, key, now2) == Some(t2[key]);
    if r.Success? && faults.update.None? && faults2.get.None? && requestHash2 == requestHash {
      assert outcome.Success? && codec.marshal(outcome.value).Success?;
      assert t2[key].status == Completed && t2[key].response == codec.marshal(outcome.value).value;
    }
  }
}
