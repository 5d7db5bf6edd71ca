/** The `POST /journal-entries` request handler: authenticate, parse, validate,
    then, under the idempotency coordinator, check the spend ledger and either
    degrade to a plaintext entry or encrypt the entry and record its cost.

    Token validation, request parsing, JSON parsing and time formatting are
    oracles. Go passes `processJournalEntry` to the coordinator as a closure; a
    Dafny method cannot be passed as a value, so `Handle` runs the
    coordinator's two halves around it itself. */
module JournalEntry {
  import opened Common
  import opened GoJson
  import I = Idempotency
  import C = CostControl
  import E = Encryption

  datatype JournalEntryRequest = JournalEntryRequest(content: string, mood: string, tags: seq<string>, idempotencyKey: string)

  datatype JournalEntryResponse = JournalEntryResponse(
    id: string,
    userId: string,
    content: string,
    mood: string,
    tags: seq<string>,
    createdAt: Time,
    updatedAt: Time,
    encrypted: bool)

  datatype ApiRequest = ApiRequest(headers: map<string, string>, body: string)

  /** An error body is shown by its three fields; a success body is JSON text. */
  datatype ResponseBody = ErrorBody(error: string, code: string, details: string) | JsonText(text: string)

  datatype ApiResponse = ApiResponse(statusCode: int, headers: map<string, string>, body: ResponseBody)

  const JsonHeaders := map["Content-Type" := "application/json"]

  /** The collaborators of one invocation: token validation (giving the user id
      of a valid token), request parsing, JSON parsing, the text of a time
      (RFC 3339 with nanoseconds, as `time.Time` is written), the key
      management service and base64. */
  datatype Services = Services(
    validateToken: string -> Result<string, Error>,
    parseRequest: string -> Result<JournalEntryRequest, Error>,
    parse: string -> Result<Json, Error>,
    timeText: Time -> string,
    kms: E.Kms,
    b64: E.Base64)

  /** What the coordinator hands back (a Go `interface{}`): the entry the handler
      built, or a cached response as decoded from the store. */
  datatype Answer = Entry(entry: JournalEntryResponse) | Decoded(value: Json) | Raw(text: string)

  /** How a cached response is decoded: into an `interface{}` (a generic map),
      as the coordinator does, or kept as the stored text (a `json.RawMessage`). */
  datatype CachedForm = GenericValue | RawText

  /** The entry as `json.Marshal` writes the struct: fields in declaration order. */
  function EntryJson(e: JournalEntryResponse, timeText: Time -> string): Json
  {
    JObject([
      Member("id", JString(e.id)),
      Member("user_id", JString(e.userId)),
      Member("content", JString(e.content)),
      Member("mood", JString(e.mood)),
      Member("tags", JArray(seq(|e.tags|, i requires 0 <= i < |e.tags| => JString(e.tags[i])))),
      Member("created_at", JString(timeText(e.createdAt))),
      Member("updated_at", JString(timeText(e.updatedAt))),
      Member("encrypted", JBool(e.encrypted))])
  }

  /** `json.Marshal` of an answer. A raw message is checked to be JSON and
      written as it is. */
  function MarshalAnswer(a: Answer, svc: Services): (r: Result<string, Error>)
    ensures !a.Raw? ==> r.Success?
    ensures a.Entry? ==> r == Success(Encode(EntryJson(a.entry, svc.timeText)))
    ensures a.Decoded? ==> r == Success(Encode(a.value))
    ensures a.Raw? ==> (r.Success? <==> svc.parse(a.text).Success?) && (r.Success? ==> r.value == a.text)
  {
    match a
    case Entry(e) => Success(Encode(EntryJson(e, svc.timeText)))
    case Decoded(j) => Success(Encode(j))
    case Raw(t) =>
      match svc.parse(t)
      case Failure(e) => Failure(Wrap("json: error calling MarshalJSON for type json.RawMessage", e))
      case Success(_) => Success(t)
  }

  /** `json.Unmarshal` of a stored response into the chosen form. */
  function UnmarshalAnswer(text: string, svc: Services, form: CachedForm): (r: Result<Answer, Error>)
    ensures r.Success? <==> svc.parse(text).Success?
    ensures r.Success? && form == GenericValue ==> r.value == Decoded(Generic(svc.parse(text).value))
    ensures r.Success? && form == RawText ==> r.value == Raw(text)
  {
    match svc.parse(text)
    case Failure(e) => Failure(e)
    case Success(j) =>
      match form
      case GenericValue => Success(Decoded(Generic(j)))
      case RawText => Success(Raw(text))
  }

  function Codec(svc: Services, form: CachedForm): I.JsonCodec<Answer>
  {
    I.JsonCodec(a => MarshalAnswer(a, svc), text => UnmarshalAnswer(text, svc, form))
  }

  /** Transport failures of the ledger calls: the admission read, and the read
      and the write of recording. */
  datatype LedgerFaults = LedgerFaults(checkGet: Option<Error>, recordGet: Option<Error>, recordPut: Option<Error>)

  const Endpoint := "POST /journal-entries"
  const BearerPrefix := "Bearer "

  function ErrorResponse(statusCode: int, code: string, message: string, details: string): ApiResponse
  {
    ApiResponse(statusCode, JsonHeaders, ErrorBody(message, code, details))
  }

  /** Removes a leading "Bearer " when something follows it. */
  function StripBearer(header: string): (token: string)
    ensures |header| > 7 && header[..7] == BearerPrefix ==> BearerPrefix + token == header && token != ""
    ensures !(|header| > 7 && header[..7] == BearerPrefix) ==> token == header
  {
    if |header| > 7 && header[..7] == BearerPrefix then header[7..] else header
  }

  /** The user id of the request: a missing (or empty) Authorization header is
      refused before the token validator is asked. */
  function ExtractUserIdFromRequest(request: ApiRequest, validateToken: string -> Result<string, Error>)
    : (r: Result<string, Error>)
    ensures ("Authorization" !in request.headers || request.headers["Authorization"] == "") ==>
              r == Failure(Leaf("missing authorization header"))
    ensures "Authorization" in request.headers && request.headers["Authorization"] != "" ==>
              (r.Success? <==> validateToken(StripBearer(request.headers["Authorization"])).Success?)
    ensures r.Success? ==> r.value == validateToken(StripBearer(request.headers["Authorization"])).value
    ensures "Authorization" in request.headers && request.headers["Authorization"] != ""
            && validateToken(StripBearer(request.headers["Authorization"])).Failure? ==>
              r == Failure(Wrap("invalid token", validateToken(StripBearer(request.headers["Authorization"])).error))
  {
    var authHeader := if "Authorization" in request.headers then request.headers["Authorization"] else "";
    if authHeader == "" then Failure(Leaf("missing authorization header"))
    else
      match validateToken(StripBearer(authHeader))
      case Failure(e) => Failure(Wrap("invalid token", e))
      case Success(userId) => Success(userId)
  }

  /** The checks made before any service is used, in their order:
      authentication (401), JSON (400), non-empty content (400). */
  function ValidateRequest(request: ApiRequest, svc: Services): (r: Result<(string, JournalEntryRequest), ApiResponse>)
    ensures ExtractUserIdFromRequest(request, svc.validateToken).Failure? ==>
              r.Failure? && r.error.statusCode == 401 && r.error.body.ErrorBody? && r.error.body.code == "UNAUTHORIZED"
    ensures ExtractUserIdFromRequest(request, svc.validateToken).Success? && svc.parseRequest(request.body).Failure? ==>
              r.Failure? && r.error.statusCode == 400 && r.error.body.ErrorBody? && r.error.body.code == "INVALID_REQUEST"
    ensures ExtractUserIdFromRequest(request, svc.validateToken).Success? && svc.parseRequest(request.body).Success?
            && svc.parseRequest(request.body).value.content == "" ==>
              r.Failure? && r.error.statusCode == 400 && r.error.body.ErrorBody? && r.error.body.code == "VALIDATION_ERROR"
    ensures r.Success? <==> ExtractUserIdFromRequest(request, svc.validateToken).Success?
                            && svc.parseRequest(request.body).Success?
                            && svc.parseRequest(request.body).value.content != ""
    ensures r.Failure? ==> r.error.statusCode == 400 || r.error.statusCode == 401
    ensures r.Success? ==> r.value == (ExtractUserIdFromRequest(request, svc.validateToken).value,
                                       svc.parseRequest(request.body).value)
  {
    match ExtractUserIdFromRequest(request, svc.validateToken)
    case Failure(e) =>
      Failure(ErrorResponse(401, "UNAUTHORIZED", "Invalid or missing authentication token", Text(e)))
    case Success(userId) =>
      match svc.parseRequest(request.body)
      case Failure(e) =>
        Failure(ErrorResponse(400, "INVALID_REQUEST", "Invalid JSON in request body", Text(e)))
      case Success(req) =>
        if req.content == "" then Failure(ErrorResponse(400, "VALIDATION_ERROR", "Content is required", ""))
        else Success((userId, req))
  }

  /** The estimated cost of a journal entry: its content length in input
      tokens, 100 output tokens, at Sonnet prices. */
  function EstimatedCost(req: JournalEntryRequest): (cost: C.Money)
    ensures cost > 0.0
  {
    C.EstimateLLMCost(|req.content|, 100, C.Sonnet)
  }

  /** The degraded entry: fields in plaintext, not marked encrypted. Its user
      id is the placeholder "user_id", not the caller's. */
  function HandleCostLimitExceeded(req: JournalEntryRequest, id: string, now: Time): (e: JournalEntryResponse)
    ensures !e.encrypted && e.userId == "user_id" && e.id == id
    ensures e.content == req.content && e.mood == req.mood && e.tags == req.tags
    ensures e.createdAt == now && e.updatedAt == now
  {
    JournalEntryResponse(id, "user_id", req.content, req.mood, req.tags, now, now, false)
  }

  /** Content, mood and tags encrypted in that order; the first failure wins. */
  function EncryptFields(kms: E.Kms, b64: E.Base64, req: JournalEntryRequest)
    : (r: Result<(string, string, seq<string>), Error>)
    ensures r.Success? <==> E.EncryptPHI(kms, b64, req.content).Success? && E.EncryptPHI(kms, b64, req.mood).Success?
                            && E.MapAll(E.Encrypting, kms, b64, req.tags).Success?
    ensures E.EncryptPHI(kms, b64, req.content).Failure? ==>
              r == Failure(Wrap("failed to encrypt content", E.EncryptPHI(kms, b64, req.content).error))
    ensures E.EncryptPHI(kms, b64, req.content).Success? && E.EncryptPHI(kms, b64, req.mood).Failure? ==>
              r == Failure(Wrap("failed to encrypt mood", E.EncryptPHI(kms, b64, req.mood).error))
    ensures E.EncryptPHI(kms, b64, req.content).Success? && E.EncryptPHI(kms, b64, req.mood).Success?
            && E.MapAll(E.Encrypting, kms, b64, req.tags).Failure? ==>
              r == Failure(Wrap("failed to encrypt tags", E.MapAll(E.Encrypting, kms, b64, req.tags).error))
    ensures r.Success? ==> r.value == (E.EncryptPHI(kms, b64, req.content).value, E.EncryptPHI(kms, b64, req.mood).value,
                                       E.MapAll(E.Encrypting, kms, b64, req.tags).value)
  {
    match E.EncryptPHI(kms, b64, req.content)
    case Failure(e) => Failure(Wrap("failed to encrypt content", e))
    case Success(content) =>
      match E.EncryptPHI(kms, b64, req.mood)
      case Failure(e) => Failure(Wrap("failed to encrypt mood", e))
      case Success(mood) =>
        match E.MapAll(E.Encrypting, kms, b64, req.tags)
        case Failure(e) => Failure(Wrap("failed to encrypt tags", e))
        case Success(tags) => Success((content, mood, tags))
  }

  /** Specification of `processJournalEntry`'s answer, given the answer of the
      admission check. */
  function JournalOutcome(check: Result<C.CostControlResult, Error>, userId: string, req: JournalEntryRequest,
                          kms: E.Kms, b64: E.Base64, id: string, now: Time): Result<JournalEntryResponse, Error>
  {
    match check
    case Failure(e) => Failure(Wrap("failed to check cost limits", e))
    case Success(c) =>
      if !c.allowed then Success(HandleCostLimitExceeded(req, id, now))
      else
        match EncryptFields(kms, b64, req)
        case Failure(e) => Failure(e)
        case Success((content, mood, tags)) =>
          Success(JournalEntryResponse(id, userId, content, mood, tags, now, now, true))
  }

  /** Whether `processJournalEntry` goes on to record the cost: only on the
      admitted path, after all three encryptions succeeded. */
  predicate Charges(check: Result<C.CostControlResult, Error>, kms: E.Kms, b64: E.Base64, req: JournalEntryRequest)
  {
    check.Success? && check.value.allowed && EncryptFields(kms, b64, req).Success?
  }

  /** The spend table after `processJournalEntry`. */
  function LedgerAfter(t: C.SpendTable, check: Result<C.CostControlResult, Error>, userId: string,
                       req: JournalEntryRequest, kms: E.Kms, b64: E.Base64, today: string, now: Time,
                       faults: LedgerFaults): C.SpendTable
  {
    if Charges(check, kms, b64, req) && faults.recordGet.None? && faults.recordPut.None? then
      t[(userId, today) := C.Charged(C.TodaysRecord(t, userId, today, now), EstimatedCost(req), now)]
    else t
  }

  method ProcessJournalEntry(userId: string, req: JournalEntryRequest, kms: E.Kms, b64: E.Base64,
                             ledger: C.CostControlService, today: string, now: Time, id: string,
                             faults: LedgerFaults)
    returns (r: Result<JournalEntryResponse, Error>)
    requires ledger.Valid()
    modifies ledger
    ensures ledger.Valid()
    ensures var check := old(ledger.CheckUserSpendLimit(userId, today, EstimatedCost(req), now, faults.checkGet));
            r == JournalOutcome(check, userId, req, kms, b64, id, now)
            && ledger.table == LedgerAfter(old(ledger.table), check, userId, req, kms, b64, today, now, faults)
  {
    var estimatedCost := C.EstimateLLMCost(|req.content|, 100, C.Sonnet);
    var costCheck := ledger.CheckUserSpendLimit(userId, today, estimatedCost, now, faults.checkGet);
    if costCheck.Failure? {
      return Failure(Wrap("failed to check cost limits", costCheck.error));
    }

    if !costCheck.value.allowed {
      return Success(HandleCostLimitExceeded(req, id, now));
    }

    var encryptedContent := E.EncryptPHI(kms, b64, req.content);
    if encryptedContent.Failure? {
      return Failure(Wrap("failed to encrypt content", encryptedContent.error));
    }

    var encryptedMood := E.EncryptPHI(kms, b64, req.mood);
    if encryptedMood.Failure? {
      return Failure(Wrap("failed to encrypt mood", encryptedMood.error));
    }

    var encryptedTags := E.EncryptPHIArray(kms, b64, req.tags);
    if encryptedTags.Failure? {
      return Failure(Wrap("failed to encrypt tags", encryptedTags.error));
    }

    var entry := JournalEntryResponse(id, userId, encryptedContent.value, encryptedMood.value,
                                      encryptedTags.value, now, now, true);

    // A failure to record the cost is only logged.
    var _ := ledger.RecordLLMRequest(userId, today, estimatedCost, now, faults.recordGet, faults.recordPut);
    return Success(entry);
  }

  /** The handler's result as the coordinator sees it. */
  function AsAnswer(r: Result<JournalEntryResponse, Error>): (a: Result<Answer, Error>)
    ensures a.Success? <==> r.Success?
    ensures a.Success? ==> a.value == Entry(r.value)
    ensures a.Failure? ==> a.error == r.error
  {
    match r
    case Failure(e) => Failure(e)
    case Success(entry) => Success(Entry(entry))
  }

  /** The HTTP answer to the coordinator's result. */
  function Respond(result: Result<Answer, Error>, codec: I.JsonCodec<Answer>): (resp: ApiResponse)
    ensures resp.headers == JsonHeaders
    ensures resp.statusCode == 201 <==> result.Success? && codec.marshal(result.value).Success?
    ensures result.Failure? ==> resp.statusCode == 500 && resp.body.ErrorBody? && resp.body.code == "PROCESSING_ERROR"
    ensures resp.statusCode == 201 ==> resp.body == JsonText(codec.marshal(result.value).value)
    ensures result.Success? && codec.marshal(result.value).Failure? ==>
              resp.statusCode == 500 && resp.body.ErrorBody? && resp.body.code == "SERIALIZATION_ERROR"
              && resp.body.details == Text(codec.marshal(result.value).error)
  {
    match result
    case Failure(e) =>
      ErrorResponse(500, "PROCESSING_ERROR", "Failed to process journal entry", Text(e))
    case Success(answer) =>
      match codec.marshal(answer)
      case Failure(e) => ErrorResponse(500, "SERIALIZATION_ERROR", "Failed to serialize response", Text(e))
      case Success(text) => ApiResponse(201, JsonHeaders, JsonText(text))
  }

  /** The whole handler; `form` says how the coordinator decodes a cached
      response (`GenericValue` in the code as written). Service construction is
      not modelled: it always succeeds. */
  method Handle(request: ApiRequest, svc: Services, form: CachedForm,
                idem: I.IdempotencyService, ledger: C.CostControlService,
                today: string, now: Time, id: string, storeFaults: I.StoreFaults, ledgerFaults: LedgerFaults)
    returns (resp: ApiResponse)
    requires idem.Valid() && ledger.Valid()
    modifies idem, ledger
    ensures idem.Valid() && ledger.Valid()
    ensures var v := ValidateRequest(request, svc);
            v.Failure? ==>
              resp == v.error && idem.table == old(idem.table) && ledger.table == old(ledger.table)
              && idem.handlerRuns == old(idem.handlerRuns)
    ensures var v := ValidateRequest(request, svc);
            v.Success? ==>
              var (userId, req) := v.value;
              var codec := Codec(svc, form);
              var key := idem.GenerateIdempotencyKey(userId, Endpoint, request.body);
              var (a, t1) := I.Admit(old(idem.table), key, userId, idem.GenerateRequestHash(request.body),
                                     now, codec, storeFaults);
              match a
              case Replay(result) =>
                resp == Respond(result, codec) && idem.table == t1
                && ledger.table == old(ledger.table) && idem.handlerRuns == old(idem.handlerRuns)
              case Proceed(_) =>
                var check := old(ledger.CheckUserSpendLimit(userId, today, EstimatedCost(req), now, ledgerFaults.checkGet));
                var outcome := AsAnswer(JournalOutcome(check, userId, req, svc.kms, svc.b64, id, now));
                var (result, t2) := I.Complete(t1, key, outcome, codec, now, storeFaults.update);
                resp == Respond(result, codec) && idem.table == t2
                && ledger.table == LedgerAfter(old(ledger.table), check, userId, req, svc.kms, svc.b64, today, now, ledgerFaults)
                && idem.handlerRuns == old(idem.handlerRuns) + 1
  {
    var validated := ValidateRequest(request, svc);
    if validated.Failure? {
      return validated.error;
    }
    var (userId, req) := validated.value;
    var codec := Codec(svc, form);

    ghost var key := idem.GenerateIdempotencyKey(userId, Endpoint, request.body);
    ghost var check := ledger.CheckUserSpendLimit(userId, today, EstimatedCost(req), now, ledgerFaults.checkGet);
    ghost var spent := ledger.table;
    ghost var runs := idem.handlerRuns;
    var admission := idem.BeginIdempotentRequest(userId, Endpoint, request.body, now, codec, storeFaults);
    ghost var t1 := idem.table;
    var result;
    if admission.Replay? {
      result := admission.result;
    } else {
      idem.handlerRuns := idem.handlerRuns + 1;
      var outcome := ProcessJournalEntry(userId, req, svc.kms, svc.b64, ledger, today, now, id, ledgerFaults);
      assert outcome == JournalOutcome(check, userId, req, svc.kms, svc.b64, id, now);
      assert ledger.table == LedgerAfter(spent, check, userId, req, svc.kms, svc.b64, today, now, ledgerFaults);
      assert admission.key == key && idem.handlerRuns == runs + 1;
      result := idem.FinishIdempotentRequest(admission.key, AsAnswer(outcome), codec, now, storeFaults.update);
      assert (result, idem.table) == I.Complete(t1, key, AsAnswer(outcome), codec, now, storeFaults.update);
    }
    return Respond(result, codec);
  }

  // ---------------------------------------------------------------------------
  // Properties of the handler.

  /** A request without an Authorization header gets 401, whatever its body. */
  lemma MissingAuthIsUnauthorized(request: ApiRequest, svc: Services)
    requires "Authorization" !in request.headers
    ensures ValidateRequest(request, svc)
            == Failure(ErrorResponse(401, "UNAUTHORIZED", "Invalid or missing authentication token",
                                     "missing authorization header"))
  {
  }

  /** "Bearer " followed by a token gives the token; anything else is passed on as is. */
  lemma BearerStripped(token: string)
    ensures token != "" ==> StripBearer(BearerPrefix + token) == token
    ensures StripBearer(BearerPrefix) == BearerPrefix
  {
    if token != "" {
      assert (BearerPrefix + token)[..7] == BearerPrefix;
    }
  }

  /** A denied admission gives the plaintext entry, whatever the encryption
      services would do, and records no cost. */
  lemma {:induction false} DeniedIsDegraded(c: C.CostControlResult, userId: string, req: JournalEntryRequest,
                                            kms: E.Kms, b64: E.Base64, id: string, now: Time,
                                            t: C.SpendTable, today: string, faults: LedgerFaults)
    requires !c.allowed
    ensures JournalOutcome(Success(c), userId, req, kms, b64, id, now)
            == Success(JournalEntryResponse(id, "user_id", req.content, req.mood, req.tags, now, now, false))
    ensures LedgerAfter(t, Success(c), userId, req, kms, b64, today, now, faults) == t
  {
  }

  /** An admitted entry that could not be encrypted is an error, and no cost is recorded. */
  lemma EncryptionFailureChargesNothing(c: C.CostControlResult, userId: string, req: JournalEntryRequest,
                                        kms: E.Kms, b64: E.Base64, id: string, now: Time,
                                        t: C.SpendTable, today: string, faults: LedgerFaults)
    requires c.allowed && EncryptFields(kms, b64, req).Failure?
    ensures JournalOutcome(Success(c), userId, req, kms, b64, id, now).Failure?
    ensures LedgerAfter(t, Success(c), userId, req, kms, b64, today, now, faults) == t
  {
  }

  /** An admitted, encrypted entry belongs to the caller, is marked encrypted,
      and with sound services decrypts back to the request's fields; exactly
      the checked estimate is recorded unless recording fails. */
  lemma {:induction false} AdmittedEntryRoundTrips(c: C.CostControlResult, userId: string, req: JournalEntryRequest,
                                                   kms: E.Kms, b64: E.Base64, id: string, now: Time,
                                                   t: C.SpendTable, today: string)
    requires c.allowed && EncryptFields(kms, b64, req).Success?
    requires E.KmsSound(kms, E.PhiContext) && E.Base64Sound(b64)
    ensures var r := JournalOutcome(Success(c), userId, req, kms, b64, id, now);
            r.Success? && r.value.encrypted && r.value.userId == userId && |r.value.tags| == |req.tags|
            && E.DecryptPHI(kms, b64, r.value.content) == Success(req.content)
            && E.DecryptPHI(kms, b64, r.value.mood) == Success(req.mood)
            && E.MapAll(E.Decrypting, kms, b64, r.value.tags) == Success(req.tags)
    ensures var t' := LedgerAfter(t, Success(c), userId, req, kms, b64, today, now, LedgerFaults(None, None, None));
            (userId, today) in t'
            && t'[(userId, today)].llmCost == C.TodaysRecord(t, userId, today, now).llmCost + EstimatedCost(req)
  {
    E.RoundTrip(kms, b64, req.content);
    E.RoundTrip(kms, b64, req.mood);
    E.ArrayRoundTrip(kms, b64, req.tags);
  }

  /** The keys of an entry's JSON object, in declaration order. */
  const EntryKeys: seq<string> := ["id", "user_id", "content", "mood", "tags", "created_at", "updated_at", "encrypted"]

  lemma ContentIsLeastKey()
    ensures forall k :: k in EntryKeys && k != "content" ==> Below("content", k)
  {
    assert Below("content", "created_at") by {
      assert "content"[1..] == "ontent" && "created_at"[1..] == "reated_at";
    }
  }

  /** The keys of the decoded entry are the entry's keys. */
  lemma DecodedEntryKeys(e: JournalEntryResponse, timeText: Time -> string)
    ensures Generic(EntryJson(e, timeText)).JObject?
    ensures Names(Generic(EntryJson(e, timeText)).members) == set k | k in EntryKeys
    ensures Sorted(Generic(EntryJson(e, timeText)).members)
  {
    var j := EntryJson(e, timeText);
    var mapped := seq(|j.members|, i requires 0 <= i < |j.members| => Member(j.members[i].name, Generic(j.members[i].value)));
    assert Generic(j) == JObject(SortMembers(mapped));
    assert forall i :: 0 <= i < 8 ==> mapped[i].name == EntryKeys[i];
    assert Names(mapped) == set k | k in EntryKeys by {
      forall k | k in EntryKeys ensures k in Names(mapped) {
        var i :| 0 <= i < 8 && EntryKeys[i] == k;
        assert mapped[i] in mapped;
      }
    }
  }

  lemma EntryTextStart(e: JournalEntryResponse, timeText: Time -> string)
    ensures Encode(EntryJson(e, timeText))[2] == 'i'
  {
    ObjectTextStart(EntryJson(e, timeText).members);
  }

  lemma DecodedEntryTextStart(e: JournalEntryResponse, timeText: Time -> string)
    ensures Encode(Generic(EntryJson(e, timeText)))[2] == 'c'
  {
    var sorted := Generic(EntryJson(e, timeText)).members;
    DecodedEntryKeys(e, timeText);
    ContentIsLeastKey();
    FirstIsLeast(sorted, "content");
    ObjectTextStart(sorted);
  }

  /** A cached response decoded into an `interface{}` is written back with its
      keys in sorted order: the replay of an entry starts `{"content"`, where
      the first answer started `{"id"`. */
  lemma ReplayReordersMembers(e: JournalEntryResponse, svc: Services)
    requires ParseSound(svc.parse)
    ensures var codec := Codec(svc, GenericValue);
            var first := Encode(EntryJson(e, svc.timeText));
            var replayed := Generic(EntryJson(e, svc.timeText));
            codec.marshal(Entry(e)) == Success(first)
            && I.Cached(codec, first) == Success(Decoded(replayed))
            && codec.marshal(Decoded(replayed)) == Success(Encode(replayed))
            && first[2] == 'i' && Encode(replayed)[2] == 'c'
  {
    var j := EntryJson(e, svc.timeText);
    assert svc.parse(Encode(j)) == Success(j);
    EntryTextStart(e, svc.timeText);
    DecodedEntryTextStart(e, svc.timeText);
  }

  /** Kept as the stored text, a cached response is written back unchanged. */
  lemma RawReplayIsIdentical(a: Answer, svc: Services)
    requires ParseSound(svc.parse)
    requires MarshalAnswer(a, svc).Success?
    ensures var codec := Codec(svc, RawText);
            var text := codec.marshal(a).value;
            I.Cached(codec, text) == Success(Raw(text)) && codec.marshal(Raw(text)) == Success(text)
  {
    match a
    case Entry(e) => assert svc.parse(Encode(EntryJson(e, svc.timeText))).Success?;
    case Decoded(j) => assert svc.parse(Encode(j)).Success?;
    case Raw(t) =>
  }

  /** Decoded into an `interface{}`, a replay of a replay is the replay itself:
      only the first answer differs from the later ones. */
  lemma GenericReplayIsStable(a: Answer, svc: Services)
    requires ParseSound(svc.parse)
    requires MarshalAnswer(a, svc).Success?
    ensures var codec := Codec(svc, GenericValue);
            var first := I.Cached(codec, codec.marshal(a).value);
            first.Success? && codec.marshal(first.value).Success?
            && I.Cached(codec, codec.marshal(first.value).value) == first
  {
    var j := match a
      case Entry(e) => EntryJson(e, svc.timeText)
      case Decoded(v) => v
      case Raw(t) => svc.parse(t).value;
    assert svc.parse(Encode(j)) == Success(j);
    assert svc.parse(Encode(Generic(j))) == Success(Generic(j));
    GenericIdempotent(j);
  }

  /** A request whose key has no record yet (other keys may have any) is
      answered 201, and its retry comes within 24 hours while the store works: the handler does not run again and no second cost is
      recorded. The retry gets the very same answer exactly when cached
      responses are kept as text; decoded into an `interface{}`, as the code
      does, the retry's body lists the same members in another order. */
  method RetryIsReplayed(request: ApiRequest, svc: Services, form: CachedForm,
                         idem: I.IdempotencyService, ledger: C.CostControlService,
                         today: string, now: Time, id: string, ledgerFaults: LedgerFaults,
                         today2: string, now2: Time, id2: string, ledgerFaults2: LedgerFaults)
    returns (first: ApiResponse, second: ApiResponse, ghost spentAfterFirst: C.SpendTable)
    requires idem.Valid() && ledger.Valid()
    requires ValidateRequest(request, svc).Success? ==>
               idem.GenerateIdempotencyKey(ValidateRequest(request, svc).value.0, Endpoint, request.body) !in idem.table
    requires ParseSound(svc.parse)
    requires now <= now2 <= now + Day
    modifies idem, ledger
    ensures first.statusCode == 201 ==>
              second.statusCode == 201
              && (second == first <==> form == RawText)
              && idem.handlerRuns == old(idem.handlerRuns) + 1
              && ledger.table == spentAfterFirst
  {
    var validated := ValidateRequest(request, svc);
    ghost var t0 := idem.table;
    ghost var outcome: Result<Answer, Error> := Failure(Leaf(""));
    if validated.Success? {
      var (userId, req) := validated.value;
      outcome := AsAnswer(JournalOutcome(ledger.CheckUserSpendLimit(userId, today, EstimatedCost(req), now, ledgerFaults.checkGet),
                                         userId, req, svc.kms, svc.b64, id, now));
    }
    first := Handle(request, svc, form, idem, ledger, today, now, id, I.NoFaults, ledgerFaults);
    ghost var runs := idem.handlerRuns;
    spentAfterFirst := ledger.table;
    if first.statusCode != 201 {
      second := Handle(request, svc, form, idem, ledger, today2, now2, id2, I.NoFaults, ledgerFaults2);
      return;
    }
    // The first request was admitted, processed and recorded as completed.
    var (userId, req) := validated.value;
    var codec := Codec(svc, form);
    var key := idem.GenerateIdempotencyKey(userId, Endpoint, request.body);
    var hash := idem.GenerateRequestHash(request.body);
    I.FirstSightProceeds(t0, key, userId, hash, now, codec, I.NoFaults);
    ghost var (a, t1) := I.Admit(t0, key, userId, hash, now, codec, I.NoFaults);
    assert a.Proceed?;
    ghost var (r, t2) := I.Complete(t1, key, outcome, codec, now, None);
    assert idem.table == t2 && first == Respond(r, codec);
    assert r.Success? && r == outcome;
    I.AtMostOnce(t0, key, userId, hash, now, codec, I.NoFaults, outcome, userId, hash, now2, I.NoFaults);
    ghost var a2 := I.Admit(t2, key, userId, hash, now2, codec, I.NoFaults).0;
    assert a2 == I.Replay(I.Cached(codec, codec.marshal(r.value).value));

    // The retry is answered from the cache.
    second := Handle(request, svc, form, idem, ledger, today2, now2, id2, I.NoFaults, ledgerFaults2);
    assert second == Respond(a2.result, codec) && idem.handlerRuns == runs;
    var e := outcome.value.entry;
    assert first.body == JsonText(Encode(EntryJson(e, svc.timeText)));
    if form == RawText {
      RawReplayIsIdentical(Entry(e), svc);
    } else {
      ReplayReordersMembers(e, svc);
    }
  }
}
