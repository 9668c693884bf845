/**
 * The request handler of the `update_srs` edge function: validate the
 * request, fetch the key's review record (a missing row is not an error),
 * run the SM-2 transition, and upsert the result keyed on
 * (user_id, question_id).
 *
 * The `review_state` table is a map from key to row. The store's faults are
 * parameters: `fetchError` is the PostgREST error code the fetch reports
 * instead of its normal answer, `upsertFails` makes the write fail.
 */
module UpdateSrs {
  import opened Common
  import opened Sm2

  /** The table's uniqueness key. */
  datatype Key = Key(userId: Id, questionId: Id)

  type Store = map<Key, ReviewState>

  function KeyOf(s: ReviewState): Key
  {
    Key(s.userId, s.questionId)
  }

  /** Every row is filed under its own (user_id, question_id). */
  predicate KeysConsistent(store: Store)
  {
    forall k | k in store :: KeyOf(store[k]) == k
  }

  /** A store as the scheduler leaves it: consistent keys and well-formed rows. */
  predicate StoreWellFormed(store: Store)
  {
    KeysConsistent(store) && forall k | k in store :: WellFormed(store[k])
  }

  /** PostgREST's error code when `.single()` finds no row. */
  const NoRowsCode: string := "PGRST116"

  /**
   * The request method as the handler tells it apart: it tests only for
   * `OPTIONS`, so `Post` stands for every other method.
   */
  datatype HttpMethod = Options | Post

  /**
   * The `quality` field as JSON delivers it. The handler tells an absent field
   * (`=== undefined`) from an explicit `null`, which passes the missing-field
   * test and then fails the range test, since `null < 1` holds in JavaScript.
   */
  datatype JsonQuality = Absent | Null | Number(value: int)

  /** The parsed JSON body; an absent string field is "", an absent or null `answered_at` is `None`. */
  datatype SrsRequest = SrsRequest(userId: Id, questionId: Id, quality: JsonQuality, answeredAt: Option<Instant>)

  datatype StoreFaults = StoreFaults(fetchError: Option<string>, upsertFails: bool)

  const NoFaults: StoreFaults := StoreFaults(None, false)

  datatype SrsResponse =
    | Preflight                        // 200 'ok' to a CORS preflight
    | Updated(data: ReviewState)       // 200 with the upserted row
    | BadRequest(message: string)      // 400
    | ServerError(message: string)     // 500

  datatype Outcome = Outcome(response: SrsResponse, store: Store)

  datatype Fetched = Row(row: ReviewState) | FetchError(code: string)

  /**
   * `select('*').eq('user_id', ..).eq('question_id', ..).single()`: the row
   * whose columns equal the key, or the "no rows" error.
   */
  function Fetch(store: Store, key: Key, fault: Option<string>): (f: Fetched)
    ensures fault.None? && KeysConsistent(store) ==> (f.Row? <==> key in store)
    ensures f.Row? ==> key in store && f.row == store[key] && KeyOf(f.row) == key
    ensures f.FetchError? && f.code != NoRowsCode ==> fault.Some?
  {
    if fault.Some? then FetchError(fault.value)
    else if key in store && KeyOf(store[key]) == key then Row(store[key])
    else FetchError(NoRowsCode)
  }

  /** `!user_id || !question_id || quality === undefined || !answered_at`. */
  predicate MissingFields(req: SrsRequest)
  {
    req.userId == "" || req.questionId == "" || req.quality.Absent? || req.answeredAt.None?
  }

  predicate QualityInRange(quality: int)
  {
    1 <= quality <= 5
  }

  /** `quality < 1 || quality > 5` fails: a number in 1..5; `null` compares as 0. */
  predicate QualityAccepted(quality: JsonQuality)
  {
    quality.Number? && QualityInRange(quality.value)
  }

  predicate ValidRequest(req: SrsRequest)
  {
    !MissingFields(req) && QualityAccepted(req.quality)
  }

  const MissingFieldsMessage: string := "Missing required fields: user_id, question_id, quality, answered_at"
  const QualityRangeMessage: string := "Quality must be between 1 and 5"

  function RequestKey(req: SrsRequest): Key
  {
    Key(req.userId, req.questionId)
  }

  /** The state `calculateSM2` starts from: the fetched row, or the bare key. */
  function PriorOf(fetched: Fetched, req: SrsRequest): PriorState
  {
    if fetched.Row? then FromRow(fetched.row) else Fresh(req.userId, req.questionId)
  }

  /** The body of `Deno.serve`; `None` for the body is JSON that failed to parse. */
  function Handle(verb: HttpMethod, body: Option<SrsRequest>, store: Store, faults: StoreFaults, clock: Instant): (out: Outcome)
    ensures out.response.Preflight? <==> verb.Options?
    ensures out.response.BadRequest? <==> verb.Post? && body.Some? && !ValidRequest(body.value)
    ensures !out.response.Updated? ==> out.store == store
    ensures out.response.Updated? ==>
      && body.Some? && ValidRequest(body.value) && !faults.upsertFails
      && KeyOf(out.response.data) == RequestKey(body.value)
      && out.store == store[RequestKey(body.value) := out.response.data]
      && out.response.data.dueAt == DueAt(body.value.answeredAt.value, out.response.data.interval)
      && out.response.data.updatedAt == clock
  {
    if verb.Options? then
      Outcome(Preflight, store)
    else if body.None? then
      Outcome(ServerError("Internal server error"), store)
    else
      var req := body.value;
      if MissingFields(req) then
        Outcome(BadRequest(MissingFieldsMessage), store)
      else if !QualityAccepted(req.quality) then
        Outcome(BadRequest(QualityRangeMessage), store)
      else
        var fetched := Fetch(store, RequestKey(req), faults.fetchError);
        if fetched.FetchError? && fetched.code != NoRowsCode then
          Outcome(ServerError("Failed to fetch review state"), store)
        else
          var newState := Transition(PriorOf(fetched, req), req.quality.value, req.answeredAt.value, clock);
          if faults.upsertFails then
            Outcome(ServerError("Failed to update review state"), store)
          else
            Outcome(Updated(newState), store[KeyOf(newState) := newState])
  }

  // ---------------------------------------------------------------------
  // Properties of the handler
  // ---------------------------------------------------------------------

  /** Invalid requests are answered 400 before the store is looked at. */
  lemma InvalidRequestTouchesNoStore(body: SrsRequest, store1: Store, store2: Store,
                                     faults1: StoreFaults, faults2: StoreFaults, clock1: Instant, clock2: Instant)
    requires !ValidRequest(body)
    ensures Handle(Post, Some(body), store1, faults1, clock1).store == store1
    ensures Handle(Post, Some(body), store1, faults1, clock1).response
         == Handle(Post, Some(body), store2, faults2, clock2).response
    ensures MissingFields(body) ==> Handle(Post, Some(body), store1, faults1, clock1).response == BadRequest(MissingFieldsMessage)
    ensures !MissingFields(body) ==> Handle(Post, Some(body), store1, faults1, clock1).response == BadRequest(QualityRangeMessage)
  {
  }

  /** A fetch failure other than "no rows" answers 500 and writes nothing. */
  lemma FetchFailureAborts(body: SrsRequest, store: Store, code: string, upsertFails: bool, clock: Instant)
    requires ValidRequest(body)
    requires code != NoRowsCode
    ensures var out := Handle(Post, Some(body), store, StoreFaults(Some(code), upsertFails), clock);
      out.response == ServerError("Failed to fetch review state") && out.store == store
  {
  }

  /** A failed upsert answers 500 and leaves the table as it was. */
  lemma UpsertFailureAborts(body: SrsRequest, store: Store, fetchError: Option<string>, clock: Instant)
    requires ValidRequest(body)
    ensures var out := Handle(Post, Some(body), store, StoreFaults(fetchError, true), clock);
      out.response.ServerError? && out.store == store
  {
  }

  /**
   * Without faults a valid request is applied: the key's row becomes the SM-2
   * transition of the stored row (or of the seed for a new key), and every
   * other key keeps its row.
   */
  lemma ValidRequestApplied(body: SrsRequest, store: Store, clock: Instant)
    requires ValidRequest(body)
    requires KeysConsistent(store)
    ensures var key := RequestKey(body);
      var prior := if key in store then FromRow(store[key]) else Fresh(body.userId, body.questionId);
      var next := Transition(prior, body.quality.value, body.answeredAt.value, clock);
      var out := Handle(Post, Some(body), store, NoFaults, clock);
      && out.response == Updated(next)
      && out.store.Keys == store.Keys + {key}
      && out.store[key] == next
      && (forall k | k in store && k != key :: out.store[k] == store[k])
  {
  }

  /** The handler never breaks the store's key consistency or the rows' SM-2 shape. */
  lemma HandlePreservesStore(verb: HttpMethod, body: Option<SrsRequest>, store: Store, faults: StoreFaults, clock: Instant)
    requires StoreWellFormed(store)
    ensures StoreWellFormed(Handle(verb, body, store, faults, clock).store)
  {
  }

  /**
   * Two requests for one key handled one after the other compose: the final
   * row is the second transition applied to the first one's result.
   */
  lemma SequentialRequestsCompose(first: SrsRequest, second: SrsRequest, store: Store, clock1: Instant, clock2: Instant)
    requires ValidRequest(first) && ValidRequest(second)
    requires RequestKey(first) == RequestKey(second)
    requires KeysConsistent(store)
    ensures var key := RequestKey(first);
      var prior := if key in store then FromRow(store[key]) else Fresh(first.userId, first.questionId);
      var mid := Transition(prior, first.quality.value, first.answeredAt.value, clock1);
      var store1 := Handle(Post, Some(first), store, NoFaults, clock1).store;
      var store2 := Handle(Post, Some(second), store1, NoFaults, clock2).store;
      store2[key] == Transition(FromRow(mid), second.quality.value, second.answeredAt.value, clock2)
  {
  }

  // ---------------------------------------------------------------------
  // The unguarded read-modify-write
  // ---------------------------------------------------------------------

  /**
   * Two handlers for the same key that both fetch before either upserts: each
   * computes from the same prior row, and the second upsert overwrites the
   * first. This is how the handler behaves under that interleaving, since it
   * holds no lock and checks no version between fetch and upsert. The first
   * request then leaves no trace: the table is what handling the second
   * request alone would have made of it.
   */
  function InterleavedPair(first: SrsRequest, second: SrsRequest, store: Store, clock1: Instant, clock2: Instant): (s: Store)
    requires ValidRequest(first) && ValidRequest(second)
    requires RequestKey(first) == RequestKey(second)
    ensures RequestKey(first) in s
    ensures s == Handle(Post, Some(second), store, NoFaults, clock2).store
  {
    var key := RequestKey(first);
    var fetched := Fetch(store, key, None);
    var r1 := Transition(PriorOf(fetched, first), first.quality.value, first.answeredAt.value, clock1);
    var r2 := Transition(PriorOf(fetched, second), second.quality.value, second.answeredAt.value, clock2);
    store[KeyOf(r1) := r1][KeyOf(r2) := r2]
  }

  /** Under that interleaving two "knew it" answers on a new key leave one success recorded. */
  lemma InterleavedPairLosesUpdate(userId: Id, questionId: Id, at: Instant, clock1: Instant, clock2: Instant)
    requires userId != "" && questionId != ""
    ensures var req := SrsRequest(userId, questionId, Number(5), Some(at));
      var key := Key(userId, questionId);
      var interleaved := InterleavedPair(req, req, map[], clock1, clock2);
      var sequential := Handle(Post, Some(req), Handle(Post, Some(req), map[], NoFaults, clock1).store, NoFaults, clock2).store;
      && interleaved[key].repetition == 1
      && sequential[key].repetition == 2
  {
  }
}
