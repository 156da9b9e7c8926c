/** The exported webhook handler (WebhookListener/index.js:8-53): a cache of
    the last snapshot, guarded by `lastTransaction`, the sequence number of the
    last event whose rebuild succeeded. */
module Handler {
  import opened Wrappers
  import opened Unrolling
  import opened Snapshots

  /** The request fields the handler destructures (index.js:12): the HTTP
      method, and from the body `type`, `transactionSequenceNumber` and
      `factSheet.type`; `None` where absent. */
  datatype Request = Request(
    httpMethod: Option<string>,
    eventType: Option<string>,
    transactionSequenceNumber: Option<int>,
    factSheetType: Option<string>)

  /** What `context.res` is set to: nothing, 200 with the snapshot, 403, or 500
      with an error id and time. */
  datatype Response =
    | NoResponse
    | Served(snapshot: Snapshot)
    | Forbidden
    | ServerError(errorId: string, timestamp: string)

  /** The module-level variables `lastTransaction` and `bcMaps`. */
  datatype GuardState = GuardState(lastTransaction: int, cache: Option<Snapshot>)

  /** One invocation: the request, what the upstream calls return should a
      rebuild happen, whether both credentials are configured and whether the
      supplied ones match, and the error id and clock for a 500. */
  datatype Call = Call(
    request: Request,
    upstream: Upstream,
    credentialsConfigured: bool,
    credentialsMatch: bool,
    errorId: string,
    errorTime: string)

  /** The state after an invocation, its response, and the argument passed to
      `rebuildBcMaps` (`None` when it is not called). */
  datatype Outcome = Outcome(state: GuardState, response: Response, rebuildArg: Option<int>)

  /** `let lastTransaction = -1; let bcMaps = null` (index.js:8-9). */
  const Initial := GuardState(-1, None)

  predicate IsGet(r: Request) {
    r.httpMethod == Some("GET")
  }

  /** The event test of index.js:34. A missing sequence number compares as
      `undefined`, which is never greater. */
  predicate Accepts(lastTransaction: int, r: Request) {
    r.eventType == Some("FactSheetUpdatedEvent") &&
    r.factSheetType == Some("BusinessCapability") &&
    r.transactionSequenceNumber.Some? &&
    lastTransaction < r.transactionSequenceNumber.value
  }

  /** One invocation of the handler, as a function of the state before it. */
  function Step(st: GuardState, c: Call, parse: Parser): Outcome {
    var failure := ServerError(c.errorId, c.errorTime);
    if IsGet(c.request) then
      if st.cache.Some? then Outcome(st, Served(st.cache.value), None)
      else
        match RebuildBcMaps(st.lastTransaction, c.upstream, parse)
        case None => Outcome(st, failure, Some(st.lastTransaction))
        case Some(s) => Outcome(GuardState(st.lastTransaction, Some(s)), Served(s), Some(st.lastTransaction))
    else if Accepts(st.lastTransaction, c.request) then
      if c.credentialsConfigured && !c.credentialsMatch then Outcome(st, Forbidden, None)
      else
        var t := c.request.transactionSequenceNumber.value;
        match RebuildBcMaps(t, c.upstream, parse)
        case None => Outcome(st, failure, Some(t))
        case Some(s) => Outcome(GuardState(t, Some(s)), NoResponse, Some(t))
    else Outcome(st, NoResponse, None)
  }

  /** What holds between the two variables: the cache is empty only before any
      rebuild succeeded, and the cached snapshot carries the stamp of the
      current `lastTransaction`. */
  ghost predicate Consistent(st: GuardState) {
    (st.cache.None? ==> st.lastTransaction == -1) &&
    (st.cache.Some? ==> st.cache.value.transactionSequenceNumber == StampOf(st.lastTransaction))
  }

  lemma InitialConsistent()
    ensures Consistent(Initial)
  {
  }

  lemma StepConsistent(st: GuardState, c: Call, parse: Parser)
    requires Consistent(st)
    ensures Consistent(Step(st, c, parse).state)
  {
    var r := c.request;
    if IsGet(r) && st.cache.None? {
      match RebuildBcMaps(st.lastTransaction, c.upstream, parse)
      case None =>
      case Some(s) => RebuildStamp(st.lastTransaction, c.upstream, parse, s);
    } else if !IsGet(r) && Accepts(st.lastTransaction, r) && !(c.credentialsConfigured && !c.credentialsMatch) {
      var t := r.transactionSequenceNumber.value;
      match RebuildBcMaps(t, c.upstream, parse)
      case None =>
      case Some(s) => RebuildStamp(t, c.upstream, parse, s);
    }
  }

  /** A GET with a cached snapshot serves it and rebuilds nothing. */
  lemma WarmGet(st: GuardState, c: Call, parse: Parser)
    requires IsGet(c.request) && st.cache.Some?
    ensures Step(st, c, parse) == Outcome(st, Served(st.cache.value), None)
  {
  }

  /** A GET with an empty cache rebuilds once with the current
      `lastTransaction`, caches and serves the result on success, and on
      failure answers 500 and leaves the cache empty, so the next GET retries.
      A GET never changes `lastTransaction`. */
  lemma ColdGet(st: GuardState, c: Call, parse: Parser)
    requires IsGet(c.request) && st.cache.None?
    ensures Step(st, c, parse).rebuildArg == Some(st.lastTransaction)
    ensures Step(st, c, parse).state.lastTransaction == st.lastTransaction
    ensures RebuildBcMaps(st.lastTransaction, c.upstream, parse).Some? ==>
      Step(st, c, parse).state.cache == RebuildBcMaps(st.lastTransaction, c.upstream, parse) &&
      Step(st, c, parse).response == Served(Step(st, c, parse).state.cache.value)
    ensures RebuildBcMaps(st.lastTransaction, c.upstream, parse).None? ==>
      Step(st, c, parse).state == st && Step(st, c, parse).response.ServerError?
  {
  }

  /** A request that is neither a GET nor an accepted event rebuilds nothing,
      changes nothing and sets no response. */
  lemma IgnoredRequest(st: GuardState, c: Call, parse: Parser)
    requires !IsGet(c.request) && !Accepts(st.lastTransaction, c.request)
    ensures Step(st, c, parse) == Outcome(st, NoResponse, None)
  {
  }

  /** A rebuild is started only by a GET on an empty cache or by an accepted
      event with matching (or unconfigured) credentials. */
  lemma RebuildOnlyWhen(st: GuardState, c: Call, parse: Parser)
    ensures Step(st, c, parse).rebuildArg.Some? <==>
      (IsGet(c.request) && st.cache.None?) ||
      (!IsGet(c.request) && Accepts(st.lastTransaction, c.request) &&
       (!c.credentialsConfigured || c.credentialsMatch))
  {
  }

  /** With both credentials configured, an accepted event with wrong ones gets
      403 and nothing else happens; with either unconfigured no 403 is ever
      sent. */
  lemma CredentialCheck(st: GuardState, c: Call, parse: Parser)
    ensures (!IsGet(c.request) && Accepts(st.lastTransaction, c.request) &&
             c.credentialsConfigured && !c.credentialsMatch) ==>
        Step(st, c, parse) == Outcome(st, Forbidden, None)
    ensures !c.credentialsConfigured ==> !Step(st, c, parse).response.Forbidden?
  {
  }

  /** An accepted event whose rebuild succeeds sets `lastTransaction` to its
      number and caches the new snapshot, setting no response; one whose rebuild
      fails answers 500 and changes nothing. */
  lemma AcceptedEvent(st: GuardState, c: Call, parse: Parser)
    requires !IsGet(c.request) && Accepts(st.lastTransaction, c.request)
    requires !c.credentialsConfigured || c.credentialsMatch
    ensures Step(st, c, parse).rebuildArg == c.request.transactionSequenceNumber
    ensures GenerateBcMaps(c.upstream, parse).Some? ==>
      Step(st, c, parse).state ==
        GuardState(c.request.transactionSequenceNumber.value,
          RebuildBcMaps(c.request.transactionSequenceNumber.value, c.upstream, parse)) &&
      Step(st, c, parse).response == NoResponse
    ensures GenerateBcMaps(c.upstream, parse).None? ==>
      Step(st, c, parse).state == st && Step(st, c, parse).response.ServerError?
  {
  }

  /** The state changes only after a successful rebuild, and `lastTransaction`
      only grows: it changes only to the number of an accepted event, which is
      greater. */
  lemma StepMonotone(st: GuardState, c: Call, parse: Parser)
    ensures Step(st, c, parse).state != st ==>
      Step(st, c, parse).rebuildArg.Some? && GenerateBcMaps(c.upstream, parse).Some?
    ensures Step(st, c, parse).state.lastTransaction >= st.lastTransaction
    ensures Step(st, c, parse).state.lastTransaction != st.lastTransaction ==>
      !IsGet(c.request) && Accepts(st.lastTransaction, c.request) &&
      Step(st, c, parse).state.lastTransaction == c.request.transactionSequenceNumber.value
  {
  }

  /** The outcomes of a sequence of serialized invocations: each call is
      handled in the state the previous one left. */
  function Trace(st: GuardState, calls: seq<Call>, parse: Parser): (r: seq<Outcome>)
    ensures |r| == |calls|
    ensures forall i {:trigger calls[i]} :: 0 <= i < |calls| ==>
      r[i] == Step(if i == 0 then st else r[i - 1].state, calls[i], parse)
    decreases |calls|
  {
    if calls == [] then []
    else
      var o := Step(st, calls[0], parse);
      var rest := Trace(o.state, calls[1..], parse);
      assert forall i :: 1 <= i < |calls| ==> calls[i] == calls[1..][i - 1];
      [o] + rest
  }

  /** The trace after step `i` is the trace of the remaining calls from the
      state step `i` left. */
  lemma {:induction false} TraceSuffix(st: GuardState, calls: seq<Call>, parse: Parser, i: int)
    requires 0 <= i < |calls|
    ensures Trace(st, calls, parse)[i + 1..] == Trace(Trace(st, calls, parse)[i].state, calls[i + 1..], parse)
    decreases i
  {
    if i > 0 {
      var o := Step(st, calls[0], parse);
      TraceSuffix(o.state, calls[1..], parse, i - 1);
      assert calls[1..][i..] == calls[i + 1..];
    }
  }

  /** Every event rebuild in a trace is for a number above the starting
      `lastTransaction`: a number at or below it is never processed again. */
  lemma {:induction false} EventsAboveStart(st: GuardState, calls: seq<Call>, parse: Parser)
    ensures forall i :: 0 <= i < |calls| && !IsGet(calls[i].request) && Trace(st, calls, parse)[i].rebuildArg.Some? ==>
      Trace(st, calls, parse)[i].rebuildArg.value > st.lastTransaction
    decreases |calls|
  {
    if calls != [] {
      var o := Step(st, calls[0], parse);
      StepMonotone(st, calls[0], parse);
      EventsAboveStart(o.state, calls[1..], parse);
      var tr := Trace(st, calls, parse);
      forall i | 1 <= i < |calls|
        ensures tr[i] == Trace(o.state, calls[1..], parse)[i - 1] && calls[i] == calls[1..][i - 1]
      {
      }
    }
  }

  /** Each event number is processed at most once, in increasing order: after
      an event rebuild for `T` succeeds, every later event rebuild is for a
      number greater than `T`, so replaying `T` or anything below it is
      ignored. */
  lemma AcceptedAtMostOnce(st: GuardState, calls: seq<Call>, parse: Parser, i: int, j: int)
    requires 0 <= i < j < |calls|
    requires !IsGet(calls[i].request) && Trace(st, calls, parse)[i].rebuildArg.Some?
    requires GenerateBcMaps(calls[i].upstream, parse).Some?
    requires !IsGet(calls[j].request) && Trace(st, calls, parse)[j].rebuildArg.Some?
    ensures Trace(st, calls, parse)[j].rebuildArg.value > Trace(st, calls, parse)[i].rebuildArg.value
  {
    var tr := Trace(st, calls, parse);
    TraceSuffix(st, calls, parse, i);
    EventsAboveStart(tr[i].state, calls[i + 1..], parse);
    assert tr[j] == tr[i + 1..][j - i - 1];
    assert calls[j] == calls[i + 1..][j - i - 1];
  }

  /** The handler's module state, updated in place by each invocation. */
  class TransactionGuard {
    var lastTransaction: int
    var cache: Option<Snapshot>

    function State(): GuardState
      reads this
    {
      GuardState(lastTransaction, cache)
    }

    ghost predicate Valid()
      reads this
    {
      Consistent(State())
    }

    constructor()
      ensures State() == Initial && Valid()
    {
      lastTransaction := -1;
      cache := None;
    }

    /** The exported handler (index.js:11-55) for one request. */
    method Handle(request: Request, upstream: Upstream, credentialsConfigured: bool, credentialsMatch: bool,
                  errorId: string, errorTime: string, parse: Parser)
      returns (response: Response, rebuildArg: Option<int>)
      requires Valid()
      modifies this
      ensures Valid()
      ensures response.Served? ==> response.snapshot.transactionSequenceNumber == StampOf(lastTransaction)
      ensures Outcome(State(), response, rebuildArg) ==
        Step(old(State()), Call(request, upstream, credentialsConfigured, credentialsMatch, errorId, errorTime), parse)
    {
      ghost var c := Call(request, upstream, credentialsConfigured, credentialsMatch, errorId, errorTime);
      StepConsistent(State(), c, parse);
      rebuildArg := None;
      if request.httpMethod == Some("GET") {
        if cache == None {
          rebuildArg := Some(lastTransaction);
          var rebuilt := RebuildBcMaps(lastTransaction, upstream, parse);
          if rebuilt == None {
            response := ServerError(errorId, errorTime);
            return;
          }
          cache := rebuilt;
        }
        response := Served(cache.value);
      } else if Accepts(lastTransaction, request) {
        if credentialsConfigured && !credentialsMatch {
          response := Forbidden;
          return;
        }
        var t := request.transactionSequenceNumber.value;
        rebuildArg := Some(t);
        var rebuilt := RebuildBcMaps(t, upstream, parse);
        if rebuilt == None {
          response := ServerError(errorId, errorTime);
        } else {
          cache := rebuilt;
          lastTransaction := t;
          response := NoResponse;
        }
      } else {
        response := NoResponse;
      }
    }
  }
}
