/**
 * The gateway transaction: resolve state, normalize, gate, seal, guard, invoke, record; and what
 * every run of it keeps about media taint, whatever the requests and the registries.
 */
module Transaction {
  import opened Common
  import opened Contracts
  import opened Gate
  import opened Json
  import opened Normalizer
  import opened Preparation
  import opened Receipts
  import opened Sealing
  import opened StateStore
  import opened Text

  datatype Subject = Subject(selector: string, tenant: string, scopes: set<string>)

  datatype StateBlock =
    | TargetUnknown | TargetStale | TaintedNonVision | TaintedUnsupported | PdfUnverified

  datatype BlockReason =
    | ScopeDenied
    | StateNotFound
    | NotNormalized(code: Code)
    | StatePolicy(block: StateBlock)
    | GateBlocked(failure: GateFailure)
    | SealingFailed
    | GuardRejected

  datatype Reply =
    | Refused(reason: BlockReason)
    | ValidationEscaped
    | ProviderRaised
    | UpstreamError
    | Completed(persisted: bool)
    | Streaming
  {
    /** Not a reply at all: an error leaves the transaction, before the provider is called or out of that call. */
    predicate IsUncaught() {
      ValidationEscaped? || ProviderRaised?
    }
  }

  /** What the provider does with a request that passed the guard; `Raised` is any error but its own two kinds. */
  datatype ProviderAnswer = RejectedByGuard | Failed | Raised | Answered(responseId: string, stream: bool)

  /** Clock readings of one request. */
  datatype Times = Times(resolved: real, checked: real, gated: real, at: Instants, guarded: real, recorded: real) {
    predicate Ordered() {
      resolved <= checked <= gated <= at.gateSigned <= at.gateChecked <= at.sealedAt <= guarded <= recorded
    }
  }

  // ----- One request up to the provider -----

  /** `_check_state_capability`: a tainted state may only continue on a target that serves all of its media. */
  function CheckState(registry: Registry, n: Normalized, now: real): Option<StateBlock> {
    if n.previous.None? || !n.previous.value.tainted then None
    else
      var target, held := n.request.target, n.previous.value.modalities;
      match Resolve(registry, target, now)
      case Unknown => Some(TargetUnknown)
      case Stale => Some(TargetStale)
      case NonVision => Some(TaintedNonVision)
      case Vision =>
        if !registry[target].SupportsAll(held) then Some(TaintedUnsupported)
        else if Pdf in held && !registry[target].pdfVerified then Some(PdfUnverified)
        else None
  }

  datatype Plan = Stop(reply: Reply) | Send(n: Normalized, p: Prepared, request: Sealed)

  function ScriptsFor(environment: nat -> MediaScript, content: seq<Part>): (scripts: seq<MediaScript>)
    ensures |scripts| == MediaCount(content)
  {
    seq(MediaCount(content), environment)
  }

  /** Normalization, state policy, gate, sealing and guard. */
  function PlanRequest(world: World, registry: Registry, payload: Json, state: Option<Record>,
                       environment: nat -> MediaScript, nonce: string, times: Times): (plan: Plan)
    requires OrdersLocators(world.text)
    ensures plan.Stop? ==> plan.reply.Refused? || plan.reply.ValidationEscaped?
  {
    match Normalize(world.locators, payload, state)
    case Err(Escapes) => Stop(ValidationEscaped)
    case Err(Rejected(code)) => Stop(Refused(NotNormalized(code)))
    case Ok(n) =>
      var policy := CheckState(registry, n, times.checked);
      if policy.Some? then Stop(Refused(StatePolicy(policy.value)))
      else
        match Prepare(world.text, registry, n.request, ScriptsFor(environment, n.request.content), times.gated)
        case Blocked(failure) => Stop(Refused(GateBlocked(failure)))
        case Crashed => Stop(ValidationEscaped)
        case Ready(p) =>
          var request := Seal(world.crypto, world.digests, payload, n, p, nonce, times.at);
          if request.None? then Stop(Refused(SealingFailed))
          else if VerifySeal(world.crypto, world.digests, request.value, times.guarded).Some? then
            Stop(Refused(GuardRejected))
          else Send(n, p, request.value)
  }

  function PreviousModalities(previous: Option<Record>): set<Modality> {
    if previous.Some? then previous.value.modalities else {}
  }

  /** What `_record_state` will store once the response is complete. */
  datatype Commit = Commit(responseId: string, subject: Subject, text: string, modalities: set<Modality>,
                           target: string, version: int)

  function CommitFor(responseId: string, subject: Subject, n: Normalized, p: Prepared, version: int): Commit {
    Commit(responseId, subject, JoinText(p.content), Modalities(p.content) + PreviousModalities(n.previous),
           p.target, version)
  }

  // ----- The history of served requests -----

  /** One request that reached the provider: the request it follows, what it passed through, and to whom. */
  datatype Served = Served(parent: Option<nat>, passed: set<Modality>, target: string, registry: Registry, at: real)

  /** The parent of a new request: the served request behind the latest put of the response it continues. */
  ghost predicate Follows(payload: Json, subject: Subject, log: seq<Record>, origin: seq<nat>, parent: Option<nat>) {
    if payload.Obj? && payload.Get("previous_response_id").Str? then
      exists j: nat :: IsLatest(log, j, (subject.tenant, payload.Get("previous_response_id").text))
                    && j < |origin| && parent == Some(origin[j])
    else parent.None?
  }

  /** The state a request continues, as the history of puts determines it; none when it continues nothing. */
  ghost predicate ResolvesTo(payload: Json, subject: Subject, log: seq<Record>, maxEntries: nat, now: real,
                             state: Option<Record>) {
    if payload.Obj? && payload.Get("previous_response_id").Str? then
      var id := payload.Get("previous_response_id").text;
      && IsResponseId(id) && IsResponseId(subject.selector) && IsTenantId(subject.tenant)
      && state.Some? && Answers(log, maxEntries, (subject.tenant, id), subject.selector, now, state.value)
    else state.None?
  }

  ghost predicate ParentsPrecede(served: seq<Served>) {
    forall i :: 0 <= i < |served| && served[i].parent.Some? ==> served[i].parent.value < i
  }

  /** The media passed through along the chain of previous responses that ends at request `i`. */
  ghost function ChainUnion(served: seq<Served>, i: nat): set<Modality>
    requires ParentsPrecede(served) && i < |served|
  {
    served[i].passed + if served[i].parent.Some? then ChainUnion(served, served[i].parent.value) else {}
  }

  /** Media went only to fresh targets verified for PDF, and a tainted chain only to targets serving all of it. */
  ghost predicate Disciplined(served: seq<Served>, i: nat)
    requires ParentsPrecede(served) && i < |served|
  {
    var s := served[i];
    && (s.passed == {} || (s.passed == {Pdf} && ServesMedia(s.registry, s.target, {Pdf}, s.at)))
    && (s.parent.Some? && ChainUnion(served, s.parent.value) != {} ==>
          ServesMedia(s.registry, s.target, ChainUnion(served, s.parent.value), s.at))
  }

  ghost predicate DisciplinedRun(served: seq<Served>) {
    ParentsPrecede(served) && forall i :: 0 <= i < |served| ==> Disciplined(served, i)
  }

  /** Every chain carries nothing or exactly PDF. */
  lemma {:induction false} TaintIsNothingOrPdf(served: seq<Served>, i: nat)
    requires DisciplinedRun(served) && i < |served|
    ensures ChainUnion(served, i) == {} || ChainUnion(served, i) == {Pdf}
    decreases i
  {
    assert Disciplined(served, i);
    if served[i].parent.Some? {
      TaintIsNothingOrPdf(served, served[i].parent.value);
    }
  }

  /** Whoever holds a tainted record, the last target of its chain was fresh and serves the whole chain. */
  lemma {:induction false} TaintedChainIsServed(served: seq<Served>, i: nat)
    requires DisciplinedRun(served) && i < |served| && ChainUnion(served, i) != {}
    ensures ServesMedia(served[i].registry, served[i].target, ChainUnion(served, i), served[i].at)
    decreases i
  {
    assert Disciplined(served, i);
    TaintIsNothingOrPdf(served, i);
    if served[i].parent.Some? {
      TaintIsNothingOrPdf(served, served[i].parent.value);
    }
  }

  lemma {:induction false} ChainsAreStable(served: seq<Served>, next: Served, i: nat)
    requires ParentsPrecede(served) && ParentsPrecede(served + [next]) && i < |served|
    ensures ChainUnion(served + [next], i) == ChainUnion(served, i)
    decreases i
  {
    if served[i].parent.Some? {
      ChainsAreStable(served, next, served[i].parent.value);
    }
  }

  /** A planned request continues its chain with discipline. */
  lemma PlanIsDisciplined(world: World, registry: Registry, payload: Json, state: Option<Record>,
                          environment: nat -> MediaScript, nonce: string, times: Times)
    requires OrdersLocators(world.text) && times.Ordered()
    requires state.Some? ==> state.value.tainted == (state.value.modalities != {})
    requires PlanRequest(world, registry, payload, state, environment, nonce, times).Send?
    ensures var plan := PlanRequest(world, registry, payload, state, environment, nonce, times);
            && plan.n.previous == state && plan.request.payload.Obj?
            && VerifySeal(world.crypto, world.digests, plan.request, times.guarded).None?
            && (Modalities(plan.p.content) == {} || (Modalities(plan.p.content) == {Pdf}
                && ServesMedia(registry, plan.p.target, {Pdf}, times.gated)))
            && (PreviousModalities(state) != {} ==>
                  ServesMedia(registry, plan.p.target, PreviousModalities(state), times.gated))
  {
    var plan := PlanRequest(world, registry, payload, state, environment, nonce, times);
    NormalizedContent(world.locators, payload, state);
    MediaPassesOnlyAsVerifiedPdf(world.text, registry, plan.n.request, ScriptsFor(environment, plan.n.request.content),
                                 times.gated);
  }

  lemma HistoryGrows(served: seq<Served>, next: Served)
    requires DisciplinedRun(served)
    requires next.parent.Some? ==> next.parent.value < |served|
    requires next.passed == {} || (next.passed == {Pdf} && ServesMedia(next.registry, next.target, {Pdf}, next.at))
    requires next.parent.Some? && ChainUnion(served, next.parent.value) != {} ==>
               ServesMedia(next.registry, next.target, ChainUnion(served, next.parent.value), next.at)
    ensures DisciplinedRun(served + [next])
    ensures forall i :: 0 <= i < |served| ==> ChainUnion(served + [next], i) == ChainUnion(served, i)
    ensures ChainUnion(served + [next], |served|)
         == next.passed + if next.parent.Some? then ChainUnion(served, next.parent.value) else {}
  {
    var run := served + [next];
    forall i | 0 <= i < |served| ensures ChainUnion(run, i) == ChainUnion(served, i) {
      ChainsAreStable(served, next, i);
    }
    forall i | 0 <= i < |run| ensures Disciplined(run, i) {
      if i < |served| {
        assert Disciplined(served, i);
      }
    }
  }

  /** The modality sets of records or commits are those of the served requests they come from. */
  ghost predicate Traces(served: seq<Served>, modalities: seq<set<Modality>>, origin: seq<nat>) {
    && ParentsPrecede(served) && |origin| == |modalities|
    && forall j :: 0 <= j < |origin| ==> origin[j] < |served| && modalities[j] == ChainUnion(served, origin[j])
  }

  ghost function RecordModalities(log: seq<Record>): seq<set<Modality>> {
    seq(|log|, j requires 0 <= j < |log| => log[j].modalities)
  }

  ghost function CommitModalities(pending: seq<Commit>): seq<set<Modality>> {
    seq(|pending|, j requires 0 <= j < |pending| => pending[j].modalities)
  }

  // ----- What recording and replying come to -----

  /** The arguments the state store accepts. */
  predicate Storable(c: Commit) {
    && IsResponseId(c.responseId) && IsResponseId(c.subject.selector) && IsTenantId(c.subject.tenant)
    && IsTargetId(c.target) && c.version >= 0 && |c.text| <= MAX_TEXT
  }

  function RecordOf(c: Commit, expiresAt: real): Record {
    Record(c.responseId, c.subject.tenant, c.text, c.modalities != {}, c.modalities, c.subject.selector, c.target,
           c.version, expiresAt)
  }

  function Recorded(log: seq<Record>, c: Commit, expiresAt: real): seq<Record> {
    if Storable(c) then log + [RecordOf(c, expiresAt)] else log
  }

  /**
   * What has to be remembered of a planned request: who asked, for which model, under which snapshot, the texts that
   * were prepared, and the media of the whole chain.
   */
  ghost predicate Summarizes(c: Commit, responseId: string, subject: Subject, payload: Json, plan: Plan, version: int) {
    && plan.Send? && c.responseId == responseId && c.subject == subject && c.version == version
    && payload.Obj? && payload.Get("model") == Str(c.target)
    && c.text == Strip(Join("\n", Texts(plan.p.content)))
    && c.modalities == Modalities(plan.p.content) + PreviousModalities(plan.n.previous)
  }

  /** A record that says all of it. */
  ghost predicate Keeps(r: Record, c: Commit) {
    && r.responseId == c.responseId && r.tenant == c.subject.tenant && r.selector == c.subject.selector
    && r.target == c.target && r.version == c.version && r.text == c.text
    && r.modalities == c.modalities && (r.tainted <==> c.modalities != {})
  }

  /** The history ends with a record that keeps the commit. */
  ghost predicate EndsWith(log: seq<Record>, c: Commit) {
    |log| > 0 && Keeps(log[|log| - 1], c)
  }

  lemma RecordedEnds(log: seq<Record>, c: Commit, expiresAt: real)
    requires Storable(c)
    ensures EndsWith(Recorded(log, c, expiresAt), c)
  {
  }

  lemma SummaryHoldsChain(c: Commit, subject: Subject, payload: Json, plan: Plan, version: int)
    requires Summarizes(c, "", subject, payload, plan, version)
    ensures c.modalities == Modalities(plan.p.content) + PreviousModalities(plan.n.previous)
  {
  }

  lemma CommitSummarizes(world: World, registry: Registry, payload: Json, state: Option<Record>,
                         environment: nat -> MediaScript, nonce: string, times: Times, subject: Subject, version: int)
    requires OrdersLocators(world.text)
    requires PlanRequest(world, registry, payload, state, environment, nonce, times).Send?
    ensures var plan := PlanRequest(world, registry, payload, state, environment, nonce, times);
            Summarizes(CommitFor("", subject, plan.n, plan.p, version), "", subject, payload, plan, version)
  {
    hide Normalize, Prepare, VerifySeal, Seal, CheckState, Strip, Join, Texts, Modalities;
    var plan := PlanRequest(world, registry, payload, state, environment, nonce, times);
    NormalizedSteps(world.locators, payload, state);
    MediaPassesOnlyAsVerifiedPdf(world.text, registry, plan.n.request, ScriptsFor(environment, plan.n.request.content),
                                 times.gated);
  }

  /** Pending commits and put history before or after a request. */
  datatype Ledger = Ledger(pending: seq<Commit>, log: seq<Record>)

  /** The reply to a request the provider took, and what it leaves behind. */
  ghost predicate RepliesWith(provider: ProviderAnswer, c: Commit, expiresAt: real, before: Ledger, reply: Reply,
                              after: Ledger) {
    match provider
    case Answered(_, true) => reply == Streaming && after == before.(pending := before.pending + [c])
    case Answered(_, false) =>
      reply == Completed(Storable(c)) && after == before.(log := Recorded(before.log, c, expiresAt))
    case Raised => reply == ProviderRaised && after == before
    case _ => reply == UpstreamError && after == before
  }

  /** The plan raises, or it sends the request and the provider does. */
  predicate EndsUncaught(plan: Plan, provider: ProviderAnswer) {
    plan == Stop(ValidationEscaped) || (plan.Send? && provider.Raised?)
  }

  /**
   * A plan that was carried out: what went to the provider, what the history says of it, and what followed. What is
   * recorded, or pending for a stream, summarizes the plan under the provider's name for the response.
   */
  ghost predicate CarriedOut(plan: Plan, version: int, subject: Subject, payload: Json, provider: ProviderAnswer,
                             expiresAt: real, before: Ledger, request: Sealed, entry: Served, reply: Reply,
                             after: Ledger) {
    && plan.Send? && request == plan.request
    && entry.passed == Modalities(plan.p.content) && entry.target == plan.p.target
    && var id := if provider.Answered? then provider.responseId else "";
       exists c :: Summarizes(c, id, subject, payload, plan, version)
         && RepliesWith(provider, c, expiresAt, before, reply, after)
         && (reply == Completed(true) ==> EndsWith(after.log, c))
  }

  lemma IsCarriedOut(plan: Plan, version: int, subject: Subject, payload: Json, provider: ProviderAnswer,
                     expiresAt: real, before: Ledger, request: Sealed, entry: Served, reply: Reply, after: Ledger,
                     unnamed: Commit)
    requires plan.Send? && request == plan.request
    requires entry.passed == Modalities(plan.p.content) && entry.target == plan.p.target
    requires Summarizes(unnamed, "", subject, payload, plan, version)
    requires var id := if provider.Answered? then provider.responseId else "";
             var c := unnamed.(responseId := id);
             && RepliesWith(provider, c, expiresAt, before, reply, after)
             && (reply == Completed(true) ==> EndsWith(after.log, c))
    ensures CarriedOut(plan, version, subject, payload, provider, expiresAt, before, request, entry, reply, after)
  {
    hide RepliesWith, EndsWith, Strip, Join, Texts, Modalities;
    var id := if provider.Answered? then provider.responseId else "";
    var c := unnamed.(responseId := id);
    assert Summarizes(c, id, subject, payload, plan, version);
  }

  // ----- Requests in progress -----

  /** A request whose state is resolved and that waits for the gate. */
  datatype Waiting = Waiting(payload: Json, subject: Subject, state: Option<Record>)

  function DropAt<T>(items: seq<T>, k: nat): seq<T>
    requires k < |items|
  {
    items[..k] + items[k + 1..]
  }

  /** The state a request holds is that of the served request it follows. */
  ghost predicate HoldsParent(served: seq<Served>, state: Option<Record>, parent: Option<nat>) {
    && ParentsPrecede(served) && (parent.Some? <==> state.Some?)
    && (parent.Some? ==>
          && parent.value < |served|
          && state.value.modalities == ChainUnion(served, parent.value)
          && state.value.tainted == (state.value.modalities != {}))
  }

  ghost predicate WaitersHoldParents(served: seq<Served>, waiting: seq<Waiting>, parents: seq<Option<nat>>) {
    |parents| == |waiting| && forall i :: 0 <= i < |waiting| ==> HoldsParent(served, waiting[i].state, parents[i])
  }

  lemma TracesMatch(served: seq<Served>, commits: seq<Commit>, origin: seq<nat>)
    requires Traces(served, CommitModalities(commits), origin)
    ensures |origin| == |commits|
  {
  }

  lemma TracesAppend(served: seq<Served>, commits: seq<Commit>, origin: seq<nat>, c: Commit, source: nat)
    requires Traces(served, CommitModalities(commits), origin)
    requires source < |served| && c.modalities == ChainUnion(served, source)
    ensures Traces(served, CommitModalities(commits + [c]), origin + [source])
  {
    assert CommitModalities(commits + [c]) == CommitModalities(commits) + [c.modalities];
  }

  lemma TracesDrop(served: seq<Served>, commits: seq<Commit>, origin: seq<nat>, k: nat)
    requires Traces(served, CommitModalities(commits), origin) && k < |commits|
    ensures k < |origin| && origin[k] < |served| && commits[k].modalities == ChainUnion(served, origin[k])
    ensures Traces(served, CommitModalities(DropAt(commits, k)), DropAt(origin, k))
  {
    hide ChainUnion, ParentsPrecede;
    assert CommitModalities(commits)[k] == commits[k].modalities;
    var rest, left := CommitModalities(DropAt(commits, k)), DropAt(origin, k);
    forall j | 0 <= j < |left| ensures left[j] < |served| && rest[j] == ChainUnion(served, left[j]) {
      var i := if j < k then j else j + 1;
      assert left[j] == origin[i] && rest[j] == CommitModalities(commits)[i];
    }
  }

  /** One more served request leaves everything that refers to earlier ones as it is. */
  lemma TracesGrow(served: seq<Served>, entry: Served, modalities: seq<set<Modality>>, origin: seq<nat>)
    requires Traces(served, modalities, origin) && ParentsPrecede(served + [entry])
    ensures Traces(served + [entry], modalities, origin)
  {
    forall j | 0 <= j < |origin| ensures modalities[j] == ChainUnion(served + [entry], origin[j]) {
      ChainsAreStable(served, entry, origin[j]);
    }
  }

  lemma WaitersGrow(served: seq<Served>, entry: Served, waiting: seq<Waiting>, parents: seq<Option<nat>>)
    requires WaitersHoldParents(served, waiting, parents) && ParentsPrecede(served + [entry])
    ensures WaitersHoldParents(served + [entry], waiting, parents)
  {
    forall i | 0 <= i < |waiting| ensures HoldsParent(served + [entry], waiting[i].state, parents[i]) {
      if parents[i].Some? {
        ChainsAreStable(served, entry, parents[i].value);
      }
    }
  }

  // ----- The transaction -----

  /**
   * Requests of many callers in progress at once. A call is split where the original awaits: `Begin` up to the gate,
   * `SendOn` from the gate to the provider, `Answer` when the provider has answered, and the end of a stream later.
   */
  class GatewayTransaction {
    const world: World
    const store: GatewayStateStore
    var waiting: seq<Waiting>
    /** What will be recorded for requests the provider has not answered, their response still unnamed. */
    var sent: seq<Commit>
    /** Completed provider streams that still have to record their state. */
    var pending: seq<Commit>
    ghost var served: seq<Served>
    /** The served requests behind the puts of the store's history, and behind every request in progress. */
    ghost var origin: seq<nat>
    ghost var waitingParents: seq<Option<nat>>
    ghost var sentOrigin: seq<nat>
    ghost var pendingOrigin: seq<nat>

    ghost predicate Valid()
      reads this, store
    {
      && store.Valid() && Lawful(world)
      && DisciplinedRun(served)
      && Traces(served, RecordModalities(store.log), origin)
      && Traces(served, CommitModalities(sent), sentOrigin)
      && Traces(served, CommitModalities(pending), pendingOrigin)
      && WaitersHoldParents(served, waiting, waitingParents)
      && forall j :: 0 <= j < |store.log| ==> store.log[j].tainted == (store.log[j].modalities != {})
    }

    constructor (world: World, store: GatewayStateStore)
      requires Lawful(world) && store.Valid() && store.log == []
      ensures Valid() && this.world == world && this.store == store
      ensures served == [] && waiting == [] && sent == [] && pending == []
    {
      this.world, this.store := world, store;
      waiting, sent, pending, served := [], [], [], [];
      origin, waitingParents, sentOrigin, pendingOrigin := [], [], [], [];
    }

    /** `_record_state`; a refused put leaves the follow-up state absent. */
    method RecordState(commit: Commit, now: real, ghost source: nat) returns (persisted: bool)
      requires Valid() && store.clock <= now
      requires source < |served| && commit.modalities == ChainUnion(served, source)
      modifies store, `origin
      ensures Valid() && store.clock <= now
      ensures persisted <==> Storable(commit)
      ensures store.log == Recorded(old(store.log), commit, now + store.ttl)
      ensures origin == if persisted then old(origin) + [source] else old(origin)
    {
      hide DisciplinedRun, Lawful, Refines, WaitersHoldParents;
      var r := store.Put(commit.responseId, commit.subject.tenant, commit.subject.selector, commit.text,
                         commit.modalities != {}, commit.modalities, commit.target, commit.version, now);
      persisted := r.Ok?;
      if persisted {
        origin := origin + [source];
        assert RecordModalities(store.log) == RecordModalities(old(store.log)) + [commit.modalities];
      }
    }

    /** Looks up the record a request continues, and the served request behind it. */
    method ResolvePrevious(payload: Json, subject: Subject, now: real)
      returns (state: Result<Option<Record>, StateError>, ghost parent: Option<nat>)
      requires Valid() && store.clock <= now
      modifies store
      ensures Valid() && store.clock <= now && store.log == old(store.log)
      ensures forall s :: ResolvesTo(payload, subject, store.log, store.maxEntries, now, s) <==> state == Ok(s)
      ensures state.Ok? ==> Follows(payload, subject, store.log, origin, parent)
      ensures state.Ok? ==> HoldsParent(served, state.value, parent)
    {
      parent := None;
      if !payload.Obj? || !payload.Get("previous_response_id").Str? {
        return Ok(None), None;
      }
      var previousId := payload.Get("previous_response_id").text;
      var found := store.Resolve(previousId, subject.tenant, subject.selector, now);
      if found.Err? {
        return Err(found.error), None;
      }
      assert Answers(store.log, store.maxEntries, (subject.tenant, previousId), subject.selector, now, found.value);
      ghost var j: nat :| IsLatest(store.log, j, (subject.tenant, previousId)) && store.log[j] == found.value;
      assert RecordModalities(store.log)[j] == store.log[j].modalities;
      state, parent := Ok(Some(found.value)), Some(origin[j]);
    }

    /** The first part of `invoke`: the scope is checked and the state a request continues is resolved and held. */
    method Begin(payload: Json, subject: Subject, now: real) returns (refusal: Option<BlockReason>)
      requires Valid() && store.clock <= now
      modifies store, `waiting, `waitingParents
      ensures Valid() && store.clock <= now && store.log == old(store.log)
      ensures refusal.None? <==>
                ("responses:invoke" in subject.scopes
                 && exists s :: ResolvesTo(payload, subject, store.log, store.maxEntries, now, s))
      ensures refusal.None? ==>
                && |waiting| == |old(waiting)| + 1 && DropAt(waiting, |old(waiting)|) == old(waiting)
                && var w := waiting[|old(waiting)|];
                && w.payload == payload && w.subject == subject
                && ResolvesTo(payload, subject, store.log, store.maxEntries, now, w.state)
                && |waitingParents| == |old(waitingParents)| + 1
                && DropAt(waitingParents, |old(waitingParents)|) == old(waitingParents)
                && Follows(payload, subject, store.log, origin, waitingParents[|old(waitingParents)|])
      ensures |waitingParents| == |waiting|
      ensures refusal.Some? ==> waiting == old(waiting) && waitingParents == old(waitingParents)
    {
      hide ResolvesTo, Follows, DisciplinedRun, Traces, Lawful, Refines, HoldsParent;
      if "responses:invoke" !in subject.scopes {
        return Some(ScopeDenied);
      }
      ghost var parent;
      var state;
      state, parent := ResolvePrevious(payload, subject, now);
      if state.Err? {
        return Some(StateNotFound);
      }
      assert ResolvesTo(payload, subject, store.log, store.maxEntries, now, state.value);
      waiting := waiting + [Waiting(payload, subject, state.value)];
      waitingParents := waitingParents + [parent];
      refusal := None;
    }

    /** Adds one served request to the history. */
    ghost method Extend(entry: Served)
      requires Valid()
      requires entry.parent.Some? ==> entry.parent.value < |served|
      requires entry.passed == {}
            || (entry.passed == {Pdf} && ServesMedia(entry.registry, entry.target, {Pdf}, entry.at))
      requires entry.parent.Some? && ChainUnion(served, entry.parent.value) != {} ==>
                 ServesMedia(entry.registry, entry.target, ChainUnion(served, entry.parent.value), entry.at)
      modifies `served
      ensures Valid() && served == old(served) + [entry]
      ensures ChainUnion(served, |old(served)|)
           == entry.passed + if entry.parent.Some? then old(ChainUnion(served, entry.parent.value)) else {}
    {
      hide Lawful, Refines, Traces, WaitersHoldParents, ServesMedia;
      HistoryGrows(served, entry);
      TracesGrow(served, entry, RecordModalities(store.log), origin);
      TracesGrow(served, entry, CommitModalities(sent), sentOrigin);
      TracesGrow(served, entry, CommitModalities(pending), pendingOrigin);
      WaitersGrow(served, entry, waiting, waitingParents);
      served := served + [entry];
    }

    /**
     * The second part of `invoke`: the plan for the state resolved at the beginning, whatever happened since. It stops
     * the request, or sends it, or is refused by the provider's own guard.
     */
    method SendOn(k: nat, registry: Registry, version: int, environment: nat -> MediaScript, taken: bool,
                  nonce: string, times: Times)
      returns (stopped: Option<Reply>, request: Option<Sealed>)
      requires Valid() && k < |waiting| && times.Ordered()
      modifies `waiting, `waitingParents, `served, `sent, `sentOrigin
      ensures Valid() && waiting == DropAt(old(waiting), k) && |sentOrigin| == |sent|
      ensures k < |old(waitingParents)| && waitingParents == DropAt(old(waitingParents), k)
      ensures var w := old(waiting)[k];
              var plan := PlanRequest(world, registry, w.payload, w.state, environment, nonce, times);
              if plan.Send? && taken then
                && stopped.None? && request == Some(plan.request) && plan.request.payload.Obj?
                && VerifySeal(world.crypto, world.digests, plan.request, times.guarded).None?
                && served == old(served) + [Served(old(waitingParents)[k], Modalities(plan.p.content), plan.p.target,
                                                   registry, times.gated)]
                && |sent| == |old(sent)| + 1 && sent[..|old(sent)|] == old(sent)
                && Summarizes(sent[|old(sent)|], "", w.subject, w.payload, plan, version)
                && sentOrigin == old(sentOrigin) + [|old(served)|]
              else
                && stopped == Some(if plan.Stop? then plan.reply else Refused(GuardRejected)) && request.None?
                && served == old(served) && sent == old(sent) && sentOrigin == old(sentOrigin)
    {
      hide PlanRequest, VerifySeal, DisciplinedRun, ServesMedia, Refines, Traces, CodecRoundTrips, CommitFor;
      hide OrdersLocators, Summarizes;
      TracesMatch(served, sent, sentOrigin);
      var w := waiting[k];
      ghost var parent := waitingParents[k];
      assert HoldsParent(served, w.state, parent);
      waiting, waitingParents := DropAt(waiting, k), DropAt(waitingParents, k);
      var plan := PlanRequest(world, registry, w.payload, w.state, environment, nonce, times);
      if plan.Stop? {
        return Some(plan.reply), None;
      }
      if !taken {
        return Some(Refused(GuardRejected)), None;
      }
      PlanIsDisciplined(world, registry, w.payload, w.state, environment, nonce, times);
      ghost var before := served;
      Extend(Served(parent, Modalities(plan.p.content), plan.p.target, registry, times.gated));
      CommitSummarizes(world, registry, w.payload, w.state, environment, nonce, times, w.subject, version);
      SummaryHoldsChain(CommitFor("", w.subject, plan.n, plan.p, version), w.subject, w.payload, plan, version);
      TracesAppend(served, sent, sentOrigin, CommitFor("", w.subject, plan.n, plan.p, version), |before|);
      sent := sent + [CommitFor("", w.subject, plan.n, plan.p, version)];
      sentOrigin := sentOrigin + [|before|];
      return None, Some(plan.request);
    }

    /** The last part of `invoke`: the provider fails, raises, streams, or answers; an answer is recorded at once. */
    method Answer(k: nat, provider: ProviderAnswer, now: real) returns (reply: Reply)
      requires Valid() && k < |sent| && store.clock <= now && !provider.RejectedByGuard?
      modifies store, `origin, `sent, `sentOrigin, `pending, `pendingOrigin
      ensures Valid() && store.clock <= now && sent == DropAt(old(sent), k)
      ensures !reply.Refused? && !reply.ValidationEscaped? && (reply.ProviderRaised? <==> provider.Raised?)
      ensures k < |old(sentOrigin)| && sentOrigin == DropAt(old(sentOrigin), k)
      ensures var id := if provider.Answered? then provider.responseId else "";
              RepliesWith(provider, old(sent)[k].(responseId := id), now + store.ttl,
                          old(Ledger(pending, store.log)), reply, Ledger(pending, store.log))
      ensures var id := if provider.Answered? then provider.responseId else "";
              reply == Completed(true) ==> EndsWith(store.log, old(sent)[k].(responseId := id))
      ensures reply.Completed? && reply.persisted ==>
                && old(sentOrigin)[k] < |served| && |store.log| > 0
                && store.log[|store.log| - 1].modalities == ChainUnion(served, old(sentOrigin)[k])
    {
      hide DisciplinedRun, Lawful, Refines, WaitersHoldParents, Traces, Storable, EndsWith;
      TracesDrop(served, sent, sentOrigin, k);
      ghost var source := sentOrigin[k];
      var unnamed := sent[k];
      sent, sentOrigin := DropAt(sent, k), DropAt(sentOrigin, k);
      if provider.Failed? {
        return UpstreamError;
      }
      if provider.Raised? {
        return ProviderRaised;
      }
      var commit := unnamed.(responseId := provider.responseId);
      if provider.stream {
        TracesAppend(served, pending, pendingOrigin, commit, source);
        pending, pendingOrigin := pending + [commit], pendingOrigin + [source];
        return Streaming;
      }
      ghost var log := store.log;
      var persisted := RecordState(commit, now, source);
      if persisted {
        RecordedEnds(log, commit, now + store.ttl);
      }
      reply := Completed(persisted);
    }

    /**
     * `invoke` with nothing in between. A request reaches the provider exactly when the credential allows it, its
     * previous state resolves and the plan for that state sends it. It then extends the history with what it passed
     * through and with the served request its previous response came from. It ends in an uncaught error exactly when
     * the plan does, or the plan sends the request and the call of the provider raises.
     */
    method Invoke(registry: Registry, version: int, payload: Json, subject: Subject,
                  environment: nat -> MediaScript, provider: ProviderAnswer, nonce: string, times: Times)
      returns (reply: Reply, request: Option<Sealed>)
      requires Valid() && times.Ordered() && store.clock <= times.resolved
      modifies this, store
      ensures Valid() && store.clock <= times.recorded && waiting == old(waiting) && sent == old(sent)
      ensures request.Some? <==>
                ("responses:invoke" in subject.scopes && !provider.RejectedByGuard?
                 && exists s :: ResolvesTo(payload, subject, old(store.log), store.maxEntries, times.resolved, s)
                             && PlanRequest(world, registry, payload, s, environment, nonce, times).Send?)
      ensures reply.IsUncaught() <==>
                ("responses:invoke" in subject.scopes
                 && exists s :: ResolvesTo(payload, subject, old(store.log), store.maxEntries, times.resolved, s)
                             && EndsUncaught(PlanRequest(world, registry, payload, s, environment, nonce, times),
                                             provider))
      ensures request.Some? ==> |served| == |old(served)| + 1
      ensures request.Some? ==>
                (exists s :: ResolvesTo(payload, subject, old(store.log), store.maxEntries, times.resolved, s)
                          && CarriedOut(PlanRequest(world, registry, payload, s, environment, nonce, times), version,
                                        subject, payload, provider, times.recorded + store.ttl,
                                        old(Ledger(pending, store.log)),
                                        request.value, served[|old(served)|], reply, Ledger(pending, store.log)))
      ensures request.None? ==> reply.Refused? || reply.ValidationEscaped?
      ensures reply.Completed? && reply.persisted ==>
                && |store.log| > 0 && |served| > 0
                && store.log[|store.log| - 1].modalities == ChainUnion(served, |served| - 1)
      ensures request.None? ==> served == old(served) && pending == old(pending) && store.log == old(store.log)
      ensures request.Some? ==>
                && old(served) <= served
                && served[|old(served)|].registry == registry && served[|old(served)|].at == times.gated
                && Follows(payload, subject, old(store.log), old(origin), served[|old(served)|].parent)
                && request.value.payload.Obj?
                && VerifySeal(world.crypto, world.digests, request.value, times.guarded).None?
    {
      hide PlanRequest, VerifySeal, DisciplinedRun, ResolvesTo, Follows, ServesMedia, Refines, Traces, Storable;
      hide CommitFor, WaitersHoldParents, ChainUnion, CodecRoundTrips, OrdersLocators, RepliesWith, CarriedOut;
      hide Summarizes, EndsWith;
      request := None;
      var refusal := Begin(payload, subject, times.resolved);
      if refusal.Some? {
        return Refused(refusal.value), None;
      }
      var k := |waiting| - 1;
      ghost var state := waiting[k].state;
      ghost var plan := PlanRequest(world, registry, payload, state, environment, nonce, times);
      OneStateAtMost(payload, subject, store.log, store.maxEntries, times.resolved, state);
      PlansStopCleanly(world, registry, payload, state, environment, nonce, times);
      var stopped;
      stopped, request := SendOn(k, registry, version, environment, !provider.RejectedByGuard?, nonce, times);
      if stopped.Some? {
        return stopped.value, None;
      }
      ghost var unnamed := sent[|sent| - 1];
      assert DropAt(sent, |sent| - 1) == old(sent);
      reply := Answer(|sent| - 1, provider, times.recorded);
      IsCarriedOut(plan, version, subject, payload, provider, times.recorded + store.ttl,
                   old(Ledger(pending, store.log)), request.value, served[|old(served)|], reply,
                   Ledger(pending, store.log), unnamed);
    }

    /** A provider stream has been read to its end: its state is recorded now, whatever happened meanwhile. */
    method CompleteStream(k: nat, now: real) returns (persisted: bool)
      requires Valid() && k < |pending| && store.clock <= now
      modifies store, `origin, `pending, `pendingOrigin
      ensures Valid() && pending == DropAt(old(pending), k)
      ensures persisted <==> Storable(old(pending)[k])
      ensures store.log == Recorded(old(store.log), old(pending)[k], now + store.ttl)
      ensures persisted ==> EndsWith(store.log, old(pending)[k])
    {
      hide DisciplinedRun, Lawful, Refines, WaitersHoldParents, Traces, Storable, EndsWith;
      var commit := pending[k];
      TracesDrop(served, pending, pendingOrigin, k);
      ghost var source := pendingOrigin[k];
      DropStream(k);
      ghost var log := store.log;
      persisted := RecordState(commit, now, source);
      if persisted {
        RecordedEnds(log, commit, now + store.ttl);
      }
    }

    /** A provider stream was broken off: nothing is recorded. */
    method DropStream(k: nat)
      requires Valid() && k < |pending|
      modifies `pending, `pendingOrigin
      ensures Valid() && pending == DropAt(old(pending), k)
    {
      TracesDrop(served, pending, pendingOrigin, k);
      pending, pendingOrigin := DropAt(pending, k), DropAt(pendingOrigin, k);
    }

    /** Clearing the store does not touch requests in progress. */
    method ClearState()
      requires Valid()
      modifies store, `origin
      ensures Valid() && store.records == [] && store.log == []
    {
      hide DisciplinedRun, Lawful, Refines;
      store.Clear();
      origin := [];
    }

    /** Every follow-up on a tainted response went only to a fresh vision target serving the whole chain before it. */
    lemma FollowUpsWereServed(i: nat)
      requires Valid() && i < |served| && served[i].parent.Some?
      requires ChainUnion(served, served[i].parent.value) != {}
      ensures served[i].parent.value < i && ChainUnion(served, served[i].parent.value) == {Pdf}
      ensures ServesMedia(served[i].registry, served[i].target, {Pdf}, served[i].at)
    {
      assert Disciplined(served, i);
      TaintIsNothingOrPdf(served, served[i].parent.value);
    }

    /** What a caller finds in the store: the union over its chain, which is nothing or exactly PDF. */
    lemma RecordsHoldTheirChain(j: nat)
      requires Valid() && j < |store.log|
      ensures origin[j] < |served| && store.log[j].modalities == ChainUnion(served, origin[j])
      ensures store.log[j].modalities == {} || store.log[j].modalities == {Pdf}
    {
      assert RecordModalities(store.log)[j] == store.log[j].modalities;
      TaintIsNothingOrPdf(served, origin[j]);
    }
  }

  /** At most one state answers for a request. */
  lemma OneStateAtMost(payload: Json, subject: Subject, log: seq<Record>, maxEntries: nat, now: real,
                       s: Option<Record>)
    requires ResolvesTo(payload, subject, log, maxEntries, now, s)
    ensures forall t :: ResolvesTo(payload, subject, log, maxEntries, now, t) ==> s == t
  {
  }

  lemma PlansStopCleanly(world: World, registry: Registry, payload: Json, state: Option<Record>,
                         environment: nat -> MediaScript, nonce: string, times: Times)
    requires OrdersLocators(world.text)
    ensures var plan := PlanRequest(world, registry, payload, state, environment, nonce, times);
            plan.Stop? ==> plan.reply.Refused? || plan.reply.ValidationEscaped?
  {
  }
}
