/**
 The shared fabric of the verticals: how an evaluation is decided from boundary checks, bound kernels
 and the human binding, and how it ends up as one link of its session's chain, or as none when the receipt
 has no canonical form.
 */
module Fabric {
  import opened Prelude
  import opened HashChain
  import Text

  const ZERO_HASH: Hash := 0
  const MAX_PAYLOAD: nat := 1_000_000
  const MAX_REQUEST: nat := 1_100_000

  // ----------------------------------------------------------------- requests

  datatype ClaimState = Live | Measured | Declared | Advisory | Simulated | Unavailable | Blocked

  datatype Decision = Allow | Hold | Deny

  datatype EffectMode = ReadOnly | AdvisoryOnly | SimulatedOnly | HumanBound

  datatype Vertical = Vertical(
    id: string, connectors: set<string>, models: seq<string>, kernels: seq<string>, mode: EffectMode,
    requiresBind: bool)

  /**
   A value on its way into a receipt. `Scalar` is null, a boolean, an integer or a text, as its JSON text;
   `Number` is a floating-point number; `Foreign` is a value of a type JSON does not know.
   */
  datatype Datum =
    | Scalar(json: string) | Number(digits: string, finite: bool)
    | List(items: seq<Datum>) | Object(members: map<string, Datum>) | Foreign(kind: string)

  datatype Source = Source(connector: string, locator: string, revision: Option<string>, digest: Option<string>)

  /** A model proposal: who made it, what it cites, its truth state; summary, confidence and payload are details. */
  datatype Proposal = Proposal(model: Option<string>, citations: seq<Source>, state: ClaimState, details: Datum)

  datatype Axes = NoAxes | ValidAxes | InvalidAxes

  /** `effect` is empty when no effect is requested. */
  datatype Request = Request(
    vertical: string, signal: string, session: string, actor: string, payload: Datum,
    sources: seq<Source>, proposal: Option<Proposal>, effect: string, bind: Option<map<string, Datum>>)

  /** What a kernel found; reason and evidence are details. */
  datatype KernelResult = KernelResult(
    kernel: string, passed: bool, blocking: bool, state: ClaimState, details: Datum)

  /** A bound adapter; it may fail. */
  type ModelAdapter = (Request, Vertical) -> Option<Proposal>
  type KernelAdapter = (Request, Proposal, Vertical) -> Option<KernelResult>

  datatype Error = UnknownVertical | MissingIdentity | RequestTooLarge | AdapterFailed | IdentityMismatch | NotCanonical

  datatype Outcome<+T> = Done(value: T) | Failed(error: Error)

  /**
   The text operations and hashes of the runtime: `show` is Python's `str`, `writable` says whether a text
   can be written as UTF-8, and `size` and `axes` read a canonical payload.
   */
  datatype Runtime = Runtime(
    strip: string -> string,
    lower: string -> string,
    upper: string -> string,
    show: Datum -> string,
    writable: string -> bool,
    size: Datum -> nat,
    axes: Datum -> Axes,
    hashText: string -> Hash,
    seal: Seal<Content>)

  /** What a receipt covers besides its position and the hash before it. */
  datatype Content = Content(
    vertical: string, actor: Hash, signal: string, issuedAt: string, evaluation: Evaluation)

  /** What the receipt's payload hash and metadata bind. */
  datatype Evaluation = Evaluation(
    request: Request, proposal: Proposal, results: seq<KernelResult>, decision: Decision, state: ClaimState)

  // -------------------------------------------------------------- canonical forms

  /** The value has a canonical JSON text. */
  predicate Canonical(x: Runtime, v: Datum)
    decreases v
  {
    match v
    case Scalar(json) => x.writable(json)
    case Number(_, finite) => finite
    case List(items) => forall i | 0 <= i < |items| :: Canonical(x, items[i])
    case Object(members) => forall k | k in members :: x.writable(k) && Canonical(x, members[k])
    case Foreign(_) => false
  }

  predicate WritableOption(x: Runtime, text: Option<string>) {
    text.Some? ==> x.writable(text.value)
  }

  predicate WritableSource(x: Runtime, s: Source) {
    x.writable(s.connector) && x.writable(s.locator) && WritableOption(x, s.revision) && WritableOption(x, s.digest)
  }

  predicate WritableSources(x: Runtime, sources: seq<Source>) {
    forall s | s in sources :: WritableSource(x, s)
  }

  predicate CanonicalProposal(x: Runtime, p: Proposal) {
    WritableOption(x, p.model) && WritableSources(x, p.citations) && Canonical(x, p.details)
  }

  predicate CanonicalResults(x: Runtime, results: seq<KernelResult>) {
    forall r | r in results :: x.writable(r.kernel) && Canonical(x, r.details)
  }

  /** What is hashed before the session is looked up. */
  predicate CanonicalIdentity(x: Runtime, request: Request) {
    && x.writable(request.session) && x.writable(request.actor)
    && (request.bind.Some? ==> forall f | f in request.bind.value ::
          x.writable(f) && Canonical(x, request.bind.value[f]))
  }

  /** A receipt can be sealed when everything it shows has a canonical form. */
  predicate Sealable(x: Runtime, c: Content) {
    var e := c.evaluation;
    && x.writable(c.signal) && WritableSources(x, e.request.sources) && x.writable(e.request.effect)
    && CanonicalProposal(x, e.proposal) && CanonicalResults(x, e.results)
  }

  // ----------------------------------------------------------------- the verdict

  const BIND_FIELDS: set<string> := {"approver_id", "approved_at", "scope", "decision", "policy_revision"}

  predicate BindComplete(x: Runtime, bind: Option<map<string, Datum>>) {
    && bind.Some?
    && BIND_FIELDS <= bind.value.Keys
    && x.upper(x.show(bind.value["decision"])) in {"ALLOW", "DENY"}
    && forall f | f in BIND_FIELDS :: x.strip(x.show(bind.value[f])) != ""
  }

  predicate Bound(x: Runtime, bind: Option<map<string, Datum>>, verdict: string) {
    BindComplete(x, bind) && x.upper(x.show(bind.value["decision"])) == verdict
  }

  const PROHIBITED: set<string> :=
    {"weapon", "fire", "launch", "strike", "target", "credential", "exfiltrate", "bypass", "disable-control"}

  const SIMULATED_EFFECTS: set<string> := {"", "simulate", "compare-simulation", "export-report"}

  function Wanted(x: Runtime, request: Request): string { x.lower(x.strip(request.effect)) }

  /** The requested effect stays inside the public boundary of the vertical. */
  predicate EffectPermitted(x: Runtime, request: Request, vertical: Vertical) {
    var wanted := Wanted(x, request);
    && (forall token | token in PROHIBITED :: !Text.Occurs(wanted, token))
    && (vertical.id == "killinchu" ==> wanted in SIMULATED_EFFECTS)
    && (vertical.mode == ReadOnly ==> wanted == "")
  }

  predicate Permitted(sources: seq<Source>, vertical: Vertical) {
    forall s | s in sources :: s.connector in vertical.connectors
  }

  predicate BindRequired(request: Request, vertical: Vertical) {
    request.effect != "" && vertical.requiresBind
  }

  const NOTHING := Object(map[])

  /** The texts a built-in check quotes. */
  function Quoted(texts: seq<string>): Datum {
    List(seq(|texts|, i requires 0 <= i < |texts| => Scalar(texts[i])))
  }

  function Connectors(sources: seq<Source>): seq<string> {
    seq(|sources|, i requires 0 <= i < |sources| => sources[i].connector)
  }

  /** The built-in checks, in order. */
  function CoreResults(x: Runtime, request: Request, proposal: Proposal, vertical: Vertical): seq<KernelResult> {
    var bound := BindComplete(x, request.bind);
    var axes := x.axes(request.payload);
    [ KernelResult("szl-core/payload-boundary", x.size(request.payload) <= MAX_PAYLOAD, true, Measured, NOTHING),
      KernelResult("SZLHOLDINGS/szl-invariants/source-boundary", Permitted(request.sources, vertical), true,
                   Measured, Quoted(Connectors(request.sources))),
      KernelResult("SZLHOLDINGS/szl-invariants/citation-boundary", Permitted(proposal.citations, vertical), true,
                   Measured, Quoted(Connectors(proposal.citations))),
      KernelResult("SZLHOLDINGS/szl-blocked/effect-boundary", EffectPermitted(x, request, vertical), true,
                   Measured, Quoted([Wanted(x, request)])),
      KernelResult("SZLHOLDINGS/szl-lambda-gate/advisory", axes != InvalidAxes, false,
                   match axes
                   case NoAxes => Unavailable
                   case ValidAxes => Advisory
                   case InvalidAxes => Blocked, NOTHING),
      KernelResult("szl-core/human-bind", bound || !BindRequired(request, vertical), BindRequired(request, vertical),
                   if bound then Measured else Unavailable, NOTHING) ]
  }

  const NO_PROPOSAL := Object(map["payload" := Object(map["proposal_generated" := Scalar("false")])])

  /** The proposal the evaluation is about: the caller's, the first bound model's, or none. */
  function ProposalFor(request: Request, vertical: Vertical, models: seq<string>, bound: map<string, ModelAdapter>)
    : Outcome<Proposal>
  {
    if request.proposal.Some? then Done(request.proposal.value)
    else if models == [] then Done(Proposal(None, request.sources, Unavailable, NO_PROPOSAL))
    else if models[0] !in bound then ProposalFor(request, vertical, models[1..], bound)
    else
      match bound[models[0]](request, vertical)
      case None => Failed(AdapterFailed)
      case Some(p) => if p.model == Some(models[0]) then Done(p) else Failed(IdentityMismatch)
  }

  /** The results of the declared kernels, unbound ones as unavailable. */
  function ExternalResults(request: Request, proposal: Proposal, vertical: Vertical, kernels: seq<string>,
                           bound: map<string, KernelAdapter>): Outcome<seq<KernelResult>>
  {
    if kernels == [] then Done([])
    else
      var n := |kernels| - 1;
      match ExternalResults(request, proposal, vertical, kernels[..n], bound)
      case Failed(e) => Failed(e)
      case Done(results) =>
        if kernels[n] !in bound then Done(results + [KernelResult(kernels[n], false, false, Unavailable, NOTHING)])
        else
          match bound[kernels[n]](request, proposal, vertical)
          case None => Failed(AdapterFailed)
          case Some(r) => if r.kernel == kernels[n] then Done(results + [r]) else Failed(IdentityMismatch)
  }

  lemma {:induction false} KernelFailureStays(request: Request, proposal: Proposal, vertical: Vertical,
                                              kernels: seq<string>, bound: map<string, KernelAdapter>, n: nat)
    requires n <= |kernels| && ExternalResults(request, proposal, vertical, kernels[..n], bound).Failed?
    ensures ExternalResults(request, proposal, vertical, kernels, bound)
            == ExternalResults(request, proposal, vertical, kernels[..n], bound)
  {
    if n == |kernels| {
      assert kernels[..n] == kernels;
    } else {
      var m := |kernels| - 1;
      assert kernels[..m][..n] == kernels[..n];
      KernelFailureStays(request, proposal, vertical, kernels[..m], bound, n);
    }
  }

  predicate Stops(r: KernelResult) { r.blocking && !r.passed }

  function Decide(x: Runtime, request: Request, vertical: Vertical, proposal: Proposal, core: seq<KernelResult>,
                  external: seq<KernelResult>, strict: bool): (Decision, ClaimState)
  {
    if exists i :: 0 <= i < |core + external| && Stops((core + external)[i]) then (Deny, Blocked)
    else if Bound(x, request.bind, "DENY") then (Deny, Blocked)
    else if request.effect != "" && proposal.state == Unavailable then (Hold, Unavailable)
    else if request.effect != "" && strict && exists i :: 0 <= i < |external| && external[i].state == Unavailable
      then (Hold, Unavailable)
    else if BindRequired(request, vertical) && !BindComplete(x, request.bind) then (Hold, Unavailable)
    else if request.effect != "" && Bound(x, request.bind, "ALLOW") then (Allow, Measured)
    else (Hold, if proposal.state != Unavailable then Advisory else Unavailable)
  }

  /** One evaluation under the adapters bound at the moment, up to the receipt. */
  function Assess(x: Runtime, catalog: map<string, Vertical>, strict: bool, models: map<string, ModelAdapter>,
                  kernels: map<string, KernelAdapter>, request: Request): Outcome<Evaluation>
  {
    if request.vertical !in catalog then Failed(UnknownVertical)
    else if x.strip(request.signal) == "" || x.strip(request.session) == "" || x.strip(request.actor) == "" then
      Failed(MissingIdentity)
    else if !Canonical(x, request.payload) then Failed(NotCanonical)
    else if x.size(request.payload) > MAX_REQUEST then Failed(RequestTooLarge)
    else
      var vertical := catalog[request.vertical];
      match ProposalFor(request, vertical, vertical.models, models)
      case Failed(e) => Failed(e)
      case Done(proposal) =>
        var core := CoreResults(x, request, proposal, vertical);
        match ExternalResults(request, proposal, vertical, vertical.kernels, kernels)
        case Failed(e) => Failed(e)
        case Done(external) =>
          if !CanonicalIdentity(x, request) then Failed(NotCanonical)
          else
            var (decision, state) := Decide(x, request, vertical, proposal, core, external, strict);
            Done(Evaluation(request, proposal, core + external, decision, state))
  }

  /** What the request itself and the catalog must grant before any effect is allowed. */
  predicate Authorised(x: Runtime, request: Request, vertical: Vertical) {
    && request.effect != ""
    && Bound(x, request.bind, "ALLOW")
    && x.size(request.payload) <= MAX_PAYLOAD
    && Permitted(request.sources, vertical)
    && EffectPermitted(x, request, vertical)
  }

  lemma CoreStops(x: Runtime, request: Request, proposal: Proposal, vertical: Vertical)
    ensures var core := CoreResults(x, request, proposal, vertical);
      (exists i :: 0 <= i < |core| && Stops(core[i]))
      <==> !(&& x.size(request.payload) <= MAX_PAYLOAD && Permitted(request.sources, vertical)
             && Permitted(proposal.citations, vertical) && EffectPermitted(x, request, vertical)
             && (BindRequired(request, vertical) ==> BindComplete(x, request.bind)))
  {
    hide Permitted, EffectPermitted, BindComplete;
    var core := CoreResults(x, request, proposal, vertical);
    assert Stops(core[0]) <==> x.size(request.payload) > MAX_PAYLOAD;
    assert Stops(core[1]) <==> !Permitted(request.sources, vertical);
    assert Stops(core[2]) <==> !Permitted(proposal.citations, vertical);
    assert Stops(core[3]) <==> !EffectPermitted(x, request, vertical);
    assert !Stops(core[4]);
    assert Stops(core[5]) <==> BindRequired(request, vertical) && !BindComplete(x, request.bind);
  }

  predicate Stopped(results: seq<KernelResult>) {
    exists i :: 0 <= i < |results| && Stops(results[i])
  }

  lemma StoppedConcat(a: seq<KernelResult>, b: seq<KernelResult>)
    ensures Stopped(a + b) <==> Stopped(a) || Stopped(b)
  {
    if Stopped(a) { var i :| 0 <= i < |a| && Stops(a[i]); assert Stops((a + b)[i]); }
    if Stopped(b) { var i :| 0 <= i < |b| && Stops(b[i]); assert Stops((a + b)[|a| + i]); }
    if Stopped(a + b) {
      var i :| 0 <= i < |a + b| && Stops((a + b)[i]);
      assert i < |a| ==> Stops(a[i]);
      assert i >= |a| ==> Stops(b[i - |a|]);
    }
  }

  /** The results of the declared kernels within an evaluation. */
  function External(e: Evaluation): seq<KernelResult>
    requires |e.results| >= 6
  {
    e.results[6..]
  }

  /**
   An effect is allowed exactly when the request is authorised, the proposal exists and cites declared
   connectors only, no declared kernel stops it and, under the strict gate, none is missing.
   */
  lemma AllowedExactly(x: Runtime, catalog: map<string, Vertical>, strict: bool, models: map<string, ModelAdapter>,
                       kernels: map<string, KernelAdapter>, request: Request)
    requires Assess(x, catalog, strict, models, kernels, request).Done?
    ensures request.vertical in catalog
    ensures var e := Assess(x, catalog, strict, models, kernels, request).value;
      && |e.results| >= 6
      && (e.decision == Allow
          <==> && Authorised(x, request, catalog[request.vertical])
               && Permitted(e.proposal.citations, catalog[request.vertical]) && e.proposal.state != Unavailable
               && !Stopped(External(e))
               && (strict ==> forall i | 0 <= i < |External(e)| :: External(e)[i].state != Unavailable))
  {
    hide Permitted, EffectPermitted, ProposalFor, ExternalResults, CoreResults, BindComplete;
    var vertical := catalog[request.vertical];
    var proposal := ProposalFor(request, vertical, vertical.models, models).value;
    var core := CoreResults(x, request, proposal, vertical);
    var external := ExternalResults(request, proposal, vertical, vertical.kernels, kernels).value;
    CoreLength(x, request, proposal, vertical);
    assert (core + external)[6..] == external;
    CoreStops(x, request, proposal, vertical);
    StoppedConcat(core, external);
    hide Stops;
    assert Stopped(core + external) <==> exists i :: 0 <= i < |core + external| && Stops((core + external)[i]);
    assert Stopped(core) <==> exists i :: 0 <= i < |core| && Stops(core[i]);
  }

  lemma CoreLength(x: Runtime, request: Request, proposal: Proposal, vertical: Vertical)
    ensures |CoreResults(x, request, proposal, vertical)| == 6
  {
  }

  /** Whatever adapters are bound, an unauthorised request is never allowed. */
  lemma AdaptersCannotAuthorise(x: Runtime, catalog: map<string, Vertical>, strict: bool,
                                models: map<string, ModelAdapter>, kernels: map<string, KernelAdapter>,
                                request: Request)
    requires request.vertical in catalog && !Authorised(x, request, catalog[request.vertical])
    ensures var r := Assess(x, catalog, strict, models, kernels, request);
      r.Done? ==> r.value.decision != Allow
  {
    hide Assess, Authorised;
    if Assess(x, catalog, strict, models, kernels, request).Done? {
      AllowedExactly(x, catalog, strict, models, kernels, request);
    }
  }

  /**
   Where an effect needs a human binding, a request without a complete one is denied, not held: the
   binding check among the built-in ones stops it first.
   */
  lemma MissingBindingDenies(x: Runtime, catalog: map<string, Vertical>, strict: bool,
                             models: map<string, ModelAdapter>, kernels: map<string, KernelAdapter>,
                             request: Request)
    requires Assess(x, catalog, strict, models, kernels, request).Done?
    requires request.vertical in catalog
    requires BindRequired(request, catalog[request.vertical]) && !BindComplete(x, request.bind)
    ensures Assess(x, catalog, strict, models, kernels, request).value.decision == Deny
  {
    hide Permitted, EffectPermitted, ProposalFor, ExternalResults, CoreResults, BindComplete;
    var vertical := catalog[request.vertical];
    var proposal := ProposalFor(request, vertical, vertical.models, models).value;
    var core := CoreResults(x, request, proposal, vertical);
    var external := ExternalResults(request, proposal, vertical, vertical.kernels, kernels).value;
    CoreStops(x, request, proposal, vertical);
    hide Stops;
    var i :| 0 <= i < |core| && Stops(core[i]);
    assert Stops((core + external)[i]);
  }

  // ------------------------------------------------------------------- the chains

  datatype Fault = SequenceMismatch | PreviousHashMismatch | ReceiptHashMismatch

  function FaultsAt(seal: Seal<Content>, links: seq<Link<Content>>, i: nat): seq<(nat, Fault)>
    requires i < |links|
  {
    (if links[i].position != i then [(i, SequenceMismatch)] else [])
    + (if links[i].previous != HashBefore(ZERO_HASH, links, i) then [(i, PreviousHashMismatch)] else [])
    + (if !SealedAt(seal, links, i) then [(i, ReceiptHashMismatch)] else [])
  }

  function Faults(seal: Seal<Content>, links: seq<Link<Content>>, n: nat): seq<(nat, Fault)>
    requires n <= |links|
  {
    if n == 0 then [] else Faults(seal, links, n - 1) + FaultsAt(seal, links, n - 1)
  }

  lemma {:induction false} NoFaultsIsGood(seal: Seal<Content>, links: seq<Link<Content>>, n: nat)
    requires n <= |links|
    ensures Faults(seal, links, n) == [] <==> forall i: nat | i < n :: GoodAt(seal, ZERO_HASH, links, i)
  {
    if n > 0 {
      NoFaultsIsGood(seal, links, n - 1);
      assert FaultsAt(seal, links, n - 1) == [] <==> GoodAt(seal, ZERO_HASH, links, n - 1);
    }
  }

  class ReceiptChain {
    const runtime: Runtime
    var entries: seq<Link<Content>>

    ghost predicate Valid()
      reads this
    {
      Sound(runtime.seal, ZERO_HASH, entries)
    }

    constructor (runtime: Runtime)
      ensures Valid() && entries == [] && this.runtime == runtime
    {
      this.runtime := runtime;
      entries := [];
    }

    /** Hashing comes first: content without a canonical form adds nothing. */
    method Append(content: Content) returns (entry: Option<Link<Content>>)
      requires Valid()
      modifies this`entries
      ensures Valid()
      ensures entry.Some? <==> Sealable(runtime, content)
      ensures entry.Some? ==>
        entries == old(entries) + [entry.value]
        && entry.value == Next(runtime.seal, ZERO_HASH, old(entries), content)
      ensures entry.None? ==> entries == old(entries)
    {
      hide Sealable;
      if !Sealable(runtime, content) { return None; }
      var head := if entries == [] then ZERO_HASH else entries[|entries| - 1].hash;
      AppendSound(runtime.seal, ZERO_HASH, entries, content);
      var link := Link(|entries|, head, content, runtime.seal(|entries|, head, content));
      entries := entries + [link];
      entry := Some(link);
    }

    /** Every fault of every link, in order; none exactly when the chain is sound. */
    method Verify() returns (ok: bool, count: nat, faults: seq<(nat, Fault)>)
      ensures faults == Faults(runtime.seal, entries, |entries|) && count == |entries|
      ensures ok <==> Sound(runtime.seal, ZERO_HASH, entries)
    {
      var previous := ZERO_HASH;
      faults := [];
      for i := 0 to |entries|
        invariant previous == HashBefore(ZERO_HASH, entries, i) && faults == Faults(runtime.seal, entries, i)
      {
        var e := entries[i];
        var found: seq<(nat, Fault)> := [];
        if e.position != i { found := found + [(i, SequenceMismatch)]; }
        if e.previous != previous { found := found + [(i, PreviousHashMismatch)]; }
        if e.hash != runtime.seal(e.position, e.previous, e.content) { found := found + [(i, ReceiptHashMismatch)]; }
        assert found == FaultsAt(runtime.seal, entries, i);
        faults := faults + found;
        previous := e.hash;
      }
      NoFaultsIsGood(runtime.seal, entries, |entries|);
      ok, count := faults == [], |entries|;
    }
  }

  type SessionKey = (string, Hash)

  function KeyOf(x: Runtime, vertical: string, session: string): SessionKey { (vertical, x.hashText(session)) }

  function ContentOf(x: Runtime, e: Evaluation, issuedAt: string): Content {
    Content(e.request.vertical, x.hashText(e.request.actor), e.request.signal, issuedAt, e)
  }

  /** An evaluation that got as far as its receipt, with the session it belongs to and what was sealed. */
  datatype Attempt = Attempt(key: SessionKey, content: Option<Content>)

  function AttemptOf(x: Runtime, e: Evaluation, issuedAt: string): Attempt {
    var content := ContentOf(x, e, issuedAt);
    Attempt(KeyOf(x, e.request.vertical, e.request.session), if Sealable(x, content) then Some(content) else None)
  }

  function Sealed(content: Option<Content>): seq<Content> {
    if content.Some? then [content.value] else []
  }

  /** The chains after one more attempt: its session has a chain now, whether or not a link was added. */
  function Recorded(seal: Seal<Content>, sessions: map<SessionKey, seq<Link<Content>>>, a: Attempt)
    : map<SessionKey, seq<Link<Content>>>
  {
    var links := if a.key in sessions then sessions[a.key] else [];
    sessions[a.key := links + (if a.content.Some? then [Next(seal, ZERO_HASH, links, a.content.value)] else [])]
  }

  function Opened(sessions: map<SessionKey, seq<Link<Content>>>, k: SessionKey): map<SessionKey, seq<Link<Content>>> {
    if k in sessions then sessions else sessions[k := []]
  }

  lemma OpenedFirst(seal: Seal<Content>, sessions: map<SessionKey, seq<Link<Content>>>, a: Attempt)
    ensures Recorded(seal, Opened(sessions, a.key), a) == Recorded(seal, sessions, a)
    ensures a.content.None? ==> Recorded(seal, sessions, a) == Opened(sessions, a.key)
  {
    hide Next;
    var before := Opened(sessions, a.key);
    var links := if a.key in sessions then sessions[a.key] else [];
    assert a.key in before && before[a.key] == links;
    var longer := links + (if a.content.Some? then [Next(seal, ZERO_HASH, links, a.content.value)] else []);
    assert Recorded(seal, sessions, a) == sessions[a.key := longer] == before[a.key := longer];
    if a.content.None? {
      assert longer == links;
      assert before[a.key := links] == before;
    }
  }

  /** The chains after a run of attempts. */
  function AfterRun(seal: Seal<Content>, run: seq<Attempt>): map<SessionKey, seq<Link<Content>>> {
    if run == [] then map[]
    else Recorded(seal, AfterRun(seal, run[..|run| - 1]), run[|run| - 1])
  }

  /** What a run sealed in one session, in order. */
  function InSession(run: seq<Attempt>, k: SessionKey): seq<Content> {
    if run == [] then []
    else
      var last := run[|run| - 1];
      InSession(run[..|run| - 1], k) + (if last.key == k then Sealed(last.content) else [])
  }

  predicate Attempted(run: seq<Attempt>, k: SessionKey) {
    exists i :: 0 <= i < |run| && run[i].key == k
  }

  /**
   Over any run a session has a chain exactly when one of its evaluations got as far as its receipt, sealed or
   not; the chain holds exactly the sealed evaluations of the session in order, one link each, and is sound.
   */
  lemma {:induction false} RunBuildsChains(seal: Seal<Content>, run: seq<Attempt>, k: SessionKey)
    ensures k in AfterRun(seal, run) <==> Attempted(run, k)
    ensures k in AfterRun(seal, run) ==>
      && AfterRun(seal, run)[k] == Chained(seal, ZERO_HASH, InSession(run, k))
      && |AfterRun(seal, run)[k]| == |InSession(run, k)|
      && Sound(seal, ZERO_HASH, AfterRun(seal, run)[k])
    ensures k !in AfterRun(seal, run) ==> InSession(run, k) == []
  {
    if run != [] {
      hide Sound, Attempted;
      var n := |run| - 1;
      RunBuildsChains(seal, run[..n], k);
      var before := InSession(run[..n], k);
      if run[n].key == k && run[n].content.Some? {
        assert (before + [run[n].content.value])[..|before|] == before;
      } else {
        assert before + [] == before;
      }
      ChainedSound(seal, InSession(run, k));
    }
  }

  /** A session has an empty chain exactly when evaluations got as far as its receipt and none was sealed. */
  lemma EmptyChainExactly(seal: Seal<Content>, run: seq<Attempt>, k: SessionKey)
    ensures (k in AfterRun(seal, run) && AfterRun(seal, run)[k] == [])
            <==> Attempted(run, k) && forall i | 0 <= i < |run| && run[i].key == k :: run[i].content.None?
  {
    hide AfterRun, Attempted;
    RunBuildsChains(seal, run, k);
    SealedInSession(run, k);
  }

  lemma {:induction false} SealedInSession(run: seq<Attempt>, k: SessionKey)
    ensures InSession(run, k) == [] <==> forall i | 0 <= i < |run| && run[i].key == k :: run[i].content.None?
  {
    if run != [] {
      var front := run[..|run| - 1];
      SealedInSession(front, k);
      assert forall i | 0 <= i < |front| :: front[i] == run[i];
    }
  }

  lemma ChainedSound(seal: Seal<Content>, contents: seq<Content>)
    ensures Sound(seal, ZERO_HASH, Chained(seal, ZERO_HASH, contents))
    decreases contents
  {
    if contents != [] {
      var n := |contents| - 1;
      ChainedSound(seal, contents[..n]);
      AppendSound(seal, ZERO_HASH, Chained(seal, ZERO_HASH, contents[..n]), contents[n]);
    }
  }

  /** A failed evaluation changes the chains exactly when its session was new and only the receipt was missing. */
  lemma FailureOpensExactly(x: Runtime, sessions: map<SessionKey, seq<Link<Content>>>, e: Evaluation,
                            issuedAt: string)
    ensures var a := AttemptOf(x, e, issuedAt);
      a.content.None? ==> (Recorded(x.seal, sessions, a) != sessions <==> a.key !in sessions)
  {
    hide Sealable, KeyOf, ContentOf;
    var a := AttemptOf(x, e, issuedAt);
    OpenedFirst(x.seal, sessions, a);
    assert a.key !in sessions ==> a.key in Opened(sessions, a.key);
  }

  lemma {:induction false} UnboundKernelsAnswer(request: Request, proposal: Proposal, vertical: Vertical,
                                               kernels: seq<string>)
    ensures ExternalResults(request, proposal, vertical, kernels, map[]).Done?
  {
    if kernels != [] {
      UnboundKernelsAnswer(request, proposal, vertical, kernels[..|kernels| - 1]);
    }
  }

  /**
   A caller's proposal with a confidence that is not a number, no kernel being bound: the assessment is
   completed, its receipt cannot be sealed, and a session without a chain is left with an empty one.
   */
  lemma NotANumberLeavesEmptyChain(x: Runtime, catalog: map<string, Vertical>, strict: bool,
                                   models: map<string, ModelAdapter>, request: Request, issuedAt: string,
                                   sessions: map<SessionKey, seq<Link<Content>>>)
    requires request.vertical in catalog
    requires x.strip(request.signal) != "" && x.strip(request.session) != "" && x.strip(request.actor) != ""
    requires Canonical(x, request.payload) && x.size(request.payload) <= MAX_REQUEST && CanonicalIdentity(x, request)
    requires request.proposal == Some(Proposal(None, request.sources, Advisory,
               Object(map["summary" := Scalar("\"x\""), "confidence" := Number("nan", false)])))
    ensures var assessed := Assess(x, catalog, strict, models, map[], request);
      && assessed.Done?
      && var a := AttemptOf(x, assessed.value, issuedAt);
      && a.content.None?
      && (a.key !in sessions ==> Recorded(x.seal, sessions, a) == sessions[a.key := []])
  {
    hide CoreResults, Decide, KeyOf, CanonicalIdentity;
    var vertical := catalog[request.vertical];
    var proposal := request.proposal.value;
    UnboundKernelsAnswer(request, proposal, vertical, vertical.kernels);
    assert !Canonical(x, proposal.details.members["confidence"]);
    assert !CanonicalProposal(x, proposal);
    var a := AttemptOf(x, Assess(x, catalog, strict, models, map[], request).value, issuedAt);
    OpenedFirst(x.seal, sessions, a);
  }

  class VerticalFabric {
    const runtime: Runtime
    const catalog: map<string, Vertical>
    const strict: bool
    var models: map<string, ModelAdapter>
    var kernels: map<string, KernelAdapter>
    var chains: map<SessionKey, ReceiptChain>

    /** Each session has a chain object of its own, and every chain is sound. */
    ghost predicate Valid()
      reads this, chains.Values
    {
      && (forall k | k in chains :: chains[k] in chains.Values && chains[k].runtime == runtime && chains[k].Valid())
      && forall k, l | k in chains && l in chains && k != l :: chains[k] != chains[l]
    }

    ghost function Sessions(): map<SessionKey, seq<Link<Content>>>
      reads this, chains.Values
    {
      map k | k in chains :: chains[k].entries
    }

    constructor (runtime: Runtime, catalog: map<string, Vertical>, strict: bool)
      ensures Valid() && Sessions() == map[]
      ensures this.runtime == runtime && this.catalog == catalog && this.strict == strict
    {
      this.runtime, this.catalog, this.strict := runtime, catalog, strict;
      models, kernels, chains := map[], map[], map[];
    }

    method RegisterKernel(id: string, adapter: KernelAdapter) returns (ok: bool)
      requires Valid()
      modifies this`kernels
      ensures Valid() && Sessions() == old(Sessions())
      ensures ok <==> Text.StartsWith(id, "SZLHOLDINGS/")
      ensures kernels == if ok then old(kernels)[id := adapter] else old(kernels)
    {
      ok := Text.StartsWith(id, "SZLHOLDINGS/");
      if ok { kernels := kernels[id := adapter]; }
    }

    method RegisterModel(id: string, adapter: ModelAdapter) returns (ok: bool)
      requires Valid()
      modifies this`models
      ensures Valid() && Sessions() == old(Sessions())
      ensures ok <==> Text.StartsWith(id, "SZLHOLDINGS/")
      ensures models == if ok then old(models)[id := adapter] else old(models)
    {
      ok := Text.StartsWith(id, "SZLHOLDINGS/");
      if ok { models := models[id := adapter]; }
    }

    /** Give the session a chain, unless it has one. */
    method OpenSession(k: SessionKey)
      requires Valid()
      modifies this`chains
      ensures Valid() && k in chains && fresh(chains.Values - old(chains.Values))
      ensures Sessions() == Opened(old(Sessions()), k)
    {
      if k !in chains {
        var chain := new ReceiptChain(runtime);
        chains := chains[k := chain];
        assert Sessions() == old(Sessions())[k := []];
      }
    }

    /** Add a link to an open session, if the content can be sealed. */
    method Extend(k: SessionKey, c: Content) returns (entry: Option<Link<Content>>)
      requires Valid() && k in chains
      modifies chains[k]
      ensures Valid()
      ensures entry.Some? <==> Sealable(runtime, c)
      ensures Sessions() == Recorded(runtime.seal, old(Sessions()), Attempt(k, if entry.Some? then Some(c) else None))
    {
      hide Sound, Next, Sealable;
      ghost var links := Sessions()[k];
      entry := chains[k].Append(c);
      assert Sessions()[k] == links + (if entry.Some? then [Next(runtime.seal, ZERO_HASH, links, c)] else []);
    }

    /** The session is opened first, and stays open when the content cannot be sealed. */
    method Record(k: SessionKey, c: Content) returns (entry: Option<Link<Content>>)
      requires Valid()
      modifies this`chains, chains.Values
      ensures Valid()
      ensures entry.Some? <==> Sealable(runtime, c)
      ensures Sessions() == Recorded(runtime.seal, old(Sessions()), Attempt(k, if entry.Some? then Some(c) else None))
    {
      hide Sound, Next, Sealable, Recorded, Opened;
      ghost var before := Sessions();
      OpenSession(k);
      assert chains[k] in chains.Values;
      entry := Extend(k, c);
      OpenedFirst(runtime.seal, before, Attempt(k, if entry.Some? then Some(c) else None));
    }

    /** The caller's proposal, or the first bound model's. */
    method Propose(request: Request, vertical: Vertical) returns (r: Outcome<Proposal>)
      ensures r == ProposalFor(request, vertical, vertical.models, models)
    {
      if request.proposal.Some? { return Done(request.proposal.value); }
      for i := 0 to |vertical.models|
        invariant ProposalFor(request, vertical, vertical.models, models)
               == ProposalFor(request, vertical, vertical.models[i..], models)
      {
        var id := vertical.models[i];
        assert vertical.models[i..][1..] == vertical.models[i + 1..];
        if id in models {
          match models[id](request, vertical)
          case None => return Failed(AdapterFailed);
          case Some(p) =>
            if p.model != Some(id) { return Failed(IdentityMismatch); }
            return Done(p);
        }
      }
      r := Done(Proposal(None, request.sources, Unavailable, NO_PROPOSAL));
    }

    /** The results of the declared kernels, one after the other. */
    method RunKernels(request: Request, proposal: Proposal, vertical: Vertical)
      returns (r: Outcome<seq<KernelResult>>)
      ensures r == ExternalResults(request, proposal, vertical, vertical.kernels, kernels)
    {
      var results: seq<KernelResult> := [];
      for i := 0 to |vertical.kernels|
        invariant ExternalResults(request, proposal, vertical, vertical.kernels[..i], kernels) == Done(results)
      {
        var id := vertical.kernels[i];
        assert vertical.kernels[..i + 1][..i] == vertical.kernels[..i];
        if id !in kernels {
          results := results + [KernelResult(id, false, false, Unavailable, NOTHING)];
        } else {
          match kernels[id](request, proposal, vertical)
          case None =>
            KernelFailureStays(request, proposal, vertical, vertical.kernels, kernels, i + 1);
            return Failed(AdapterFailed);
          case Some(result) =>
            if result.kernel != id {
              KernelFailureStays(request, proposal, vertical, vertical.kernels, kernels, i + 1);
              return Failed(IdentityMismatch);
            }
            results := results + [result];
        }
      }
      assert vertical.kernels[..|vertical.kernels|] == vertical.kernels;
      r := Done(results);
    }

    /** The part of an evaluation before its receipt. */
    method AssessRequest(request: Request) returns (r: Outcome<Evaluation>)
      ensures r == Assess(runtime, catalog, strict, models, kernels, request)
    {
      hide Decide, CoreResults, ProposalFor, ExternalResults, Canonical, CanonicalIdentity;
      if request.vertical !in catalog { return Failed(UnknownVertical); }
      var x := runtime;
      if x.strip(request.signal) == "" || x.strip(request.session) == "" || x.strip(request.actor) == "" {
        return Failed(MissingIdentity);
      }
      if !Canonical(x, request.payload) { return Failed(NotCanonical); }
      if x.size(request.payload) > MAX_REQUEST { return Failed(RequestTooLarge); }
      var vertical := catalog[request.vertical];
      var proposed := Propose(request, vertical);
      if proposed.Failed? { return Failed(proposed.error); }
      var core := CoreResults(x, request, proposed.value, vertical);
      var external := RunKernels(request, proposed.value, vertical);
      if external.Failed? { return Failed(external.error); }
      var (decision, state) := Decide(x, request, vertical, proposed.value, core, external.value, strict);
      if !CanonicalIdentity(x, request) { return Failed(NotCanonical); }
      r := Done(Evaluation(request, proposed.value, core + external.value, decision, state));
    }

    /**
     The result is the assessment, provided its receipt can be sealed. An assessment that fails leaves the
     chains alone; one whose receipt cannot be sealed leaves its session with a chain.
     */
    method EvaluateRequest(request: Request, issuedAt: string) returns (r: Outcome<Evaluation>)
      requires Valid()
      modifies this`chains, chains.Values
      ensures Valid()
      ensures var assessed := Assess(runtime, catalog, strict, old(models), old(kernels), request);
        if assessed.Failed? then r == assessed && Sessions() == old(Sessions())
        else
          var attempt := AttemptOf(runtime, assessed.value, issuedAt);
          && r == (if attempt.content.Some? then assessed else Failed(NotCanonical))
          && Sessions() == Recorded(runtime.seal, old(Sessions()), attempt)
    {
      hide Sound, Next, Recorded, Sealable, KeyOf, ContentOf, Assess;
      var assessed := AssessRequest(request);
      if assessed.Failed? { return assessed; }
      var e := assessed.value;
      var entry := Record(KeyOf(runtime, e.request.vertical, e.request.session), ContentOf(runtime, e, issuedAt));
      r := if entry.Some? then assessed else Failed(NotCanonical);
    }

    /** Verification of a session succeeds exactly when the session has a chain. */
    method VerifySession(vertical: string, session: string) returns (ok: bool, count: nat)
      requires Valid()
      ensures ok <==> KeyOf(runtime, vertical, session) in chains
      ensures ok ==> count == |chains[KeyOf(runtime, vertical, session)].entries|
      ensures !ok ==> count == 0
    {
      var k := KeyOf(runtime, vertical, session);
      if k !in chains { return false, 0; }
      var faults;
      ok, count, faults := chains[k].Verify();
    }
  }
}
