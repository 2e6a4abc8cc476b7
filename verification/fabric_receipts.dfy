/**
 What can be sealed into a receipt, read off its parts: a value has a canonical text exactly when every part one
 comes to along some path has one, and a receipt when every text and every value in it does.
 */
module FabricReceipts {
  import opened Prelude
  import opened HashChain
  import opened Fabric
  import opened FabricDecisions

  // -------------------------------------------------------------- canonical values

  /** One step into a value: an item of a list, or a member of an object. */
  datatype Step = Item(index: nat) | Member(name: string)

  /** The part of a value at the end of a path, if there is one. */
  function PartAt(v: Datum, path: seq<Step>): Option<Datum>
    decreases |path|
  {
    if path == [] then Some(v)
    else
      match path[0]
      case Item(i) => if v.List? && i < |v.items| then PartAt(v.items[i], path[1..]) else None
      case Member(k) => if v.Object? && k in v.members then PartAt(v.members[k], path[1..]) else None
  }

  /** The part is of a type JSON knows, its own texts are writable, and a number is finite. */
  predicate Plain(x: Runtime, v: Datum) {
    && !v.Foreign?
    && (v.Scalar? ==> x.writable(v.json))
    && (v.Number? ==> v.finite)
    && (v.Object? ==> forall k | k in v.members :: x.writable(k))
  }

  ghost predicate AllPlain(x: Runtime, v: Datum) {
    forall path | PartAt(v, path).Some? :: Plain(x, PartAt(v, path).value)
  }

  /** A value has a canonical text exactly when all of its parts are plain. */
  lemma {:induction false} CanonicalExactly(x: Runtime, v: Datum)
    ensures Canonical(x, v) <==> AllPlain(x, v)
    decreases v
  {
    hide Plain;
    if Canonical(x, v) {
      forall path | PartAt(v, path).Some? ensures Plain(x, PartAt(v, path).value) { PartsPlain(x, v, path); }
    }
    if AllPlain(x, v) {
      assert PartAt(v, []) == Some(v);
      match v {
        case List(items) =>
          forall i | 0 <= i < |items| ensures Canonical(x, items[i]) {
            PartsOf(x, v, Item(i), items[i]);
            CanonicalExactly(x, items[i]);
          }
        case Object(members) =>
          forall k | k in members ensures x.writable(k) && Canonical(x, members[k]) {
            PlainMember(x, v, k);
            PartsOf(x, v, Member(k), members[k]);
            CanonicalExactly(x, members[k]);
          }
        case _ => PlainLeaf(x, v);
      }
    }
  }

  lemma PlainLeaf(x: Runtime, v: Datum)
    requires Plain(x, v) && !v.List? && !v.Object?
    ensures Canonical(x, v)
  {
  }

  lemma PlainMember(x: Runtime, v: Datum, k: string)
    requires Plain(x, v) && v.Object? && k in v.members
    ensures x.writable(k)
  {
  }

  lemma PartsOf(x: Runtime, v: Datum, step: Step, part: Datum)
    requires AllPlain(x, v) && PartAt(v, [step]) == Some(part)
    ensures AllPlain(x, part)
  {
    hide Plain;
    forall path | PartAt(part, path).Some? ensures Plain(x, PartAt(part, path).value) {
      assert ([step] + path)[1..] == path;
      assert PartAt(v, [step]) == PartAt(part, []);
      assert PartAt(v, [step] + path) == PartAt(part, path);
    }
  }

  lemma {:induction false} PartsPlain(x: Runtime, v: Datum, path: seq<Step>)
    requires Canonical(x, v) && PartAt(v, path).Some?
    ensures Plain(x, PartAt(v, path).value)
    decreases |path|
  {
    if path != [] {
      match path[0]
      case Item(i) => PartsPlain(x, v.items[i], path[1..]);
      case Member(k) => PartsPlain(x, v.members[k], path[1..]);
    }
  }

  // ---------------------------------------------------------------------- receipts

  predicate SourceWritable(x: Runtime, s: Source) {
    && x.writable(s.connector) && x.writable(s.locator)
    && (s.revision.Some? ==> x.writable(s.revision.value)) && (s.digest.Some? ==> x.writable(s.digest.value))
  }

  lemma SourcesExactly(x: Runtime, sources: seq<Source>)
    ensures WritableSources(x, sources) <==> forall i | 0 <= i < |sources| :: SourceWritable(x, sources[i])
  {
    if WritableSources(x, sources) {
      forall i | 0 <= i < |sources| ensures SourceWritable(x, sources[i]) { assert sources[i] in sources; }
    }
  }

  /** Every text of the evaluation that the receipt shows is writable, and every value of it plain. */
  ghost predicate Shows(x: Runtime, e: Evaluation) {
    && x.writable(e.request.signal) && x.writable(e.request.effect)
    && (forall i | 0 <= i < |e.request.sources| :: SourceWritable(x, e.request.sources[i]))
    && (forall i | 0 <= i < |e.proposal.citations| :: SourceWritable(x, e.proposal.citations[i]))
    && (e.proposal.model.Some? ==> x.writable(e.proposal.model.value))
    && AllPlain(x, e.proposal.details)
    && forall i | 0 <= i < |e.results| :: x.writable(e.results[i].kernel) && AllPlain(x, e.results[i].details)
  }

  lemma ResultsCanonical(x: Runtime, results: seq<KernelResult>)
    ensures CanonicalResults(x, results)
            <==> forall i | 0 <= i < |results| :: x.writable(results[i].kernel) && AllPlain(x, results[i].details)
  {
    hide Canonical, AllPlain;
    forall r | r in results ensures Canonical(x, r.details) <==> AllPlain(x, r.details) {
      CanonicalExactly(x, r.details);
    }
    if CanonicalResults(x, results) {
      forall i | 0 <= i < |results| ensures x.writable(results[i].kernel) && AllPlain(x, results[i].details) {
        assert results[i] in results;
      }
    }
  }

  /**
   The attempt to seal an evaluation belongs to the session of its request, succeeds exactly when everything it
   shows can be written, and seals the evaluation whole, with the hash of its actor and its time.
   */
  lemma ReceiptExactly(x: Runtime, e: Evaluation, issuedAt: string)
    ensures var a := AttemptOf(x, e, issuedAt);
      && a.key == (e.request.vertical, x.hashText(e.request.session))
      && (a.content.Some? <==> Shows(x, e))
      && (a.content.Some? ==>
            a.content.value
            == Content(e.request.vertical, x.hashText(e.request.actor), e.request.signal, issuedAt, e))
  {
    SourcesExactly(x, e.request.sources);
    SourcesExactly(x, e.proposal.citations);
    CanonicalExactly(x, e.proposal.details);
    ResultsCanonical(x, e.results);
    hide Canonical, AllPlain, WritableSources, SourceWritable, CanonicalResults;
  }

  // ------------------------------------------------------------------------ errors

  predicate Identified(x: Runtime, request: Request) {
    x.strip(request.signal) != "" && x.strip(request.session) != "" && x.strip(request.actor) != ""
  }

  /** The session, the actor and the human binding can be hashed. */
  ghost predicate Hashable(x: Runtime, request: Request) {
    && x.writable(request.session) && x.writable(request.actor)
    && (request.bind.Some? ==>
          forall f | f in request.bind.value :: x.writable(f) && AllPlain(x, request.bind.value[f]))
  }

  lemma HashableExactly(x: Runtime, request: Request)
    ensures CanonicalIdentity(x, request) <==> Hashable(x, request)
  {
    hide Canonical, AllPlain;
    if request.bind.Some? {
      forall f | f in request.bind.value
        ensures Canonical(x, request.bind.value[f]) <==> AllPlain(x, request.bind.value[f])
      {
        CanonicalExactly(x, request.bind.value[f]);
      }
    }
  }

  /**
   How an assessment fails: for an unknown vertical, a blank identity, a payload without a canonical text, one of
   more than 1 100 000 bytes, an adapter, or an identity that cannot be hashed, in this order.
   */
  lemma ErrorsExactly(x: Runtime, catalog: map<string, Vertical>, strict: bool, models: map<string, ModelAdapter>,
                      kernels: map<string, KernelAdapter>, request: Request)
    ensures var r := Assess(x, catalog, strict, models, kernels, request);
      var known, taken := request.vertical in catalog, Identified(x, request);
      var canonical, fits := AllPlain(x, request.payload), x.size(request.payload) <= 1_100_000;
      && (r == Failed(UnknownVertical) <==> !known)
      && (r == Failed(MissingIdentity) <==> known && !taken)
      && (r == Failed(RequestTooLarge) <==> known && taken && canonical && !fits)
      && (known && taken && !canonical ==> r == Failed(NotCanonical))
      && (known && taken && canonical && fits ==>
            var v := catalog[request.vertical];
            var proposed := ProposalFor(request, v, v.models, models);
            if proposed.Failed? then r == Failed(proposed.error)
            else
              var answered := ExternalResults(request, proposed.value, v, v.kernels, kernels);
              if answered.Failed? then r == Failed(answered.error)
              else if !Hashable(x, request) then r == Failed(NotCanonical)
              else
                r.Done? && r.value.request == request && r.value.proposal == proposed.value
                && |r.value.results| >= 6 && r.value.results[6..] == answered.value)
  {
    CanonicalExactly(x, request.payload);
    HashableExactly(x, request);
    hide Canonical, AllPlain, CanonicalIdentity, Hashable, ProposalFor, ExternalResults, CoreResults, Decide;
    if request.vertical in catalog {
      var v := catalog[request.vertical];
      ProposalErrors(request, v, v.models, models);
      var proposed := ProposalFor(request, v, v.models, models);
      if proposed.Done? {
        KernelErrors(request, proposed.value, v, v.kernels, kernels);
        CoreLength(x, request, proposed.value, v);
        var answered := ExternalResults(request, proposed.value, v, v.kernels, kernels);
        if answered.Done? {
          var core := CoreResults(x, request, proposed.value, v);
          assert (core + answered.value)[6..] == answered.value;
        }
      }
    }
  }

  lemma {:induction false} ProposalErrors(request: Request, vertical: Vertical, models: seq<string>,
                                          bound: map<string, ModelAdapter>)
    ensures var r := ProposalFor(request, vertical, models, bound);
      r.Failed? ==> r.error == AdapterFailed || r.error == IdentityMismatch
  {
    if models != [] { ProposalErrors(request, vertical, models[1..], bound); }
  }

  lemma {:induction false} KernelErrors(request: Request, proposal: Proposal, vertical: Vertical, kernels: seq<string>,
                                        bound: map<string, KernelAdapter>)
    ensures var r := ExternalResults(request, proposal, vertical, kernels, bound);
      r.Failed? ==> r.error == AdapterFailed || r.error == IdentityMismatch
  {
    if kernels != [] { KernelErrors(request, proposal, vertical, kernels[..|kernels| - 1], bound); }
  }

  // --------------------------------------------------------------- what checks report

  /** The six built-in results: which check each is, whether it passed, whether it blocks, and its claim state. */
  lemma ReportedChecks(x: Runtime, request: Request, proposal: Proposal, vertical: Vertical)
    ensures var core := CoreResults(x, request, proposal, vertical);
      var needed := request.effect != "" && vertical.requiresBind;
      var bound := Says(x, request.bind, "ALLOW") || Says(x, request.bind, "DENY");
      var axes := x.axes(request.payload);
      && |core| == 6
      && Reports(core[0], "szl-core/payload-boundary", x.size(request.payload) <= 1_000_000, true, Measured)
      && Reports(core[1], "SZLHOLDINGS/szl-invariants/source-boundary", OfVertical(request.sources, vertical), true,
                 Measured)
      && Reports(core[2], "SZLHOLDINGS/szl-invariants/citation-boundary", OfVertical(proposal.citations, vertical),
                 true, Measured)
      && Reports(core[3], "SZLHOLDINGS/szl-blocked/effect-boundary", WithinBoundary(x, request.effect, vertical), true,
                 Measured)
      && (axes == InvalidAxes ==> Reports(core[4], "SZLHOLDINGS/szl-lambda-gate/advisory", false, false, Blocked))
      && (axes == ValidAxes ==> Reports(core[4], "SZLHOLDINGS/szl-lambda-gate/advisory", true, false, Advisory))
      && (axes == NoAxes ==> Reports(core[4], "SZLHOLDINGS/szl-lambda-gate/advisory", true, false, Unavailable))
      && (bound ==> Reports(core[5], "szl-core/human-bind", true, needed, Measured))
      && (!bound ==> Reports(core[5], "szl-core/human-bind", !needed, needed, Unavailable))
  {
    hide EffectPermitted, WithinBoundary, BindComplete, Says, Permitted, OfVertical;
    BoundaryExactly(x, request, vertical);
    SaysExactly(x, request.bind, "ALLOW");
    OfVerticalExactly(request.sources, vertical);
    OfVerticalExactly(proposal.citations, vertical);
  }

  predicate Reports(r: KernelResult, kernel: string, passed: bool, blocking: bool, state: ClaimState) {
    r.kernel == kernel && r.passed == passed && r.blocking == blocking && r.state == state
  }
}
