/**
 The decisions of the fabric, read off the request, the proposal and the results: which of them denies, allows or
 holds, with which claim state, and what the built-in checks and the bound adapters contribute.
 */
module FabricDecisions {
  import opened Prelude
  import opened HashChain
  import opened Fabric
  import Text

  /** A human binding with its five fields filled in says `verdict`. */
  predicate Says(x: Runtime, bind: Option<map<string, Datum>>, verdict: string) {
    && bind.Some?
    && Filled(x, bind.value, "approver_id") && Filled(x, bind.value, "approved_at") && Filled(x, bind.value, "scope")
    && Filled(x, bind.value, "decision") && Filled(x, bind.value, "policy_revision")
    && x.upper(x.show(bind.value["decision"])) == verdict
  }

  predicate Filled(x: Runtime, fields: map<string, Datum>, field: string) {
    field in fields && x.strip(x.show(fields[field])) != ""
  }

  lemma SaysExactly(x: Runtime, bind: Option<map<string, Datum>>, verdict: string)
    requires verdict == "ALLOW" || verdict == "DENY"
    ensures Bound(x, bind, verdict) <==> Says(x, bind, verdict)
    ensures BindComplete(x, bind) <==> Says(x, bind, "ALLOW") || Says(x, bind, "DENY")
  {
    if bind.Some? {
      var fields := bind.value;
      assert BIND_FIELDS <= fields.Keys
             <==> && "approver_id" in fields && "approved_at" in fields && "scope" in fields && "decision" in fields
                  && "policy_revision" in fields;
      if BIND_FIELDS <= fields.Keys {
        assert (forall f | f in BIND_FIELDS :: x.strip(x.show(fields[f])) != "")
               <==> && x.strip(x.show(fields["approver_id"])) != "" && x.strip(x.show(fields["approved_at"])) != ""
                    && x.strip(x.show(fields["scope"])) != "" && x.strip(x.show(fields["decision"])) != ""
                    && x.strip(x.show(fields["policy_revision"])) != "";
      }
    }
  }

  predicate Failing(results: seq<KernelResult>) {
    exists i :: 0 <= i < |results| && results[i].blocking && !results[i].passed
  }

  predicate SomeMissing(results: seq<KernelResult>) {
    exists i :: 0 <= i < |results| && results[i].state == Unavailable
  }

  /** What `Decide` makes of the results, in the terms of the results. */
  lemma DecideExactly(x: Runtime, request: Request, vertical: Vertical, proposal: Proposal, core: seq<KernelResult>,
                      external: seq<KernelResult>, strict: bool)
    requires BindRequired(request, vertical) && !BindComplete(x, request.bind) ==> Failing(core + external)
    ensures var (decision, state) := Decide(x, request, vertical, proposal, core, external, strict);
      var missing := strict && SomeMissing(external);
      && (decision == Deny <==> Failing(core + external) || Says(x, request.bind, "DENY"))
      && (decision == Allow
          <==> && !Failing(core + external) && request.effect != "" && Says(x, request.bind, "ALLOW")
               && proposal.state != Unavailable && !missing)
      && (state == Blocked <==> decision == Deny) && (state == Measured <==> decision == Allow)
      && (decision == Hold ==>
            state == if proposal.state == Unavailable || (request.effect != "" && missing)
                     then Unavailable else Advisory)
  {
    hide Says, Bound, BindComplete, BindRequired;
    SaysExactly(x, request.bind, "DENY");
    SaysExactly(x, request.bind, "ALLOW");
    DenyIsNotAllow(x, request.bind);
    var results := core + external;
    assert Failing(results) <==> exists i :: 0 <= i < |results| && Stops(results[i]);
  }

  lemma DenyIsNotAllow(x: Runtime, bind: Option<map<string, Datum>>)
    ensures !(Says(x, bind, "DENY") && Says(x, bind, "ALLOW"))
  {
  }

  /**
   The decision on an assessed request: DENY if a check that blocks has failed or the human binding says so;
   ALLOW if none has, the binding allows the effect, there is a proposal and, under the strict gate, no declared
   kernel is missing; else HOLD. BLOCKED goes with DENY, MEASURED with ALLOW, and a HOLD is UNAVAILABLE where
   there is no proposal or the strict gate misses a kernel for an effect, else ADVISORY.
   */
  lemma DecisionsExactly(x: Runtime, catalog: map<string, Vertical>, strict: bool, models: map<string, ModelAdapter>,
                         kernels: map<string, KernelAdapter>, request: Request)
    requires Assess(x, catalog, strict, models, kernels, request).Done?
    ensures var e := Assess(x, catalog, strict, models, kernels, request).value;
      && |e.results| >= 6 && e.request == request
      && var missing := strict && SomeMissing(e.results[6..]);
      && (e.decision == Deny <==> Failing(e.results) || Says(x, request.bind, "DENY"))
      && (e.decision == Allow
          <==> && !Failing(e.results) && request.effect != "" && Says(x, request.bind, "ALLOW")
               && e.proposal.state != Unavailable && !missing)
      && (e.state == Blocked <==> e.decision == Deny) && (e.state == Measured <==> e.decision == Allow)
      && (e.decision == Hold ==>
            e.state == if e.proposal.state == Unavailable || (request.effect != "" && missing)
                       then Unavailable else Advisory)
  {
    hide Permitted, EffectPermitted, ProposalFor, ExternalResults, CoreResults, BindComplete, Decide, Says,
         BindRequired, Canonical, CanonicalIdentity;
    var vertical := catalog[request.vertical];
    var proposal := ProposalFor(request, vertical, vertical.models, models).value;
    var core := CoreResults(x, request, proposal, vertical);
    var external := ExternalResults(request, proposal, vertical, vertical.kernels, kernels).value;
    CoreLength(x, request, proposal, vertical);
    assert (core + external)[6..] == external;
    if BindRequired(request, vertical) && !BindComplete(x, request.bind) {
      CoreFails(x, request, proposal, vertical, external);
    }
    DecideExactly(x, request, vertical, proposal, core, external, strict);
  }

  lemma CoreFails(x: Runtime, request: Request, proposal: Proposal, vertical: Vertical, external: seq<KernelResult>)
    requires BindRequired(request, vertical) && !BindComplete(x, request.bind)
    ensures Failing(CoreResults(x, request, proposal, vertical) + external)
  {
    hide Permitted, EffectPermitted, BindComplete, BindRequired;
    var core := CoreResults(x, request, proposal, vertical);
    assert (core + external)[5] == core[5];
  }

  // ------------------------------------------------------------- the built-in checks

  predicate OfVertical(sources: seq<Source>, vertical: Vertical) {
    forall i | 0 <= i < |sources| :: sources[i].connector in vertical.connectors
  }

  /** No prohibited word, nothing but simulation at the simulated vertical, nothing at all at a read-only one. */
  predicate WithinBoundary(x: Runtime, effect: string, vertical: Vertical) {
    var wanted := x.lower(x.strip(effect));
    && !Text.Occurs(wanted, "weapon") && !Text.Occurs(wanted, "fire") && !Text.Occurs(wanted, "launch")
    && !Text.Occurs(wanted, "strike") && !Text.Occurs(wanted, "target") && !Text.Occurs(wanted, "credential")
    && !Text.Occurs(wanted, "exfiltrate") && !Text.Occurs(wanted, "bypass")
    && !Text.Occurs(wanted, "disable-control")
    && (vertical.id == "killinchu" ==>
          wanted == "" || wanted == "simulate" || wanted == "compare-simulation" || wanted == "export-report")
    && (vertical.mode == ReadOnly ==> wanted == "")
  }

  lemma BoundaryExactly(x: Runtime, request: Request, vertical: Vertical)
    ensures EffectPermitted(x, request, vertical) <==> WithinBoundary(x, request.effect, vertical)
  {
    hide Text.Occurs;
    var wanted := Wanted(x, request);
    forall token
      ensures token in PROHIBITED
              <==> || token == "weapon" || token == "fire" || token == "launch" || token == "strike"
                   || token == "target" || token == "credential" || token == "exfiltrate" || token == "bypass"
                   || token == "disable-control"
    {
    }
    assert "weapon" in PROHIBITED && "fire" in PROHIBITED && "launch" in PROHIBITED && "strike" in PROHIBITED;
    assert "target" in PROHIBITED && "credential" in PROHIBITED && "exfiltrate" in PROHIBITED;
    assert "bypass" in PROHIBITED && "disable-control" in PROHIBITED;
  }

  /** The built-in checks that block fail exactly outside these bounds. */
  lemma ChecksExactly(x: Runtime, request: Request, proposal: Proposal, vertical: Vertical)
    ensures Failing(CoreResults(x, request, proposal, vertical)) <==>
      || x.size(request.payload) > 1_000_000
      || !OfVertical(request.sources, vertical) || !OfVertical(proposal.citations, vertical)
      || !WithinBoundary(x, request.effect, vertical)
      || (request.effect != "" && vertical.requiresBind
          && !Says(x, request.bind, "ALLOW") && !Says(x, request.bind, "DENY"))
  {
    hide EffectPermitted, WithinBoundary, BindComplete, Says, CoreResults;
    CoreStops(x, request, proposal, vertical);
    BoundaryExactly(x, request, vertical);
    SaysExactly(x, request.bind, "ALLOW");
    OfVerticalExactly(request.sources, vertical);
    OfVerticalExactly(proposal.citations, vertical);
    var core := CoreResults(x, request, proposal, vertical);
    assert Failing(core) <==> exists i :: 0 <= i < |core| && Stops(core[i]);
  }

  lemma OfVerticalExactly(sources: seq<Source>, vertical: Vertical)
    ensures Permitted(sources, vertical) <==> OfVertical(sources, vertical)
  {
    if Permitted(sources, vertical) {
      forall i | 0 <= i < |sources| ensures sources[i].connector in vertical.connectors {
        assert sources[i] in sources;
      }
    }
  }

  // ----------------------------------------------------------------------- adapters

  /** The model at `i` is the first one declared that is bound. */
  predicate FirstBound(models: seq<string>, bound: map<string, ModelAdapter>, i: nat) {
    i < |models| && models[i] in bound && forall j | 0 <= j < i :: models[j] !in bound
  }

  /** The proposal is the caller's, else what the first bound model answers under its own name, else none. */
  lemma {:induction false} ProposalExactly(request: Request, vertical: Vertical, models: seq<string>,
                                           bound: map<string, ModelAdapter>)
    ensures var r := ProposalFor(request, vertical, models, bound);
      && (request.proposal.Some? ==> r == Done(request.proposal.value))
      && (request.proposal.None? ==>
            && (forall i: nat | FirstBound(models, bound, i) ::
                  r == match bound[models[i]](request, vertical)
                       case None => Failed(AdapterFailed)
                       case Some(p) => if p.model == Some(models[i]) then Done(p) else Failed(IdentityMismatch))
            && ((forall i | 0 <= i < |models| :: models[i] !in bound) ==>
                  r == Done(Proposal(None, request.sources, Unavailable,
                         Object(map["payload" := Object(map["proposal_generated" := Scalar("false")])])))))
  {
    if request.proposal.None? && models != [] && models[0] !in bound {
      ProposalExactly(request, vertical, models[1..], bound);
      forall i: nat | FirstBound(models, bound, i) ensures i > 0 && FirstBound(models[1..], bound, i - 1) {
        assert forall j | 0 <= j < i - 1 :: models[1..][j] == models[j + 1];
      }
    }
  }

  /** What a declared kernel contributes: its own answer, or its absence if it is not bound. */
  predicate Contributes(request: Request, proposal: Proposal, vertical: Vertical, kernel: string,
                        bound: map<string, KernelAdapter>, r: KernelResult)
  {
    && r.kernel == kernel
    && (kernel in bound ==> bound[kernel](request, proposal, vertical) == Some(r))
    && (kernel !in bound ==> !r.passed && !r.blocking && r.state == Unavailable && r.details == Object(map[]))
  }

  /** Kernel results are complete exactly when every bound kernel answers under its own name; one each, in order. */
  lemma {:induction false} KernelsExactly(request: Request, proposal: Proposal, vertical: Vertical,
                                          kernels: seq<string>, bound: map<string, KernelAdapter>)
    ensures var r := ExternalResults(request, proposal, vertical, kernels, bound);
      && (r.Done? <==> forall i | 0 <= i < |kernels| && kernels[i] in bound ::
                         var answer := bound[kernels[i]](request, proposal, vertical);
                         answer.Some? && answer.value.kernel == kernels[i])
      && (r.Done? ==> |r.value| == |kernels|
                      && forall i | 0 <= i < |kernels| ::
                           Contributes(request, proposal, vertical, kernels[i], bound, r.value[i]))
  {
    if kernels != [] {
      var n := |kernels| - 1;
      KernelsExactly(request, proposal, vertical, kernels[..n], bound);
      assert forall i | 0 <= i < n :: kernels[..n][i] == kernels[i];
    }
  }

  // ------------------------------------------------------------------ verification

  lemma {:induction false} FaultsByLink(seal: Seal<Content>, links: seq<Link<Content>>, n: nat, f: (nat, Fault))
    requires n <= |links|
    ensures f in Faults(seal, links, n) <==> f.0 < n && f in FaultsAt(seal, links, f.0)
  {
    if n > 0 {
      FaultsByLink(seal, links, n - 1, f);
      assert f in FaultsAt(seal, links, n - 1) ==> f.0 == n - 1;
    }
  }

  /** Verification names at each link exactly what is wrong with it. */
  lemma FaultsExactly(seal: Seal<Content>, links: seq<Link<Content>>, i: nat)
    requires i < |links|
    ensures var faults, l := Faults(seal, links, |links|), links[i];
      && ((i, SequenceMismatch) in faults <==> l.position != i)
      && ((i, PreviousHashMismatch) in faults <==> l.previous != if i == 0 then ZERO_HASH else links[i - 1].hash)
      && ((i, ReceiptHashMismatch) in faults <==> l.hash != seal(l.position, l.previous, l.content))
  {
    hide Faults;
    FaultsByLink(seal, links, |links|, (i, SequenceMismatch));
    FaultsByLink(seal, links, |links|, (i, PreviousHashMismatch));
    FaultsByLink(seal, links, |links|, (i, ReceiptHashMismatch));
  }
}
