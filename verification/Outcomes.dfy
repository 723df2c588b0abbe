/** What one reconcile does, case by case, in terms of what is stored: which state the
    guest shows, when a creation goes ahead, what a deletion leaves. */
module Outcomes {
  import opened Basics
  import opened Naming
  import opened Model
  import opened Protocol
  import opened Creation

  // ---------------------------------------------------------------- the federation of a context

  /** The only federation of the context. */
  predicate Sole(feds: seq<Fed>, ctx: string, i: int) {
    0 <= i < |feds| && feds[i].ctx == ctx && forall j :: 0 <= j < |feds| && j != i ==> feds[j].ctx != ctx
  }

  lemma {:induction false} FedsOfCount(feds: seq<Fed>, ctx: string)
    ensures |FedsOf(feds, ctx)| == 0 <==> forall i :: 0 <= i < |feds| ==> feds[i].ctx != ctx
    ensures |FedsOf(feds, ctx)| == 1 <==> exists i :: Sole(feds, ctx, i)
    ensures forall i :: Sole(feds, ctx, i) ==> FedsOf(feds, ctx) == [feds[i]]
  {
    if feds != [] {
      var rest := feds[1..];
      FedsOfCount(rest, ctx);
      if feds[0].ctx == ctx {
        assert Sole(feds, ctx, 0) <==> forall j :: 0 <= j < |rest| ==> rest[j].ctx != ctx;
        forall i | Sole(feds, ctx, i) ensures i == 0 {
        }
      } else {
        forall i | Sole(feds, ctx, i) ensures i > 0 && Sole(rest, ctx, i - 1) {
          assert forall j :: 0 <= j < |rest| ==> rest[j] == feds[j + 1];
        }
        forall i | Sole(rest, ctx, i) ensures Sole(feds, ctx, i + 1) {
          assert forall j :: 0 < j < |feds| ==> feds[j] == rest[j - 1];
        }
      }
    }
  }

  /** Reconciles go ahead exactly for a sole, AVAILABLE federation, and the lookup fails
      exactly when there is no sole one. */
  lemma OpenExactly(feds: seq<Fed>, ctx: string)
    ensures Open(feds, ctx) <==> exists i :: Sole(feds, ctx, i) && feds[i].phase == Available
    ensures Frozen(feds, ctx) <==> exists i :: Sole(feds, ctx, i) && feds[i].phase != Available
    ensures !LookupFed(feds, ctx).OneFed? <==> forall i :: !Sole(feds, ctx, i)
  {
    FedsOfCount(feds, ctx);
  }

  /** The reads of a reconcile succeed and its federation is open. */
  predicate Serves(w: World, ref: Ref, o: Oracle) {
    o.get && o.listFeds && ref in w.guest && Open(w.feds, w.guest[ref].ctx)
  }

  /** Without a sole federation, or when listing federations fails for good, the state
      becomes failed, unless the resource is being deleted; nothing else changes. */
  lemma Unserved(w: World, ref: Ref, o: Oracle, w': World)
    requires w' == ReconcileStep(w, ref, o) && ref in w.guest && o.get
    requires !o.listFeds || forall i :: !Sole(w.feds, w.guest[ref].ctx, i)
    ensures w' == if (!o.listFeds && o.transient) || w.guest[ref].deleting || !o.statusOk then w
                  else w.(guest := w.guest[ref := w.guest[ref].(phase := Failed)])
    ensures ReconcileReply(w, ref, o) == Reply(0, true, false)
  {
    OpenExactly(w.feds, w.guest[ref].ctx);
    assert w.guest[ref := w.guest[ref]] == w.guest;
  }

  /** A resource that cannot be read, or is gone, changes nothing. */
  lemma Unread(w: World, ref: Ref, o: Oracle)
    requires !o.get || ref !in w.guest
    ensures ReconcileStep(w, ref, o) == w && ReconcileReply(w, ref, o) == Reply(0, !o.get, false)
  {
  }

  /** The first reconcile only stores the finalizer. */
  lemma FinalizerFirst(w: World, ref: Ref, o: Oracle, w': World)
    requires Serves(w, ref, o) && w' == ReconcileStep(w, ref, o)
    requires !w.guest[ref].deleting && !w.guest[ref].finalizer
    ensures w' == if o.metaOk then w.(guest := w.guest[ref := w.guest[ref].(finalizer := true)]) else w
    ensures ReconcileReply(w, ref, o) == Reply(0, !o.metaOk || !o.statusOk, false)
  {
    assert w.guest[ref := w.guest[ref]] == w.guest;
  }

  // ---------------------------------------------------------------- the guest learns the host's state

  /** A reconcile of a resource that has a state, on the Kubernetes path. */
  predicate Follows(w: World, ref: Ref, o: Oracle) {
    && Serves(w, ref, o)
    && var cr := w.guest[ref];
    && cr.ctx !in w.rest && !cr.deleting && cr.finalizer && cr.phase != Unset
  }

  /** The guest stores the state of its mirror, or failed when it has none; a failed read
      leaves the state if it may pass and makes it failed if not. Nothing else changes. */
  lemma GuestShowsHost(w: World, ref: Ref, o: Oracle, w': World)
    requires Follows(w, ref, o) && w' == ReconcileStep(w, ref, o)
    ensures var cr := w.guest[ref]; var hr := HostRefOf(cr.spec, cr.ctx);
      w' == if !o.statusOk || (o.call.err && o.transient) then w
            else w.(guest := w.guest[ref := cr.(phase :=
              if !o.call.err && hr in w.host then w.host[hr].phase else Failed)])
    ensures var cr := w.guest[ref];
      ReconcileReply(w, ref, o) ==
      Reply(0, o.call.err || HostRefOf(cr.spec, cr.ctx) !in w.host || !o.statusOk, false)
  {
    assert w.guest[ref := w.guest[ref]] == w.guest;
  }

  /** Over REST a resource with a state waits for callbacks. */
  lemma RestWaits(w: World, ref: Ref, o: Oracle)
    requires Serves(w, ref, o) && w.guest[ref].ctx in w.rest
    requires !w.guest[ref].deleting && w.guest[ref].finalizer && w.guest[ref].phase != Unset
    ensures ReconcileStep(w, ref, o) == w && ReconcileReply(w, ref, o) == Reply(0, !o.statusOk, false)
  {
    assert w.guest[ref := w.guest[ref]] == w.guest;
  }

  /** A stored resource on the Kubernetes path whose mirror has this state. */
  predicate MirrorAt(w: World, ref: Ref, cr: Cr, phase: Phase) {
    && ref in w.guest && w.guest[ref].spec == cr.spec && w.guest[ref].ctx == cr.ctx && cr.ctx !in w.rest
    && HostRefOf(cr.spec, cr.ctx) in w.host && w.host[HostRefOf(cr.spec, cr.ctx)].phase == phase
  }

  /** No reconcile of the resource fails for good. */
  ghost predicate Calm(w: World, step: Step, ref: Ref) {
    step.Reconcile? && step.ref == ref && step.o.get && ref in w.guest ==>
      && (step.o.listFeds || step.o.transient)
      && (step.o.listFeds ==> exists i :: Sole(w.feds, w.guest[ref].ctx, i))
      && (step.o.call.err ==> step.o.transient)
  }

  lemma ShownOwn(w: World, o: Oracle, ref: Ref, cr: Cr, phase: Phase)
    requires MirrorAt(w, ref, cr, phase) && w.guest[ref].phase == phase != Unset && Calm(w, Reconcile(ref, o), ref)
    ensures ref in ReconcileStep(w, ref, o).guest ==> ReconcileStep(w, ref, o).guest[ref].phase == phase
  {
    if o.get {
      if o.listFeds {
        OpenExactly(w.feds, w.guest[ref].ctx);
      } else {
        assert o.transient;
      }
    }
  }

  lemma ShownNext(w: World, step: Step, w': World, ref: Ref, cr: Cr, phase: Phase)
    requires MirrorAt(w, ref, cr, phase) && w.guest[ref].phase == phase != Unset
    requires Calm(w, step, ref) && w' == Next(w, step) && ref in w'.guest
    ensures w'.guest[ref].phase == phase
  {
    match step
    case Reconcile(r, o) =>
      if r == ref {
        ShownOwn(w, o, ref, cr, phase);
      }
    case _ =>
  }

  ghost predicate StaysAt(w: World, steps: seq<Step>, ref: Ref, cr: Cr, phase: Phase) {
    MirrorAt(Run(w, steps), ref, cr, phase) && (steps != [] ==> StaysAt(w, steps[..|steps| - 1], ref, cr, phase))
  }

  ghost predicate StaysCalm(w: World, steps: seq<Step>, ref: Ref) {
    steps != [] ==>
      Calm(Run(w, steps[..|steps| - 1]), steps[|steps| - 1], ref) && StaysCalm(w, steps[..|steps| - 1], ref)
  }

  lemma {:induction false} ShownRun(w: World, steps: seq<Step>, ref: Ref, cr: Cr, phase: Phase)
    requires MirrorAt(w, ref, cr, phase) && w.guest[ref].phase == phase != Unset
    requires StaysAt(w, steps, ref, cr, phase) && StaysCalm(w, steps, ref)
    ensures Run(w, steps).guest[ref].phase == phase
  {
    if steps != [] {
      var front := steps[..|steps| - 1];
      ShownRun(w, front, ref, cr, phase);
      ShownNext(Run(w, front), steps[|steps| - 1], Run(w, steps), ref, cr, phase);
    }
  }

  /** The guest catches up: while a mirror keeps a state, one reconcile that can read and
      store makes the guest show it, and it goes on showing it through any run in which the
      mirror keeps it and no later reconcile of the resource fails for good. */
  lemma GuestCatchesUp(w: World, ref: Ref, o: Oracle, steps: seq<Step>, phase: Phase, end: World)
    requires Follows(w, ref, o) && !o.call.err && o.statusOk && phase != Unset
    requires MirrorAt(w, ref, w.guest[ref], phase)
    requires StaysAt(ReconcileStep(w, ref, o), steps, ref, w.guest[ref], phase)
    requires StaysCalm(ReconcileStep(w, ref, o), steps, ref) && end == Run(ReconcileStep(w, ref, o), steps)
    ensures ref in end.guest && end.guest[ref].phase == phase
  {
    GuestShowsHost(w, ref, o, ReconcileStep(w, ref, o));
    ShownRun(ReconcileStep(w, ref, o), steps, ref, w.guest[ref], phase);
  }

  // ---------------------------------------------------------------- the gate

  predicate Carries(guest: map<Ref, Cr>, r: Ref, kind: Kind, key: string) {
    r in guest && r.kind == kind && guest[r].tag == Some(key)
  }

  /** The first resource in list order with that kind and label. */
  predicate FirstListed(order: seq<Ref>, guest: map<Ref, Cr>, kind: Kind, key: string, i: int) {
    && 0 <= i < |order| && Carries(guest, order[i], kind, key)
    && forall j :: 0 <= j < i ==> !Carries(guest, order[j], kind, key)
  }

  lemma {:induction false} LabelledFirst(order: seq<Ref>, guest: map<Ref, Cr>, kind: Kind, key: string)
    ensures Labelled(order, guest, kind, key) == [] <==>
            forall j :: 0 <= j < |order| ==> !Carries(guest, order[j], kind, key)
    ensures forall i :: FirstListed(order, guest, kind, key, i) ==>
              Labelled(order, guest, kind, key) != [] && Labelled(order, guest, kind, key)[0] == order[i]
    ensures Labelled(order, guest, kind, key) != [] ==> exists i :: FirstListed(order, guest, kind, key, i)
  {
    if order != [] {
      var rest := order[1..];
      LabelledFirst(rest, guest, kind, key);
      if Carries(guest, order[0], kind, key) {
        assert FirstListed(order, guest, kind, key, 0);
      } else {
        assert forall j :: 0 <= j < |rest| ==> rest[j] == order[j + 1];
        forall i | FirstListed(order, guest, kind, key, i) ensures i > 0 && FirstListed(rest, guest, kind, key, i - 1) {
          assert i > 0;
          assert forall j :: 0 <= j < i - 1 ==> rest[j] == order[j + 1];
        }
        if Labelled(rest, guest, kind, key) != [] {
          var i :| FirstListed(rest, guest, kind, key, i);
          assert FirstListed(order, guest, kind, key, i + 1) by {
            assert forall j :: 0 < j < i + 1 ==> order[j] == rest[j - 1];
          }
        }
      }
    }
  }

  /** The state a dependency is waited for. */
  predicate Good(kind: Kind, phase: Phase) {
    match kind
    case Image => phase == Ready
    case Artefact => phase == Ready
    case Onboarding => phase == Onboarded
    case Zone => phase == Available
    case Deployment => false
  }

  /** The first one listed under the label of a dependency is in that state. */
  ghost predicate Met(order: seq<Ref>, guest: map<Ref, Cr>, n: Need, ctx: string) {
    exists i :: FirstListed(order, guest, n.kind, n.id + ctx, i) && Good(n.kind, guest[order[i]].phase)
  }

  predicate Found(order: seq<Ref>, guest: map<Ref, Cr>, n: Need, ctx: string) {
    exists r :: r in order && Carries(guest, r, n.kind, n.id + ctx)
  }

  /** What a dependency that is not met makes of the try. */
  function Setback(order: seq<Ref>, guest: map<Ref, Cr>, n: Need, ctx: string): GateResult {
    if Found(order, guest, n, ctx) then NotYet(15)
    else match n.kind
      case Image => Abort
      case Artefact => Abort
      case Zone => NotYet(30)
      case Onboarding => NotYet(30)
      case Deployment => Abort
  }

  lemma GateHead(needs: seq<Need>, ctx: string, order: seq<Ref>, guest: map<Ref, Cr>, k: nat)
    requires needs != [] && needs[0].kind != Deployment
    ensures Gate(needs, ctx, order, guest, None) ==
            if Met(order, guest, needs[0], ctx) then Gate(needs[1..], ctx, order, guest, None)
            else Setback(order, guest, needs[0], ctx)
    ensures Gate(needs, ctx, order, guest, Some(k)) ==
            if k == 0 then ListError
            else if Met(order, guest, needs[0], ctx) then Gate(needs[1..], ctx, order, guest, Some(k - 1))
            else Setback(order, guest, needs[0], ctx)
  {
    var n := needs[0];
    var key := ScopedKey(n.id, ctx);
    assert key == n.id + ctx;
    LabelledFirst(order, guest, n.kind, key);
    var found := Labelled(order, guest, n.kind, key);
    if found == [] {
      assert !Found(order, guest, n, ctx);
      assert !Met(order, guest, n, ctx);
    } else {
      var i :| FirstListed(order, guest, n.kind, key, i);
      assert order[i] in order && Found(order, guest, n, ctx) && found[0] == order[i];
      assert forall j :: FirstListed(order, guest, n.kind, key, j) ==> j == i;
      assert Met(order, guest, n, ctx) <==> Good(n.kind, guest[order[i]].phase);
    }
  }

  /** The gate, in full: with every need before the m-th met, a failing lookup up to there
      is an error, no need left passes, and else the m-th decides. */
  lemma {:induction false} GateOutcome(needs: seq<Need>, ctx: string, order: seq<Ref>, guest: map<Ref, Cr>,
                                       fail: Option<nat>, m: nat)
    requires forall n :: n in needs ==> n.kind != Deployment
    requires m <= |needs| && forall j :: 0 <= j < m ==> Met(order, guest, needs[j], ctx)
    requires m < |needs| ==> !Met(order, guest, needs[m], ctx)
    ensures Gate(needs, ctx, order, guest, fail) ==
            if fail.Some? && fail.value <= m && fail.value < |needs| then ListError
            else if m == |needs| then Pass
            else Setback(order, guest, needs[m], ctx)
  {
    if needs != [] {
      GateHead(needs, ctx, order, guest, if fail.Some? then fail.value else 0);
      if m > 0 && fail != Some(0) {
        var rest := needs[1..];
        assert forall j :: 0 <= j < |rest| ==> rest[j] == needs[j + 1];
        GateOutcome(rest, ctx, order, guest, if fail.Some? then Some(fail.value - 1) else None, m - 1);
      }
    }
  }

  /** With no failing lookup the gate passes exactly when every need is met. */
  lemma {:induction false} GatePassesExactly(needs: seq<Need>, ctx: string, order: seq<Ref>, guest: map<Ref, Cr>)
    requires forall n :: n in needs ==> n.kind != Deployment
    ensures Gate(needs, ctx, order, guest, None) == Pass <==> forall n :: n in needs ==> Met(order, guest, n, ctx)
  {
    if needs != [] {
      GateHead(needs, ctx, order, guest, 0);
      GatePassesExactly(needs[1..], ctx, order, guest);
      assert needs == [needs[0]] + needs[1..];
    }
  }

  /** All that a resource names stands ready, kind by kind. */
  ghost predicate DependenciesMet(order: seq<Ref>, guest: map<Ref, Cr>, spec: Spec, ctx: string, isRest: bool) {
    match spec
    case ImageSpec(_) => true
    case ZoneSpec(_) => true
    case ArtefactSpec(_, None) => false
    case ArtefactSpec(_, Some(components)) =>
      forall c, id :: c in components && id in c ==> Met(order, guest, Need(Image, id), ctx)
    case OnboardingSpec(_, components) =>
      forall id :: id in components ==> Met(order, guest, Need(Artefact, id), ctx)
    case DeploymentSpec(app, _, zone) =>
      (isRest || Met(order, guest, Need(Zone, zone), ctx)) && Met(order, guest, Need(Onboarding, app), ctx)
  }

  lemma NeedsAre(spec: Spec, isRest: bool, n: Need)
    ensures n in Needs(spec, isRest) <==>
      match spec
      case ImageSpec(_) => false
      case ZoneSpec(_) => false
      case ArtefactSpec(_, None) => false
      case ArtefactSpec(_, Some(components)) => n.kind == Image && exists c :: c in components && n.id in c
      case OnboardingSpec(_, components) => n.kind == Artefact && n.id in components
      case DeploymentSpec(app, _, zone) => n == Need(Onboarding, app) || (!isRest && n == Need(Zone, zone))
  {
    match spec
    case ArtefactSpec(_, Some(components)) => ComponentNeedsKind(components, n);
    case OnboardingSpec(_, components) => ArtefactNeedsKind(components, n);
    case _ =>
  }

  lemma VerdictExactly(w: World, ref: Ref, o: Oracle)
    requires ref in w.guest && o.gateFail.None?
    ensures var cr := w.guest[ref];
      Verdict(w, ref, o) == Pass <==> DependenciesMet(o.order, w.guest, cr.spec, cr.ctx, cr.ctx in w.rest)
  {
    var cr := w.guest[ref];
    var isRest := cr.ctx in w.rest;
    forall n ensures n in Needs(cr.spec, isRest) ==> n.kind != Deployment {
      NeedsAre(cr.spec, isRest, n);
    }
    GatePassesExactly(Needs(cr.spec, isRest), cr.ctx, o.order, w.guest);
    if HasBody(cr.spec) {
      MetIsAll(o.order, w.guest, cr.spec, cr.ctx, isRest);
    }
  }

  lemma MetIsAll(order: seq<Ref>, guest: map<Ref, Cr>, spec: Spec, ctx: string, isRest: bool)
    requires HasBody(spec)
    ensures DependenciesMet(order, guest, spec, ctx, isRest) <==>
            forall n :: n in Needs(spec, isRest) ==> Met(order, guest, n, ctx)
  {
    match spec
    case ArtefactSpec(_, Some(components)) =>
      forall n ensures n in Needs(spec, isRest) <==> n.kind == Image && exists c :: c in components && n.id in c {
        NeedsAre(spec, isRest, n);
      }
      if forall n :: n in Needs(spec, isRest) ==> Met(order, guest, n, ctx) {
        forall c, id | c in components && id in c ensures Met(order, guest, Need(Image, id), ctx) {
          assert Need(Image, id) in Needs(spec, isRest);
        }
      }
    case OnboardingSpec(_, components) =>
      forall n ensures n in Needs(spec, isRest) <==> n.kind == Artefact && n.id in components {
        NeedsAre(spec, isRest, n);
      }
      if forall n :: n in Needs(spec, isRest) ==> Met(order, guest, n, ctx) {
        forall id | id in components ensures Met(order, guest, Need(Artefact, id), ctx) {
          assert Need(Artefact, id) in Needs(spec, isRest);
        }
      }
    case DeploymentSpec(app, _, zone) =>
      NeedsAre(spec, isRest, Need(Onboarding, app));
      NeedsAre(spec, isRest, Need(Zone, zone));
    case _ =>
  }

  // ---------------------------------------------------------------- a creation

  /** Labels and mirror names are made of the same text. */
  lemma MirrorNames(spec: Spec, ctx: string)
    ensures HostRefOf(spec, ctx) ==
      match spec
      case ImageSpec(id) => HostRef(Image, id + ctx)
      case ArtefactSpec(id, _) => HostRef(Artefact, id + ctx)
      case OnboardingSpec(id, _) => HostRef(Onboarding, id + ctx)
      case ZoneSpec(id) => HostRef(Zone, id + ctx)
      case DeploymentSpec(app, instance, _) => HostRef(Deployment, ctx + app + instance)
    ensures forall cr: Cr :: WithLabel(cr).tag == Some(HostRefOf(cr.spec, cr.ctx).key)
  {
  }

  /** With no failing lookup a mirror is written exactly when a new resource finds all it
      names standing ready and the apply takes effect. */
  lemma CreatesWhenMet(w: World, ref: Ref, o: Oracle, w': World)
    requires ref in w.guest && w.guest[ref].ctx !in w.rest && o.gateFail.None? && w' == ReconcileStep(w, ref, o)
    ensures w'.log != w.log <==>
      && Tries(w, ref, o) && (o.call.effect || !o.call.err)
      && DependenciesMet(o.order, w.guest, w.guest[ref].spec, w.guest[ref].ctx, false)
  {
    CreatesExactly(w, ref, o, w');
    VerdictExactly(w, ref, o);
  }

  /** What it writes: the mirror, the history, and the mark that it was created. */
  lemma CreationWrites(w: World, ref: Ref, o: Oracle, w': World)
    requires Tries(w, ref, o) && o.gateFail.None? && (o.call.effect || !o.call.err) && w' == ReconcileStep(w, ref, o)
    requires var cr := w.guest[ref]; DependenciesMet(o.order, w.guest, cr.spec, cr.ctx, cr.ctx in w.rest)
    ensures var cr := w.guest[ref]; var hr := HostRefOf(cr.spec, cr.ctx);
      && w'.created == w.created + {ref}
      && (cr.ctx in w.rest ==> w'.host == w.host && w'.log == w.log)
      && (cr.ctx !in w.rest ==>
            && w'.log == w.log + [Applied(hr, cr.spec, cr.ctx)]
            && w'.host.Keys == w.host.Keys + {hr}
            && w'.host[hr].spec == cr.spec && w'.host[hr].ctx == cr.ctx
            && (hr !in w.host ==> !w'.host[hr].finalizer && !w'.host[hr].deleting && w'.host[hr].phase == Unset)
            && (hr in w.host ==> w'.host[hr] == w.host[hr].(spec := cr.spec, ctx := cr.ctx))
            && forall other :: other in w.host && other != hr ==> w'.host[other] == w.host[other])
  {
    VerdictExactly(w, ref, o);
  }

  predicate ForGood(w: World, ref: Ref, o: Oracle)
    requires ref in w.guest
  {
    !o.transient && (Verdict(w, ref, o) == ListError || (Verdict(w, ref, o) == Pass && o.call.err))
  }

  /** The state a try gives the resource: the first one, or the one a REST client chose. */
  function Answer(w: World, ref: Ref, o: Oracle): Phase
    requires ref in w.guest
  {
    if Verdict(w, ref, o) == Pass && w.guest[ref].ctx in w.rest && o.call.phase != Unset then o.call.phase
    else if ref.kind == Zone then NotAvailable
    else Pending
  }

  /** Its label: at once for images, artefacts and zones, after success for the others. */
  function LabelAfter(w: World, ref: Ref, o: Oracle): Option<string>
    requires ref in w.guest
  {
    var cr := w.guest[ref];
    if ref.kind in {Image, Artefact, Zone} || (Verdict(w, ref, o) == Pass && !o.call.err)
    then Some(HostRefOf(cr.spec, cr.ctx).key) else cr.tag
  }

  /** What a try leaves stored of the resource: its state, or failed, and its label. A failed
      metadata patch stores neither, a failed status patch only the label; a state that a
      REST client stored at once stays. */
  function Left(w: World, ref: Ref, o: Oracle): Cr
    requires ref in w.guest
  {
    var cr := w.guest[ref];
    var early := Verdict(w, ref, o) == Pass && cr.ctx in w.rest && o.call.early;
    var held := if early then cr.(phase := Answer(w, ref, o)) else cr;
    if LabelAfter(w, ref, o) != cr.tag && !o.metaOk then held
    else
      held.(tag := LabelAfter(w, ref, o),
            phase := if !o.statusOk then held.phase else if ForGood(w, ref, o) then Failed else Answer(w, ref, o))
  }

  lemma TryStoresPassed(w: World, ref: Ref, o: Oracle, w': World)
    requires Tries(w, ref, o) && Verdict(w, ref, o) == Pass && w' == ReconcileStep(w, ref, o)
    ensures w'.guest == w.guest[ref := Left(w, ref, o)]
  {
    assert ref.kind in {Image, Artefact, Zone} <==> LabelsEarly(ref.kind);
  }

  lemma TryStores(w: World, ref: Ref, o: Oracle, w': World)
    requires Tries(w, ref, o) && w' == ReconcileStep(w, ref, o)
    ensures w'.guest == w.guest[ref := Left(w, ref, o)]
  {
    if Verdict(w, ref, o) == Pass {
      TryStoresPassed(w, ref, o, w');
    } else {
      assert ref.kind in {Image, Artefact, Zone} <==> LabelsEarly(ref.kind);
    }
  }

  /** What a try returns; a failed patch makes it an error. */
  lemma TryReplies(w: World, ref: Ref, o: Oracle)
    requires Tries(w, ref, o)
    ensures var unsaved := (LabelAfter(w, ref, o) != w.guest[ref].tag && !o.metaOk) || !o.statusOk;
      ReconcileReply(w, ref, o) ==
      match Verdict(w, ref, o)
      case Pass => Reply(0, o.call.err || unsaved, false)
      case NotYet(after) => Reply(after, unsaved, false)
      case Abort => Reply(0, unsaved, true)
      case ListError => Reply(0, true, false)
  {
    assert ref.kind in {Image, Artefact, Zone} <==> LabelsEarly(ref.kind);
  }

  // ---------------------------------------------------------------- a deletion

  /** Some stored resource of the context names this one. */
  ghost predicate Named(guest: map<Ref, Cr>, kind: Kind, id: string, ctx: string) {
    exists r :: r in guest && guest[r].ctx == ctx && NamesIt(guest[r].spec, kind, id)
  }

  ghost predicate NamesIt(spec: Spec, kind: Kind, id: string) {
    match kind
    case Image => spec.ArtefactSpec? && spec.body.Some? && exists c :: c in spec.body.value && id in c
    case Artefact => spec.OnboardingSpec? && id in spec.components
    case Onboarding => spec.DeploymentSpec? && spec.ofApp == id
    case Zone => spec.DeploymentSpec? && spec.zone == id
    case Deployment => false
  }

  lemma DependentsExactly(guest: map<Ref, Cr>, kind: Kind, id: string, ctx: string)
    ensures HasDependents(guest, kind, id, ctx) <==> Named(guest, kind, id, ctx)
  {
    forall r | r in guest ensures Mentions(guest[r].spec, Need(kind, id)) <==> NamesIt(guest[r].spec, kind, id) {
      NeedsAre(guest[r].spec, false, Need(kind, id));
    }
  }

  /** The host's store after a delete call that took effect. */
  function Deleted(host: map<HostRef, Mirror>, hr: HostRef): map<HostRef, Mirror> {
    if hr !in host then host
    else if !host[hr].finalizer then map other | other in host && other != hr :: host[other]
    else host[hr := Mirror(host[hr].spec, host[hr].ctx, true, true, host[hr].phase)]
  }

  lemma DeletedIs(host: map<HostRef, Mirror>, hr: HostRef)
    ensures DeleteMirror(host, hr) == Deleted(host, hr)
  {
  }

  /** A deletion waits while it is named; it tells the partner; only if the partner call
      succeeded, and the patch does, the resource goes. */
  lemma DeletionOutcome(w: World, ref: Ref, o: Oracle, w': World)
    requires Serves(w, ref, o) && w.guest[ref].deleting && w.guest[ref].finalizer && w' == ReconcileStep(w, ref, o)
    ensures var cr := w.guest[ref]; var isRest := cr.ctx in w.rest;
      if ref.kind != Deployment && (!o.listDependents || Named(w.guest, ref.kind, IdOf(cr.spec), cr.ctx)) then w' == w
      else
        && w'.host == (if isRest || (o.call.err && !o.call.effect) then w.host
                       else Deleted(w.host, HostRefOf(cr.spec, cr.ctx)))
        && w'.log == w.log && w'.feds == w.feds && w'.rest == w.rest
        && if o.call.err || !o.metaOk
           then && w'.created == w.created && w'.guest.Keys == w.guest.Keys && w'.guest[ref].finalizer
                && (!(isRest && o.call.early) ==> w'.guest == w.guest)
           else w'.guest == w.guest - {ref} && w'.created == w.created - {ref}
    ensures var cr := w.guest[ref];
      ReconcileReply(w, ref, o) ==
      if ref.kind != Deployment && !o.listDependents then Reply(0, true, false)
      else if ref.kind != Deployment && Named(w.guest, ref.kind, IdOf(cr.spec), cr.ctx) then Reply(15, false, false)
      else Reply(0, o.call.err || !o.metaOk, false)
  {
    var cr := w.guest[ref];
    DependentsExactly(w.guest, ref.kind, IdOf(cr.spec), cr.ctx);
    DeletedIs(w.host, HostRefOf(cr.spec, cr.ctx));
    assert w.guest[ref := cr] == w.guest;
  }

  // ---------------------------------------------------------------- watchers

  /** A reconcile starts a watcher exactly when its apply made a new mirror without error,
      and stops one exactly when its delete went through without error. */
  lemma WatchExactly(w: World, ref: Ref, o: Oracle)
    requires ref in w.guest
    ensures var cr := w.guest[ref];
      && (ReconcileWatch(w, ref, o) == Starts <==>
            Tries(w, ref, o) && Verdict(w, ref, o) == Pass && !o.call.err && cr.ctx !in w.rest
            && HostRefOf(cr.spec, cr.ctx) !in w.host)
      && (ReconcileWatch(w, ref, o) == Stops <==>
            Serves(w, ref, o) && cr.deleting && !o.call.err && cr.ctx !in w.rest
            && (ref.kind == Deployment ||
                (o.listDependents && !Named(w.guest, ref.kind, IdOf(cr.spec), cr.ctx))))
    ensures forall watched, key ::
      Rewatch(watched, key, Starts) == watched + {key} && Rewatch(watched, key, Stops) == watched - {key}
      && Rewatch(watched, key, Keeps) == watched
  {
    DependentsExactly(w.guest, ref.kind, IdOf(w.guest[ref].spec), w.guest[ref].ctx);
  }

  // ---------------------------------------------------------------- a federation's deletion

  /** Some stored resource has this context id. */
  predicate InUse(guest: map<Ref, Cr>, ctx: string) {
    ctx != "" && exists r :: r in guest && guest[r].ctx == ctx
  }

  /** A federation marked deleted goes exactly when, for a guest, no resource is left and
      the partner call succeeded, and the policy update and the patch did; any failure
      keeps it, and keeps everything else. */
  lemma FederationOutcome(w: World, index: nat, o: Oracle, w': World)
    requires index < |w.feds| && w.feds[index].deleting && w.feds[index].finalizer && w' == FederationStep(w, index, o)
    ensures var f := w.feds[index];
      var goes := && o.get && o.policyOk && o.metaOk
                  && (f.guest ==> (f.ctx == "" || o.listDependents) && !InUse(w.guest, f.ctx) && !o.call.err);
      w' == if goes then w.(feds := w.feds[..index] + w.feds[index + 1..]) else w
    ensures var f := w.feds[index];
      FederationReply(w, index, o) ==
      if !o.get || (f.guest && f.ctx != "" && !o.listDependents) then Reply(0, true, false)
      else if f.guest && InUse(w.guest, f.ctx) then Reply(15, false, false)
      else Reply(0, (f.guest && o.call.err) || !o.policyOk || !o.metaOk, false)
  {
  }

  /** One not marked deleted is left alone by this branch. */
  lemma FederationKept(w: World, index: nat, o: Oracle)
    requires index >= |w.feds| || !w.feds[index].deleting || !w.feds[index].finalizer
    ensures FederationStep(w, index, o) == w
  {
  }

  // ---------------------------------------------------------------- the host's copy

  /** With an open federation the host's operator drops a mirror marked deleted, gives it a
      finalizer, then its first state; each only if the patches succeed. */
  lemma HostOutcome(w: World, hr: HostRef, metaOk: bool, statusOk: bool, w': World)
    requires hr in w.host && w' == HostReconcileStep(w, hr, HostFedOpen, metaOk, statusOk)
    ensures var m := w.host[hr];
      && (m.deleting && metaOk ==> w' == w.(host := w.host - {hr}))
      && (!m.deleting && !m.finalizer && metaOk ==> w' == w.(host := w.host[hr := m.(finalizer := true)]))
      && (!m.deleting && m.finalizer && m.phase == Unset && metaOk && statusOk ==>
            var first := if hr.kind == Zone then NotAvailable else Pending;
            w' == w.(host := w.host[hr := m.(phase := first)], log := w.log + [HostState(hr, first)]))
      && (!m.deleting && m.finalizer && (m.phase != Unset || !statusOk) ==> w' == w)
      && (!metaOk ==> w' == w)
    ensures var m := w.host[hr];
      HostReply(w, hr, HostFedOpen, metaOk, statusOk) ==
      Reply(0, if m.deleting then !metaOk
               else if m.finalizer && m.phase != Unset then !statusOk else !metaOk || !statusOk, false)
  {
  }

  /** Otherwise it changes nothing, except that a lookup failing for good makes a live mirror
      failed. */
  lemma HostUnserved(w: World, hr: HostRef, view: FedView, metaOk: bool, statusOk: bool, w': World)
    requires !view.HostFedOpen? && w' == HostReconcileStep(w, hr, view, metaOk, statusOk)
    ensures w' == if hr in w.host && view == HostFedError(Permanent) && !w.host[hr].deleting && statusOk
                  then w.(host := w.host[hr := w.host[hr].(phase := Failed)], log := w.log + [HostState(hr, Failed)])
                  else w
    ensures HostReply(w, hr, view, metaOk, statusOk) ==
            Reply(0, hr in w.host && (view.HostFedError? || (!w.host[hr].deleting && !statusOk)), false)
  {
  }

  /** A deletion of a mirror goes through: the guest's call marks it, one reconcile of the
      host's operator drops it. */
  lemma MarkedMirrorGoes(w: World, ref: Ref, o: Oracle, metaOk: bool, statusOk: bool, w': World)
    requires Serves(w, ref, o) && w.guest[ref].deleting && w.guest[ref].finalizer && w.guest[ref].ctx !in w.rest
    requires !o.call.err && metaOk
    requires ref.kind == Deployment ||
             (o.listDependents && !Named(w.guest, ref.kind, IdOf(w.guest[ref].spec), w.guest[ref].ctx))
    requires var hr := HostRefOf(w.guest[ref].spec, w.guest[ref].ctx);
      w' == HostReconcileStep(ReconcileStep(w, ref, o), hr, HostFedOpen, metaOk, statusOk)
    ensures HostRefOf(w.guest[ref].spec, w.guest[ref].ctx) !in w'.host
  {
    var hr := HostRefOf(w.guest[ref].spec, w.guest[ref].ctx);
    var mid := ReconcileStep(w, ref, o);
    DeletionOutcome(w, ref, o, mid);
    if hr in mid.host {
      HostOutcome(mid, hr, metaOk, statusOk, w');
    }
  }

  // ---------------------------------------------------------------- the steps of others

  /** A user's resource starts without finalizer, label and state; deleting one that has a
      finalizer only marks it. */
  lemma UserSteps(w: World, ref: Ref, spec: Spec, ctx: string)
    ensures Next(w, UserCreate(ref, spec, ctx)) ==
            if ref in w.guest || ref.kind != KindOf(spec) then w
            else w.(guest := w.guest[ref := Cr(spec, ctx, false, false, None, Unset)])
    ensures ref in w.guest ==>
      var w' := Next(w, UserDelete(ref));
      && w' == w.(guest := w'.guest)
      && if w.guest[ref].finalizer then w'.guest == w.guest[ref := w.guest[ref].(deleting := true)]
         else w'.guest.Keys == w.guest.Keys - {ref} && forall r :: r in w'.guest ==> w'.guest[r] == w.guest[r]
  {
  }

  /** A callback stores its state, whatever was there, on a resource reached over REST, and
      on no other; the host's state is stored on the mirror and noted. */
  lemma StatesArrive(w: World, ref: Ref, hr: HostRef, phase: Phase)
    ensures ref in w.guest && w.guest[ref].ctx in w.rest ==>
      Next(w, Callback(ref, phase)) == w.(guest := w.guest[ref := w.guest[ref].(phase := phase)])
    ensures !(ref in w.guest && w.guest[ref].ctx in w.rest) ==> Next(w, Callback(ref, phase)) == w
    ensures hr in w.host ==>
      Next(w, HostStatus(hr, phase)) ==
      w.(host := w.host[hr := w.host[hr].(phase := phase)], log := w.log + [HostState(hr, phase)])
  {
  }
}
