/** When the creation of a guest resource on the partner is tried: once. The state is
    stored before the gate is passed, and only a resource without a state is new. */
module Creation {
  import opened Basics
  import opened Naming
  import opened Model
  import opened Protocol

  /** The reconcile reaches the creation branch. */
  predicate Tries(w: World, ref: Ref, o: Oracle) {
    && o.get && o.listFeds && ref in w.guest
    && var cr := w.guest[ref];
    && Open(w.feds, cr.ctx) && !cr.deleting && cr.finalizer && cr.phase == Unset
  }

  function Verdict(w: World, ref: Ref, o: Oracle): GateResult
    requires ref in w.guest
  {
    var cr := w.guest[ref];
    if HasBody(cr.spec) then Gate(Needs(cr.spec, cr.ctx in w.rest), cr.ctx, o.order, w.guest, o.gateFail) else Abort
  }

  /** A reconcile writes a mirror exactly when it tries, its gate passes and the call takes
      effect. */
  lemma CreatesExactly(w: World, ref: Ref, o: Oracle, w': World)
    requires ref in w.guest && w.guest[ref].ctx !in w.rest && w' == ReconcileStep(w, ref, o)
    ensures w'.log != w.log <==> Tries(w, ref, o) && Verdict(w, ref, o).Pass? && (o.call.effect || !o.call.err)
  {
  }

  /** The try changes the label: always for kinds labelled early, after success for the
      others. */
  predicate Relabels(w: World, ref: Ref, o: Oracle)
    requires ref in w.guest
  {
    && w.guest[ref].tag != WithLabel(w.guest[ref]).tag
    && (LabelsEarly(ref.kind) || (Verdict(w, ref, o).Pass? && !o.call.err))
  }

  /** After a try the resource is new again exactly when its state could not be stored,
      neither by the REST client on the way nor by the write-back. */
  lemma TriedOnce(w: World, ref: Ref, o: Oracle, w': World)
    requires Tries(w, ref, o) && w' == ReconcileStep(w, ref, o)
    ensures ref in w'.guest
    ensures w'.guest[ref].phase == Unset <==>
      && !(Verdict(w, ref, o).Pass? && w.guest[ref].ctx in w.rest && o.call.early)
      && (!o.statusOk || (Relabels(w, ref, o) && !o.metaOk))
  {
  }

  /** Still stored and, on the Kubernetes path, the only one under its mirror's name. */
  predicate Alone(w: World, ref: Ref, cr: Cr) {
    && ref in w.guest && w.guest[ref].spec == cr.spec && w.guest[ref].ctx == cr.ctx
    && (cr.ctx !in w.rest ==> forall r :: r in w.guest && r != ref ==> MirrorOf(w.guest[r]) != MirrorOf(cr))
  }

  function MirrorOf(cr: Cr): HostRef {
    HostRefOf(cr.spec, cr.ctx)
  }

  /** Not new any more, and not on the partner. */
  predicate Stuck(w: World, ref: Ref, cr: Cr) {
    && Alone(w, ref, cr) && w.guest[ref].phase != Unset && ref !in w.created
    && (cr.ctx !in w.rest ==> MirrorOf(cr) !in w.host)
  }

  /** A callback that stores the empty state. */
  predicate Empties(step: Step, ref: Ref) {
    step == Callback(ref, Unset)
  }

  lemma BlockedOnce(w: World, ref: Ref, o: Oracle, w': World)
    requires Tries(w, ref, o) && !Verdict(w, ref, o).Pass? && o.metaOk && o.statusOk && w' == ReconcileStep(w, ref, o)
    requires Alone(w, ref, w.guest[ref]) && ref !in w.created
    requires w.guest[ref].ctx !in w.rest ==> MirrorOf(w.guest[ref]) !in w.host
    ensures Stuck(w', ref, w.guest[ref])
  {
    TriedOnce(w, ref, o, w');
  }

  /** A reconcile of another resource leaves this one and its mirror's name alone. */
  lemma StuckElsewhere(w: World, r: Ref, o: Oracle, ref: Ref, cr: Cr)
    requires Stuck(w, ref, cr) && r != ref && Alone(ReconcileStep(w, r, o), ref, cr)
    ensures Stuck(ReconcileStep(w, r, o), ref, cr)
  {
    if o.get && r in w.guest {
      var other := w.guest[r];
      assert cr.ctx !in w.rest ==> MirrorOf(other) != MirrorOf(cr);
      BodyHost(w, r, other, o);
    }
  }

  /** A body touches the mirror of its own resource only. */
  lemma BodyHost(w: World, r: Ref, cr: Cr, o: Oracle)
    ensures forall hr :: hr != MirrorOf(cr) ==>
      (hr in Body(w, r, cr, o).host <==> hr in w.host) &&
      (hr in w.host ==> Body(w, r, cr, o).host[hr] == w.host[hr])
    ensures forall q :: q != r ==> (q in Body(w, r, cr, o).created <==> q in w.created)
  {
  }

  /** The body of a reconcile of a stuck resource creates nothing and leaves a state. */
  lemma StuckBody(w: World, o: Oracle, ref: Ref, cr: Cr, a: Attempt)
    requires Stuck(w, ref, cr) && a == Body(w, ref, w.guest[ref], o)
    ensures a.created == w.created && a.cr.phase != Unset
    ensures cr.ctx !in w.rest ==> MirrorOf(cr) !in a.host
  {
  }

  lemma StuckOwn(w: World, o: Oracle, ref: Ref, cr: Cr)
    requires Stuck(w, ref, cr) && Alone(ReconcileStep(w, ref, o), ref, cr)
    ensures Stuck(ReconcileStep(w, ref, o), ref, cr)
  {
    if o.get {
      StuckBody(w, o, ref, cr, Body(w, ref, w.guest[ref], o));
    }
  }

  lemma StuckNext(w: World, step: Step, w': World, ref: Ref, cr: Cr)
    requires Stuck(w, ref, cr) && w' == Next(w, step) && Alone(w', ref, cr) && !Empties(step, ref)
    ensures Stuck(w', ref, cr)
  {
    match step
    case Reconcile(r, o) =>
      if r == ref {
        StuckOwn(w, o, ref, cr);
      } else {
        StuckElsewhere(w, r, o, ref, cr);
      }
    case _ =>
  }

  /** In every state of a run. */
  ghost predicate StaysAlone(w: World, steps: seq<Step>, ref: Ref, cr: Cr) {
    Alone(Run(w, steps), ref, cr) && (steps != [] ==> StaysAlone(w, steps[..|steps| - 1], ref, cr))
  }

  lemma {:induction false} StuckRun(w: World, steps: seq<Step>, ref: Ref, cr: Cr)
    requires Stuck(w, ref, cr) && StaysAlone(w, steps, ref, cr) && Callback(ref, Unset) !in steps
    ensures Stuck(Run(w, steps), ref, cr)
  {
    if steps != [] {
      var front := steps[..|steps| - 1];
      StuckRun(w, front, ref, cr);
      StuckNext(Run(w, front), steps[|steps| - 1], Run(w, steps), ref, cr);
    }
  }

  /** Creation is not live: a resource whose gate is closed at its first try, and whose state
      is stored then, never comes to the partner, however long the run and whatever becomes
      ready, as long as it stays stored, no callback empties its state and, on the Kubernetes
      path, no other resource has its mirror's name. */
  lemma BlockedForGood(w: World, ref: Ref, o: Oracle, steps: seq<Step>, end: World)
    requires Tries(w, ref, o) && !Verdict(w, ref, o).Pass? && o.metaOk && o.statusOk
    requires Alone(w, ref, w.guest[ref]) && ref !in w.created
    requires w.guest[ref].ctx !in w.rest ==> MirrorOf(w.guest[ref]) !in w.host
    requires StaysAlone(ReconcileStep(w, ref, o), steps, ref, w.guest[ref]) && Callback(ref, Unset) !in steps
    requires end == Run(ReconcileStep(w, ref, o), steps)
    ensures ref !in end.created && (w.guest[ref].ctx !in w.rest ==> MirrorOf(w.guest[ref]) !in end.host)
    ensures forall late :: !Tries(end, ref, late)
  {
    BlockedOnce(w, ref, o, ReconcileStep(w, ref, o));
    StuckRun(ReconcileStep(w, ref, o), steps, ref, w.guest[ref]);
    RestStays(ReconcileStep(w, ref, o), steps);
  }

  lemma {:induction false} RestStays(w: World, steps: seq<Step>)
    ensures Run(w, steps).rest == w.rest
  {
    if steps != [] {
      RestStays(w, steps[..|steps| - 1]);
    }
  }

  // ---------------------------------------------------------------- keeping the mirror

  /** A resource created on a Kubernetes host and not being deleted has a live mirror. */
  predicate MirrorKept(w: World, ref: Ref, cr: Cr) {
    ref in w.created && ref in w.guest && !w.guest[ref].deleting && cr.ctx !in w.rest ==>
      MirrorOf(cr) in w.host && !w.host[MirrorOf(cr)].deleting
  }

  /** A creation that lands on a mirror still being deleted. */
  predicate LandsOnDeleting(w: World, step: Step, ref: Ref, cr: Cr) {
    && step.Reconcile? && step.ref == ref && cr.ctx !in w.rest
    && Tries(w, ref, step.o) && Verdict(w, ref, step.o).Pass? && (step.o.call.effect || !step.o.call.err)
    && MirrorOf(cr) in w.host && w.host[MirrorOf(cr)].deleting
  }

  lemma KeptBody(w: World, o: Oracle, ref: Ref, cr: Cr, a: Attempt)
    requires Alone(w, ref, cr) && cr.ctx !in w.rest && MirrorKept(w, ref, cr)
    requires o.get && !w.guest[ref].deleting && a == Body(w, ref, w.guest[ref], o)
    ensures (ref in a.created ==> MirrorOf(cr) in a.host && !a.host[MirrorOf(cr)].deleting) <==>
            !LandsOnDeleting(w, Reconcile(ref, o), ref, cr)
    ensures LandsOnDeleting(w, Reconcile(ref, o), ref, cr) ==> ref in a.created
  {
  }

  lemma KeptOwn(w: World, o: Oracle, ref: Ref, cr: Cr)
    requires Alone(w, ref, cr) && MirrorKept(w, ref, cr) && Alone(ReconcileStep(w, ref, o), ref, cr)
    ensures MirrorKept(ReconcileStep(w, ref, o), ref, cr) <==> !LandsOnDeleting(w, Reconcile(ref, o), ref, cr)
  {
    if o.get && cr.ctx !in w.rest && !w.guest[ref].deleting {
      KeptBody(w, o, ref, cr, Body(w, ref, w.guest[ref], o));
    }
  }

  lemma KeptElsewhere(w: World, r: Ref, o: Oracle, ref: Ref, cr: Cr)
    requires Alone(w, ref, cr) && MirrorKept(w, ref, cr) && r != ref && Alone(ReconcileStep(w, r, o), ref, cr)
    ensures MirrorKept(ReconcileStep(w, r, o), ref, cr)
  {
    if o.get && r in w.guest {
      assert cr.ctx !in w.rest ==> MirrorOf(w.guest[r]) != MirrorOf(cr);
      BodyHost(w, r, w.guest[r], o);
    }
  }

  /** A step loses the mirror of a created resource exactly when it is such a creation. */
  lemma KeptNext(w: World, step: Step, w': World, ref: Ref, cr: Cr)
    requires Alone(w, ref, cr) && MirrorKept(w, ref, cr) && w' == Next(w, step) && Alone(w', ref, cr)
    ensures MirrorKept(w', ref, cr) <==> !LandsOnDeleting(w, step, ref, cr)
  {
    match step
    case Reconcile(r, o) =>
      if r == ref {
        KeptOwn(w, o, ref, cr);
      } else {
        KeptElsewhere(w, r, o, ref, cr);
      }
    case _ =>
  }

  ghost predicate AlwaysKept(w: World, steps: seq<Step>, ref: Ref, cr: Cr) {
    MirrorKept(Run(w, steps), ref, cr) && (steps != [] ==> AlwaysKept(w, steps[..|steps| - 1], ref, cr))
  }

  ghost predicate NeverLands(w: World, steps: seq<Step>, ref: Ref, cr: Cr) {
    steps != [] ==>
      var front := steps[..|steps| - 1];
      !LandsOnDeleting(Run(w, front), steps[|steps| - 1], ref, cr) && NeverLands(w, front, ref, cr)
  }

  /** The converse of the absence of orphans: over every run in which a resource stays alone
      under its mirror's name, it has its live mirror whenever it is created and not being
      deleted, exactly when no creation of it lands on a mirror still being deleted. */
  lemma {:induction false} CreatedKeepsMirror(w: World, steps: seq<Step>, ref: Ref, cr: Cr)
    requires StaysAlone(w, steps, ref, cr) && MirrorKept(w, ref, cr)
    ensures AlwaysKept(w, steps, ref, cr) <==> NeverLands(w, steps, ref, cr)
  {
    if steps != [] {
      var front := steps[..|steps| - 1];
      CreatedKeepsMirror(w, front, ref, cr);
      if AlwaysKept(w, front, ref, cr) {
        KeptNext(Run(w, front), steps[|steps| - 1], Run(w, steps), ref, cr);
      }
    }
  }
}
