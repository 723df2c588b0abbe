/** Deleting a whole federation: once its guest resources and the federation itself
    are marked deleted and the partner answers, everything drains without deadlock, in
    dependency order, within five fair rounds. */
module Drain {
  import opened Basics
  import opened Naming
  import opened Model
  import opened Protocol
  import opened Safety

  /** The stored resources of a context. */
  function Slice(w: World, ctx: string): set<Ref> {
    set r | r in w.guest && w.guest[r].ctx == ctx
  }

  /** The unique, AVAILABLE guest federation and all its resources are marked deleted
      and hold their finalizers. */
  ghost predicate Draining(w: World, ctx: string) {
    && ctx != "" && WellFormed(w.guest) && Open(w.feds, ctx)
    && (var f := LookupFed(w.feds, ctx).fed; f.guest && f.deleting && f.finalizer)
    && (forall r :: r in Slice(w, ctx) ==> w.guest[r].deleting && w.guest[r].finalizer)
  }

  ghost predicate Drained(w: World, ctx: string) {
    ctx != "" && WellFormed(w.guest) && Slice(w, ctx) == {} && LookupFed(w.feds, ctx).NoFed?
  }

  predicate Blocked(w: World, r: Ref)
    requires r in w.guest
  {
    r.kind != Deployment && HasDependents(w.guest, r.kind, IdOf(w.guest[r].spec), w.guest[r].ctx)
  }

  /** The calls of a reconcile succeed. */
  predicate Works(o: Oracle) {
    o.get && o.listFeds && o.listDependents && !o.call.err && o.policyOk && o.metaOk
  }

  // ---------------------------------------------------------------- one reconcile

  /** A reconcile of a draining resource removes it exactly when nothing names it, and
      otherwise changes nothing and asks to be called again. */
  lemma DrainReconcile(w: World, r: Ref, o: Oracle, ctx: string)
    requires Draining(w, ctx) && r in Slice(w, ctx) && Works(o)
    ensures if Blocked(w, r) then ReconcileStep(w, r, o) == w
            else ReconcileStep(w, r, o).guest == w.guest - {r} && ReconcileStep(w, r, o).feds == w.feds
    ensures ReconcileReply(w, r, o) == Reply(if Blocked(w, r) then SOON else 0, false, false)
  {
    assert w.guest[r := w.guest[r]] == w.guest;
  }

  lemma {:induction false} SomeUnblocked(w: World, r: Ref, ctx: string) returns (u: Ref)
    requires Draining(w, ctx) && r in Slice(w, ctx)
    ensures u in Slice(w, ctx) && !Blocked(w, u)
    decreases Layer(r.kind)
  {
    if Blocked(w, r) {
      var d :| d in w.guest && w.guest[d].ctx == ctx && Mentions(w.guest[d].spec, Need(r.kind, IdOf(w.guest[r].spec)));
      assert CrWellFormed(d, w.guest[d]);
      NeedsPointUp(w.guest[d].spec, Need(r.kind, IdOf(w.guest[r].spec)));
      u := SomeUnblocked(w, d, ctx);
    } else {
      u := r;
    }
  }

  /** One unblocked resource is gone, and nothing else. */
  predicate Goes(w: World, w': World, u: Ref, ctx: string) {
    && u in Slice(w, ctx) && !Blocked(w, u)
    && Slice(w', ctx) == Slice(w, ctx) - {u} && |Slice(w', ctx)| == |Slice(w, ctx)| - 1
  }

  /** No deadlock: while resources are left, one of them goes at its next reconcile, and
      the count of those holding finalizers drops. */
  lemma DrainProgress(w: World, ctx: string, o: Oracle)
    requires Draining(w, ctx) && Slice(w, ctx) != {} && Works(o)
    ensures exists u :: Goes(w, ReconcileStep(w, u, o), u, ctx)
  {
    var r :| r in Slice(w, ctx);
    var u := SomeUnblocked(w, r, ctx);
    DrainReconcile(w, u, o, ctx);
    assert Slice(ReconcileStep(w, u, o), ctx) == Slice(w, ctx) - {u};
    assert Goes(w, ReconcileStep(w, u, o), u, ctx);
  }

  // ---------------------------------------------------------------- schedules

  predicate VisitsFed(w: World, step: Step, ctx: string) {
    step.ReconcileFederation? && step.index < |w.feds| && w.feds[step.index].ctx == ctx
  }

  /** While a context drains anything may happen, except that nothing new is created in
      it, its federation is not changed from outside, and the calls of its own
      reconciles succeed. */
  predicate DrainStep(w: World, step: Step, ctx: string) {
    match step
    case UserCreate(ref, spec, c) => c != ctx
    case Reconcile(ref, o) => ref in Slice(w, ctx) ==> Works(o)
    case SetFederations(feds) => LookupFed(feds, ctx) == LookupFed(w.feds, ctx)
    case ReconcileFederation(index, o) => VisitsFed(w, step, ctx) ==> Works(o)
    case _ => true
  }

  lemma {:induction false} FedsOfRemove(feds: seq<Fed>, index: nat, ctx: string)
    requires index < |feds|
    ensures var rest := feds[..index] + feds[index + 1..];
            if feds[index].ctx == ctx then |FedsOf(feds, ctx)| == |FedsOf(rest, ctx)| + 1
            else FedsOf(feds, ctx) == FedsOf(rest, ctx)
  {
    var rest := feds[..index] + feds[index + 1..];
    if index == 0 {
      assert rest == feds[1..];
    } else {
      assert rest[1..] == feds[1..][..index - 1] + feds[1..][index..];
      FedsOfRemove(feds[1..], index - 1, ctx);
    }
  }

  lemma {:induction false} FedsOfContains(feds: seq<Fed>, index: nat, ctx: string)
    requires index < |feds| && feds[index].ctx == ctx
    ensures feds[index] in FedsOf(feds, ctx)
  {
    if index > 0 {
      FedsOfContains(feds[1..], index - 1, ctx);
    }
  }

  lemma DrainFederation(w: World, index: nat, o: Oracle, ctx: string)
    requires Draining(w, ctx) && index < |w.feds| && w.feds[index].ctx == ctx && Works(o)
    ensures var w' := FederationStep(w, index, o);
            if Slice(w, ctx) == {} then Drained(w', ctx) else w' == w
    ensures w.feds[index].deleting && w.feds[index].finalizer
    ensures FederationReply(w, index, o) == Reply(if Slice(w, ctx) == {} then 0 else SOON, false, false)
  {
    FedsOfRemove(w.feds, index, ctx);
    FedsOfContains(w.feds, index, ctx);
    var f := w.feds[index];
    assert f == LookupFed(w.feds, ctx).fed;
    if Slice(w, ctx) != {} {
      var r :| r in Slice(w, ctx);
      assert FedHasDependents(w.guest, ctx);
    } else {
      assert forall r :: r in w.guest && w.guest[r].ctx == ctx ==> r in Slice(w, ctx);
      var w' := FederationStep(w, index, o);
      assert Slice(w', ctx) == Slice(w, ctx);
    }
  }

  /** A step of the drain removes at most one resource, only an unblocked one; the
      federation goes only after the last resource. */
  ghost predicate Drains(w: World, w': World, ctx: string) {
    && (Draining(w', ctx) || (Slice(w, ctx) == {} && Drained(w', ctx)))
    && (Slice(w', ctx) == Slice(w, ctx) ||
        exists r :: r in Slice(w, ctx) && !Blocked(w, r) && Slice(w', ctx) == Slice(w, ctx) - {r})
  }

  lemma DrainElsewhere(w: World, ref: Ref, o: Oracle, ctx: string)
    requires ref in w.guest ==> w.guest[ref].ctx != ctx
    ensures var w' := ReconcileStep(w, ref, o);
            w'.feds == w.feds &&
            forall r :: (r in w.guest && w.guest[r].ctx == ctx) || (r in w'.guest && w'.guest[r].ctx == ctx) ==>
              r in w.guest && r in w'.guest && w.guest[r] == w'.guest[r]
  {
    if o.get && ref in w.guest {
      BodyContext(w, ref, w.guest[ref], o);
    }
  }

  lemma BodyContext(w: World, ref: Ref, cr: Cr, o: Oracle)
    ensures Body(w, ref, cr, o).cr.ctx == cr.ctx && Body(w, ref, cr, o).cr.spec == cr.spec
  {
  }

  /** Steps that keep the marks of a context keep it draining. */
  lemma SameSlice(w: World, w': World, ctx: string)
    requires Draining(w, ctx) && WellFormed(w'.guest) && LookupFed(w'.feds, ctx) == LookupFed(w.feds, ctx)
    requires forall r :: r in w.guest && w.guest[r].ctx == ctx ==>
               (r in w'.guest && w'.guest[r].ctx == ctx && w'.guest[r].deleting && w'.guest[r].finalizer)
    requires forall r :: r in w'.guest && w'.guest[r].ctx == ctx ==> r in w.guest && w.guest[r].ctx == ctx
    ensures Drains(w, w', ctx) && Slice(w', ctx) == Slice(w, ctx)
  {
    assert forall r :: r in w.guest && w.guest[r].ctx == ctx ==> r in Slice(w, ctx);
    assert Slice(w', ctx) == Slice(w, ctx);
  }

  lemma DrainOwn(w: World, ref: Ref, o: Oracle, ctx: string)
    requires Inv(w) && Draining(w, ctx) && ref in Slice(w, ctx) && Works(o)
    ensures Drains(w, ReconcileStep(w, ref, o), ctx)
  {
    var w' := ReconcileStep(w, ref, o);
    DrainReconcile(w, ref, o, ctx);
    ReconcileKeeps(w, ref, o);
    if !Blocked(w, ref) {
      assert Slice(w', ctx) == Slice(w, ctx) - {ref};
      assert forall r :: r in Slice(w', ctx) ==> r in Slice(w, ctx) && w'.guest[r] == w.guest[r];
    }
  }

  lemma DrainCreate(w: World, step: Step, ctx: string)
    requires Inv(w) && Draining(w, ctx) && DrainStep(w, step, ctx) && step.UserCreate?
    ensures Drains(w, Next(w, step), ctx)
  {
    NextKeeps(w, step);
    SameSlice(w, Next(w, step), ctx);
  }

  lemma DrainDelete(w: World, ref: Ref, ctx: string)
    requires Inv(w) && Draining(w, ctx)
    ensures Drains(w, Next(w, UserDelete(ref)), ctx)
  {
    NextKeeps(w, UserDelete(ref));
    assert ref in w.guest && w.guest[ref].ctx == ctx ==> ref in Slice(w, ctx);
    assert forall r :: r in w.guest && w.guest[r].ctx == ctx ==> r in Slice(w, ctx);
    SameSlice(w, Next(w, UserDelete(ref)), ctx);
  }

  lemma DrainCallback(w: World, ref: Ref, phase: Phase, ctx: string)
    requires Inv(w) && Draining(w, ctx)
    ensures Drains(w, Next(w, Callback(ref, phase)), ctx)
  {
    NextKeeps(w, Callback(ref, phase));
    assert forall r :: r in w.guest && w.guest[r].ctx == ctx ==> r in Slice(w, ctx);
    SameSlice(w, Next(w, Callback(ref, phase)), ctx);
  }

  /** A step that touches neither guest resources nor, for this context, federations. */
  lemma DrainAside(w: World, w': World, ctx: string)
    requires Draining(w, ctx) && w'.guest == w.guest && LookupFed(w'.feds, ctx) == LookupFed(w.feds, ctx)
    ensures Drains(w, w', ctx)
  {
    assert forall r :: r in w.guest && w.guest[r].ctx == ctx ==> r in Slice(w, ctx);
    SameSlice(w, w', ctx);
  }

  lemma DrainReconciles(w: World, ref: Ref, o: Oracle, ctx: string)
    requires Inv(w) && Draining(w, ctx) && DrainStep(w, Reconcile(ref, o), ctx)
    ensures Drains(w, ReconcileStep(w, ref, o), ctx)
  {
    if ref in Slice(w, ctx) {
      DrainOwn(w, ref, o, ctx);
    } else {
      ReconcileStepKeeps(w, ref, o);
      DrainElsewhere(w, ref, o, ctx);
      assert forall r :: r in w.guest && w.guest[r].ctx == ctx ==> r in Slice(w, ctx);
      SameSlice(w, ReconcileStep(w, ref, o), ctx);
    }
  }

  lemma ReconcileStepKeeps(w: World, ref: Ref, o: Oracle)
    requires Inv(w)
    ensures Inv(ReconcileStep(w, ref, o))
  {
    NextKeeps(w, Reconcile(ref, o));
    assert Next(w, Reconcile(ref, o)) == ReconcileStep(w, ref, o);
  }

  lemma DrainFeds(w: World, index: nat, o: Oracle, ctx: string)
    requires Draining(w, ctx) && DrainStep(w, ReconcileFederation(index, o), ctx)
    ensures Drains(w, FederationStep(w, index, o), ctx)
  {
    if VisitsFed(w, ReconcileFederation(index, o), ctx) {
      DrainFederation(w, index, o, ctx);
    } else {
      if index < |w.feds| {
        FedsOfRemove(w.feds, index, ctx);
      }
      DrainAside(w, FederationStep(w, index, o), ctx);
    }
  }

  lemma DrainNext(w: World, step: Step, w': World, ctx: string)
    requires Inv(w) && Draining(w, ctx) && DrainStep(w, step, ctx) && w' == Next(w, step)
    ensures Drains(w, w', ctx)
  {
    match step
    case UserCreate(ref, spec, c) => DrainCreate(w, step, ctx);
    case UserDelete(ref) => DrainDelete(w, ref, ctx);
    case Callback(ref, phase) => DrainCallback(w, ref, phase, ctx);
    case Reconcile(ref, o) => DrainReconciles(w, ref, o, ctx);
    case ReconcileFederation(index, o) => DrainFeds(w, index, o, ctx);
    case _ => DrainAside(w, w', ctx);
  }

  /** Nothing of a drained context comes back. */
  lemma DrainedSlice(w: World, w': World, ctx: string)
    requires Drained(w, ctx) && WellFormed(w'.guest) && LookupFed(w'.feds, ctx).NoFed?
    requires forall r :: r in w'.guest && w'.guest[r].ctx == ctx ==> r in w.guest && w.guest[r].ctx == ctx
    ensures Drained(w', ctx)
  {
    assert Slice(w', ctx) <= Slice(w, ctx);
  }

  lemma DrainedFeds(w: World, index: nat, o: Oracle, ctx: string)
    requires Drained(w, ctx)
    ensures Drained(FederationStep(w, index, o), ctx)
  {
    if index < |w.feds| {
      FedsOfRemove(w.feds, index, ctx);
    }
    DrainedSlice(w, FederationStep(w, index, o), ctx);
  }

  lemma DrainedUser(w: World, step: Step, ctx: string)
    requires Inv(w) && Drained(w, ctx) && DrainStep(w, step, ctx)
    requires step.UserCreate? || step.UserDelete? || step.Callback?
    ensures Drained(Next(w, step), ctx)
  {
    NextKeeps(w, step);
    DrainedSlice(w, Next(w, step), ctx);
  }

  lemma DrainedNext(w: World, step: Step, ctx: string)
    requires Inv(w) && Drained(w, ctx) && DrainStep(w, step, ctx)
    ensures Drained(Next(w, step), ctx)
  {
    match step
    case Reconcile(ref, o) => DrainedReconcile(w, ref, o, ctx);
    case ReconcileFederation(index, o) => DrainedFeds(w, index, o, ctx);
    case UserCreate(ref, spec, c) => DrainedUser(w, step, ctx);
    case UserDelete(ref) => DrainedUser(w, step, ctx);
    case Callback(ref, phase) => DrainedUser(w, step, ctx);
    case _ => DrainedSlice(w, Next(w, step), ctx);
  }

  lemma DrainedReconcile(w: World, ref: Ref, o: Oracle, ctx: string)
    requires Inv(w) && Drained(w, ctx)
    ensures Drained(ReconcileStep(w, ref, o), ctx)
  {
    ReconcileStepKeeps(w, ref, o);
    DrainElsewhere(w, ref, o, ctx) by { assert ref in w.guest && w.guest[ref].ctx == ctx ==> ref in Slice(w, ctx); }
    DrainedSlice(w, ReconcileStep(w, ref, o), ctx);
  }

  // ---------------------------------------------------------------- rounds

  ghost predicate DrainRun(w: World, steps: seq<Step>, ctx: string) {
    forall i :: 0 <= i < |steps| ==> DrainStep(Run(w, steps[..i]), steps[i], ctx)
  }

  predicate Visits(step: Step, r: Ref) {
    step.Reconcile? && step.ref == r
  }

  /** At this position the federation is reconciled, or is gone. */
  ghost predicate FedTurn(w: World, steps: seq<Step>, i: nat, ctx: string)
    requires i < |steps|
  {
    VisitsFed(Run(w, steps[..i]), steps[i], ctx) || Drained(Run(w, steps[..i]), ctx)
  }

  /** A fair round reconciles every resource of the context, and its federation, at
      least once, in any order and with anything else in between. */
  ghost predicate Round(w: World, steps: seq<Step>, ctx: string) {
    && DrainRun(w, steps, ctx)
    && (forall r :: r in Slice(w, ctx) ==> exists i :: 0 <= i < |steps| && Visits(steps[i], r))
    && (Draining(w, ctx) ==> exists i :: 0 <= i < |steps| && FedTurn(w, steps, i, ctx))
  }

  ghost predicate InDrain(w: World, ctx: string) {
    Inv(w) && (Draining(w, ctx) || Drained(w, ctx))
  }

  /** Only resources of this layer or later are left. */
  predicate ClearedBelow(w: World, ctx: string, layer: nat) {
    forall r :: r in Slice(w, ctx) ==> Layer(r.kind) >= layer
  }

  lemma {:induction false} RunSplit(w: World, a: seq<Step>, b: seq<Step>)
    ensures Run(w, a + b) == Run(Run(w, a), b)
  {
    if b == [] {
      assert a + b == a;
    } else {
      var front := b[..|b| - 1];
      assert (a + b)[..|a + b| - 1] == a + front;
      RunSplit(w, a, front);
    }
  }

  lemma {:induction false} DrainShrinks(w: World, steps: seq<Step>, ctx: string)
    requires InDrain(w, ctx) && DrainRun(w, steps, ctx)
    ensures InDrain(Run(w, steps), ctx) && Slice(Run(w, steps), ctx) <= Slice(w, ctx)
    ensures Drained(w, ctx) ==> Drained(Run(w, steps), ctx)
  {
    if steps != [] {
      var front := steps[..|steps| - 1];
      forall i | 0 <= i < |front| ensures DrainStep(Run(w, front[..i]), front[i], ctx) {
        assert front[..i] == steps[..i];
      }
      DrainShrinks(w, front, ctx);
      var mid, last := Run(w, front), steps[|steps| - 1];
      assert DrainStep(mid, last, ctx);
      NextKeeps(mid, last);
      if Draining(mid, ctx) {
        DrainNext(mid, last, Next(mid, last), ctx);
      } else {
        DrainedNext(mid, last, ctx);
      }
    }
  }

  lemma DrainRunSplit(w: World, steps: seq<Step>, i: nat, ctx: string)
    requires DrainRun(w, steps, ctx) && i <= |steps|
    ensures DrainRun(w, steps[..i], ctx) && DrainRun(Run(w, steps[..i]), steps[i..], ctx)
  {
    var a, b := steps[..i], steps[i..];
    forall j | 0 <= j < |a| ensures DrainStep(Run(w, a[..j]), a[j], ctx) {
      assert a[..j] == steps[..j];
    }
    forall j | 0 <= j < |b| ensures DrainStep(Run(Run(w, a), b[..j]), b[j], ctx) {
      assert steps[..i + j] == a + b[..j];
      RunSplit(w, a, b[..j]);
      assert b[j] == steps[i + j];
    }
  }

  /** Split a drain at a position. */
  lemma DrainSplit(w: World, steps: seq<Step>, i: nat, ctx: string)
    requires InDrain(w, ctx) && DrainRun(w, steps, ctx) && i <= |steps|
    ensures InDrain(Run(w, steps[..i]), ctx) && Slice(Run(w, steps[..i]), ctx) <= Slice(w, ctx)
    ensures Slice(Run(w, steps), ctx) <= Slice(Run(w, steps[..i]), ctx)
    ensures Drained(Run(w, steps[..i]), ctx) ==> Drained(Run(w, steps), ctx)
  {
    var a, b := steps[..i], steps[i..];
    assert steps == a + b;
    RunSplit(w, a, b);
    DrainRunSplit(w, steps, i, ctx);
    DrainShrinks(w, a, ctx);
    DrainShrinks(Run(w, a), b, ctx);
  }

  /** A resource left at the end was there, and draining, before and after every step. */
  lemma StillThere(w: World, steps: seq<Step>, i: nat, r: Ref, ctx: string)
    requires InDrain(w, ctx) && DrainRun(w, steps, ctx) && i < |steps| && r in Slice(Run(w, steps), ctx)
    ensures var mid := Run(w, steps[..i]);
      && Draining(mid, ctx) && DrainStep(mid, steps[i], ctx) && Slice(mid, ctx) <= Slice(w, ctx)
      && r in Slice(mid, ctx) && r in Slice(Next(mid, steps[i]), ctx)
  {
    DrainSplit(w, steps, i, ctx);
    DrainSplit(w, steps, i + 1, ctx);
    assert steps[..i + 1][..i] == steps[..i];
    assert Run(w, steps[..i + 1]) == Next(Run(w, steps[..i]), steps[i]);
  }

  /** A visited resource of the lowest layer goes. */
  lemma VisitedGoes(w: World, steps: seq<Step>, i: nat, r: Ref, ctx: string, layer: nat)
    requires InDrain(w, ctx) && DrainRun(w, steps, ctx) && ClearedBelow(w, ctx, layer)
    requires i < |steps| && Visits(steps[i], r) && r in Slice(Run(w, steps), ctx)
    ensures Layer(r.kind) != layer
  {
    var mid := Run(w, steps[..i]);
    StillThere(w, steps, i, r, ctx);
    DrainReconcile(mid, r, steps[i].o, ctx);
    if Layer(r.kind) == layer {
      NothingBlocks(mid, r, ctx, layer);
    }
  }

  /** One round clears one layer. */
  lemma RoundClears(w: World, steps: seq<Step>, w': World, ctx: string, layer: nat)
    requires InDrain(w, ctx) && Round(w, steps, ctx) && ClearedBelow(w, ctx, layer) && w' == Run(w, steps)
    ensures InDrain(w', ctx) && ClearedBelow(w', ctx, layer + 1)
  {
    DrainShrinks(w, steps, ctx);
    forall r | r in Slice(w', ctx) ensures Layer(r.kind) >= layer + 1 {
      assert r in Slice(w, ctx);
      var i :| 0 <= i < |steps| && Visits(steps[i], r);
      VisitedGoes(w, steps, i, r, ctx, layer);
    }
  }

  /** In the lowest layer left nothing is blocked. */
  lemma NothingBlocks(w: World, r: Ref, ctx: string, layer: nat)
    requires Draining(w, ctx) && ClearedBelow(w, ctx, layer) && r in Slice(w, ctx) && Layer(r.kind) == layer
    ensures !Blocked(w, r)
  {
    var n := Need(r.kind, IdOf(w.guest[r].spec));
    forall d | d in w.guest && w.guest[d].ctx == ctx ensures !Mentions(w.guest[d].spec, n) {
      assert d in Slice(w, ctx) && CrWellFormed(d, w.guest[d]);
      if Mentions(w.guest[d].spec, n) {
        NeedsPointUp(w.guest[d].spec, n);
      }
    }
  }

  function RunRounds(w: World, rounds: seq<seq<Step>>): World {
    if rounds == [] then w else Run(RunRounds(w, rounds[..|rounds| - 1]), rounds[|rounds| - 1])
  }

  ghost predicate FairRounds(w: World, rounds: seq<seq<Step>>, ctx: string) {
    forall k :: 0 <= k < |rounds| ==> Round(RunRounds(w, rounds[..k]), rounds[k], ctx)
  }

  /** After k rounds only resources of layer k or later are left. */
  lemma {:induction false} RoundsClear(w: World, rounds: seq<seq<Step>>, ctx: string, k: nat)
    requires InDrain(w, ctx) && FairRounds(w, rounds, ctx) && k <= |rounds|
    ensures InDrain(RunRounds(w, rounds[..k]), ctx) && ClearedBelow(RunRounds(w, rounds[..k]), ctx, k)
  {
    if k > 0 {
      RoundsClear(w, rounds, ctx, k - 1);
      assert rounds[..k][..k - 1] == rounds[..k - 1];
      RoundClears(RunRounds(w, rounds[..k - 1]), rounds[k - 1], RunRounds(w, rounds[..k]), ctx, k - 1);
    }
  }

  lemma LayerKinds(w: World, ctx: string, k: nat)
    requires ClearedBelow(w, ctx, k)
    ensures k >= 1 ==> forall r :: r in Slice(w, ctx) ==> r.kind != Deployment
    ensures k >= 2 ==> forall r :: r in Slice(w, ctx) ==> r.kind == Artefact || r.kind == Image
    ensures k >= 3 ==> forall r :: r in Slice(w, ctx) ==> r.kind == Image
    ensures k >= 4 ==> Slice(w, ctx) == {}
  {
    forall r | r in Slice(w, ctx) ensures k <= Layer(r.kind) <= 3 {
    }
  }

  /** Drain: five fair rounds remove deployments, then onboardings and zones, then
      artefacts, then images, then the federation. */
  lemma FiveRoundsDrain(w: World, rounds: seq<seq<Step>>, ctx: string)
    requires Inv(w) && Draining(w, ctx) && FairRounds(w, rounds, ctx) && |rounds| == 5
    ensures Drained(RunRounds(w, rounds), ctx)
    ensures forall r :: r in Slice(RunRounds(w, rounds[..1]), ctx) ==> r.kind != Deployment
    ensures forall r :: r in Slice(RunRounds(w, rounds[..2]), ctx) ==> r.kind == Artefact || r.kind == Image
    ensures forall r :: r in Slice(RunRounds(w, rounds[..3]), ctx) ==> r.kind == Image
    ensures Slice(RunRounds(w, rounds[..4]), ctx) == {}
  {
    forall k | 1 <= k <= 4
      ensures InDrain(RunRounds(w, rounds[..k]), ctx) && ClearedBelow(RunRounds(w, rounds[..k]), ctx, k)
    {
      RoundsClear(w, rounds, ctx, k);
    }
    LayerKinds(RunRounds(w, rounds[..1]), ctx, 1);
    LayerKinds(RunRounds(w, rounds[..2]), ctx, 2);
    LayerKinds(RunRounds(w, rounds[..3]), ctx, 3);
    LastRound(RunRounds(w, rounds[..4]), rounds[4], ctx);
  }

  lemma LastRound(w: World, steps: seq<Step>, ctx: string)
    requires InDrain(w, ctx) && Round(w, steps, ctx) && ClearedBelow(w, ctx, 4)
    ensures Slice(w, ctx) == {} && Drained(Run(w, steps), ctx)
  {
    LayerKinds(w, ctx, 4);
    if Draining(w, ctx) {
      var i :| 0 <= i < |steps| && FedTurn(w, steps, i, ctx);
      FedGoes(w, steps, i, ctx);
    } else {
      DrainShrinks(w, steps, ctx);
    }
  }

  lemma FedGoes(w: World, steps: seq<Step>, i: nat, ctx: string)
    requires InDrain(w, ctx) && DrainRun(w, steps, ctx) && Slice(w, ctx) == {}
    requires i < |steps| && FedTurn(w, steps, i, ctx)
    ensures Drained(Run(w, steps), ctx)
  {
    DrainSplit(w, steps, i, ctx);
    var mid := Run(w, steps[..i]);
    if !Drained(mid, ctx) {
      assert DrainStep(mid, steps[i], ctx);
      DrainFederation(mid, steps[i].index, steps[i].o, ctx);
      assert steps[..i + 1][..i] == steps[..i];
      assert Run(w, steps[..i + 1]) == Next(mid, steps[i]);
      DrainSplit(w, steps, i + 1, ctx);
    }
  }
}
