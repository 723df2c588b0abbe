/** Invariants of every run of the protocol: reference closure, no orphan mirrors,
    the causal chain of creations, and the freeze. */
module Safety {
  import opened Basics
  import opened Naming
  import opened Model
  import opened Protocol

  // ---------------------------------------------------------------- the invariant

  /** Labels are resource ids, sit on resources that hold their finalizer, and belong
      to a generated context id. */
  ghost predicate WellFormed(guest: map<Ref, Cr>) {
    forall r :: r in guest ==> CrWellFormed(r, guest[r])
  }

  ghost predicate CrWellFormed(r: Ref, cr: Cr) {
    && KindOf(cr.spec) == r.kind
    && (cr.deleting ==> cr.finalizer)
    && (cr.tag.Some? ==> cr.tag.value == KeyOf(cr.spec, cr.ctx) && cr.finalizer && |cr.ctx| == CONTEXT_ID_LENGTH)
  }

  /** A stored resource that holds its finalizer answers this need. */
  ghost predicate Present(guest: map<Ref, Cr>, n: Need, ctx: string) {
    exists r :: r in guest && Provides(r, guest[r], n, ctx) && guest[r].finalizer
  }

  ghost predicate NeedsPresent(guest: map<Ref, Cr>, spec: Spec, ctx: string, rest: bool) {
    forall n :: n in Needs(spec, rest) ==> Present(guest, n, ctx)
  }

  /** Everything a resource created on the partner names is still stored. */
  ghost predicate Closed(w: World) {
    forall r :: r in w.created ==>
      r in w.guest && w.guest[r].finalizer &&
      NeedsPresent(w.guest, w.guest[r].spec, w.guest[r].ctx, w.guest[r].ctx in w.rest)
  }

  predicate Owns(cr: Cr, m: Mirror) {
    cr.finalizer && cr.spec == m.spec && cr.ctx == m.ctx
  }

  /** Some created guest resource with this content holds its finalizer. */
  ghost predicate Owned(w: World, m: Mirror) {
    exists r :: r in w.created && r in w.guest && Owns(w.guest[r], m)
  }

  /** Mirrors are on the Kubernetes path, under their own name, and have an owner
      unless they are being deleted. */
  ghost predicate NoOrphan(w: World) {
    forall hr :: hr in w.host ==>
      var m := w.host[hr];
      && hr == HostRefOf(m.spec, m.ctx) && |m.ctx| == CONTEXT_ID_LENGTH && m.ctx !in w.rest
      && (!m.deleting ==> Owned(w, m))
  }

  ghost predicate Occurs(log: seq<Event>, before: nat, e: Event) {
    exists j :: 0 <= j < before && j < |log| && log[j] == e
  }

  ghost predicate WasApplied(log: seq<Event>, before: nat, hr: HostRef) {
    exists j :: 0 <= j < before && j < |log| && log[j].Applied? && log[j].hr == hr
  }

  /** A creation follows the wanted state of each dependency on the host, and a host
      state follows a creation. */
  ghost predicate Justified(log: seq<Event>, i: nat)
    requires i < |log|
  {
    match log[i]
    case Applied(hr, spec, ctx) =>
      hr == HostRefOf(spec, ctx) && |ctx| == CONTEXT_ID_LENGTH && forall n :: n in Needs(spec, false) ==>
        Occurs(log, i, HostState(HostRef(n.kind, ScopedKey(n.id, ctx)), Wanted(n.kind)))
    case HostState(hr, phase) => WasApplied(log, i, hr)
  }

  ghost predicate Causal(log: seq<Event>) {
    forall i :: 0 <= i < |log| ==> Justified(log, i)
  }

  /** The host's states are in the log. */
  ghost predicate HostLogged(w: World) {
    forall hr :: hr in w.host ==>
      WasApplied(w.log, |w.log|, hr) &&
      (w.host[hr].phase != Unset ==> Occurs(w.log, |w.log|, HostState(hr, w.host[hr].phase)))
  }

  /** A state of the guest that its own reconciler did not make was held by the host. */
  ghost predicate PhaseBacked(log: seq<Event>, cr: Cr) {
    cr.phase !in {Unset, Initial(KindOf(cr.spec)), Failed} ==>
      Occurs(log, |log|, HostState(HostRefOf(cr.spec, cr.ctx), cr.phase))
  }

  ghost predicate GuestBacked(w: World) {
    forall r :: r in w.guest && w.guest[r].ctx !in w.rest ==> PhaseBacked(w.log, w.guest[r])
  }

  ghost predicate Inv(w: World) {
    && ValidFeds(w.feds)
    && WellFormed(w.guest)
    && Closed(w)
    && NoOrphan(w)
    && Causal(w.log)
    && HostLogged(w)
    && GuestBacked(w)
  }

  // ---------------------------------------------------------------- facts about the parts

  lemma {:induction false} FedsOfMembers(feds: seq<Fed>, ctx: string)
    ensures forall f :: f in FedsOf(feds, ctx) ==> f in feds && f.ctx == ctx
  {
    if feds != [] {
      FedsOfMembers(feds[1..], ctx);
    }
  }

  lemma OpenHasContextId(feds: seq<Fed>, ctx: string)
    requires ValidFeds(feds) && Open(feds, ctx)
    ensures |ctx| == CONTEXT_ID_LENGTH
  {
    FedsOfMembers(feds, ctx);
    assert FedsOf(feds, ctx)[0] in FedsOf(feds, ctx);
  }

  lemma {:induction false} LabelledMembers(order: seq<Ref>, guest: map<Ref, Cr>, kind: Kind, key: string)
    ensures forall r :: r in Labelled(order, guest, kind, key) ==>
      r in guest && r.kind == kind && guest[r].tag == Some(key)
  {
    if order != [] {
      LabelledMembers(order[1..], guest, kind, key);
    }
  }

  lemma NeedKinds(spec: Spec, rest: bool, n: Need)
    requires n in Needs(spec, rest)
    ensures n.kind != Deployment
  {
    NeedsPointUp(spec, n);
  }

  /** A passed gate found, for each need, a stored labelled resource in the wanted
      state. */
  lemma {:induction false} GatePassed(needs: seq<Need>, ctx: string, order: seq<Ref>, guest: map<Ref, Cr>,
                                      fail: Option<nat>, n: Need)
    requires Gate(needs, ctx, order, guest, fail) == Pass
    requires n in needs
    ensures exists r :: r in guest && r.kind == n.kind && guest[r].tag == Some(ScopedKey(n.id, ctx)) &&
                        guest[r].phase == Wanted(n.kind)
  {
    if needs[0] == n {
      LabelledMembers(order, guest, n.kind, ScopedKey(n.id, ctx));
      var found := Labelled(order, guest, n.kind, ScopedKey(n.id, ctx));
      assert found[0] in found;
    } else {
      GatePassed(needs[1..], ctx, order, guest, if fail.Some? then Some(fail.value - 1) else None, n);
    }
  }

  /** A label found under a need's key belongs to a resource that provides the need. */
  lemma LabelProvides(guest: map<Ref, Cr>, r: Ref, n: Need, ctx: string)
    requires WellFormed(guest) && r in guest && |ctx| == CONTEXT_ID_LENGTH
    requires r.kind == n.kind && n.kind != Deployment && guest[r].tag == Some(ScopedKey(n.id, ctx))
    ensures Provides(r, guest[r], n, ctx) && guest[r].finalizer
  {
    assert CrWellFormed(r, guest[r]);
    ScopedKeyInjective(IdOf(guest[r].spec), guest[r].ctx, n.id, ctx);
  }

  lemma OccursLater(log: seq<Event>, more: seq<Event>, before: nat, e: Event)
    requires Occurs(log, before, e)
    ensures Occurs(log + more, before, e)
  {
    var j :| 0 <= j < before && j < |log| && log[j] == e;
    assert (log + more)[j] == e;
  }

  lemma WasAppliedLater(log: seq<Event>, more: seq<Event>, before: nat, hr: HostRef)
    requires WasApplied(log, before, hr)
    ensures WasApplied(log + more, before, hr)
  {
    var j :| 0 <= j < before && j < |log| && log[j].Applied? && log[j].hr == hr;
    assert (log + more)[j] == log[j];
  }

  /** Appending one justified event keeps the history causal. */
  lemma CausalAppend(log: seq<Event>, e: Event)
    requires Causal(log)
    requires Justified(log + [e], |log|)
    ensures Causal(log + [e])
  {
    forall i | 0 <= i < |log + [e]| ensures Justified(log + [e], i) {
      if i < |log| {
        assert (log + [e])[i] == log[i] && Justified(log, i);
        match log[i]
        case Applied(hr, spec, ctx) =>
          forall n | n in Needs(spec, false)
            ensures Occurs(log + [e], i, HostState(HostRef(n.kind, ScopedKey(n.id, ctx)), Wanted(n.kind)))
          {
            OccursLater(log, [e], i, HostState(HostRef(n.kind, ScopedKey(n.id, ctx)), Wanted(n.kind)));
          }
        case HostState(hr, phase) => WasAppliedLater(log, [e], i, hr);
      }
    }
  }

  lemma OccursEnd(log: seq<Event>, more: seq<Event>, e: Event)
    requires Occurs(log, |log|, e) || e in more
    ensures Occurs(log + more, |log + more|, e)
  {
    if Occurs(log, |log|, e) {
      OccursLater(log, more, |log|, e);
    } else {
      var j :| 0 <= j < |more| && more[j] == e;
      assert (log + more)[|log| + j] == e;
    }
  }

  /** Logging more keeps what the log backs. */
  lemma BackedLater(w: World, log: seq<Event>, e: Event)
    requires log == w.log + [e]
    requires HostLogged(w) && GuestBacked(w)
    ensures HostLogged(w.(log := log)) && GuestBacked(w.(log := log))
  {
    forall hr | hr in w.host
      ensures WasApplied(log, |log|, hr) &&
              (w.host[hr].phase != Unset ==> Occurs(log, |log|, HostState(hr, w.host[hr].phase)))
    {
      WasAppliedLater(w.log, [e], |w.log|, hr);
      if w.host[hr].phase != Unset {
        OccursEnd(w.log, [e], HostState(hr, w.host[hr].phase));
      }
    }
    forall r | r in w.guest && w.guest[r].ctx !in w.rest ensures PhaseBacked(log, w.guest[r]) {
      var cr := w.guest[r];
      assert PhaseBacked(w.log, cr);
      if cr.phase !in {Unset, Initial(KindOf(cr.spec)), Failed} {
        OccursEnd(w.log, [e], HostState(HostRefOf(cr.spec, cr.ctx), cr.phase));
      }
    }
  }

  // ---------------------------------------------------------------- one reconcile

  /** The world after the effects of a body, before the write-back. */
  function Effects(w: World, a: Attempt): World {
    w.(host := a.host, created := a.created, log := a.log)
  }

  /** The resource may lose its finalizer: nothing names it and no live mirror is left. */
  ghost predicate Releasable(w: World, ref: Ref, cr: Cr, host: map<HostRef, Mirror>) {
    && cr.deleting
    && (ref.kind == Deployment || !HasDependents(w.guest, ref.kind, IdOf(cr.spec), cr.ctx))
    && (cr.ctx !in w.rest && HostRefOf(cr.spec, cr.ctx) in host ==> host[HostRefOf(cr.spec, cr.ctx)].deleting)
  }

  /** What every body of a reconcile guarantees to the write-back. */
  ghost predicate Sound(w: World, ref: Ref, cr: Cr, a: Attempt) {
    && Inv(Effects(w, a))
    && a.cr.spec == cr.spec && a.cr.ctx == cr.ctx && a.cr.deleting == cr.deleting
    && (a.cr.tag != cr.tag ==>
          a.cr.tag == WithLabel(cr).tag && cr.finalizer && !cr.deleting && |cr.ctx| == CONTEXT_ID_LENGTH)
    && (a.cr.finalizer != cr.finalizer ==> if a.cr.finalizer then !cr.deleting else Releasable(w, ref, cr, a.host))
    && (cr.ctx !in w.rest ==> PhaseBacked(a.log, a.cr) && !a.early)
  }

  lemma QuietSound(w: World, ref: Ref, cr: Cr, res: Result)
    requires Inv(w) && ref in w.guest && cr == w.guest[ref]
    ensures Sound(w, ref, cr, Quiet(w, cr, res))
  {
    assert Effects(w, Quiet(w, cr, res)) == w;
  }

  lemma DeleteMirrorKeeps(w: World, hr: HostRef)
    requires Inv(w)
    ensures Inv(w.(host := DeleteMirror(w.host, hr)))
  {
    var w' := w.(host := DeleteMirror(w.host, hr));
    forall h | h in w'.host
      ensures var m := w'.host[h];
              && h == HostRefOf(m.spec, m.ctx) && |m.ctx| == CONTEXT_ID_LENGTH && m.ctx !in w'.rest
              && (!m.deleting ==> Owned(w', m))
    {
      if !w'.host[h].deleting {
        assert w'.host[h] == w.host[h] && Owned(w, w.host[h]);
      }
    }
  }

  lemma DeleteSound(w: World, ref: Ref, cr: Cr, o: Oracle)
    requires Inv(w) && ref in w.guest && cr == w.guest[ref] && cr.deleting
    ensures Sound(w, ref, cr, DeleteBody(w, ref, cr, o))
  {
    QuietSound(w, ref, cr, Again(SOON));
    QuietSound(w, ref, cr, Fails(Fault(o)));
    var hr := HostRefOf(cr.spec, cr.ctx);
    DeleteMirrorKeeps(w, hr);
    var a := DeleteBody(w, ref, cr, o);
    assert Effects(w, a) == w.(host := a.host);
  }

  /** A passed gate closes the references of the resource. */
  lemma GateCloses(w: World, cr: Cr, o: Oracle)
    requires Inv(w) && |cr.ctx| == CONTEXT_ID_LENGTH
    requires Gate(Needs(cr.spec, cr.ctx in w.rest), cr.ctx, o.order, w.guest, o.gateFail) == Pass
    ensures NeedsPresent(w.guest, cr.spec, cr.ctx, cr.ctx in w.rest)
    ensures cr.ctx !in w.rest ==>
      forall n :: n in Needs(cr.spec, false) ==>
        Occurs(w.log, |w.log|, HostState(HostRef(n.kind, ScopedKey(n.id, cr.ctx)), Wanted(n.kind)))
  {
    var rest := cr.ctx in w.rest;
    forall n | n in Needs(cr.spec, rest)
      ensures Present(w.guest, n, cr.ctx)
      ensures !rest ==> Occurs(w.log, |w.log|, HostState(HostRef(n.kind, ScopedKey(n.id, cr.ctx)), Wanted(n.kind)))
    {
      GatePassed(Needs(cr.spec, rest), cr.ctx, o.order, w.guest, o.gateFail, n);
      NeedKinds(cr.spec, rest, n);
      var r :| r in w.guest && r.kind == n.kind && w.guest[r].tag == Some(ScopedKey(n.id, cr.ctx)) &&
               w.guest[r].phase == Wanted(n.kind);
      LabelProvides(w.guest, r, n, cr.ctx);
      assert CrWellFormed(r, w.guest[r]);
      if !rest {
        assert PhaseBacked(w.log, w.guest[r]);
      }
    }
  }

  /** Logging a creation whose needs are met keeps the invariant. */
  lemma LogApplied(w: World, cr: Cr)
    requires Inv(w) && |cr.ctx| == CONTEXT_ID_LENGTH
    requires forall n :: n in Needs(cr.spec, false) ==>
        Occurs(w.log, |w.log|, HostState(HostRef(n.kind, ScopedKey(n.id, cr.ctx)), Wanted(n.kind)))
    ensures Inv(w.(log := w.log + [Applied(HostRefOf(cr.spec, cr.ctx), cr.spec, cr.ctx)]))
  {
    var e := Applied(HostRefOf(cr.spec, cr.ctx), cr.spec, cr.ctx);
    forall n | n in Needs(cr.spec, false)
      ensures Occurs(w.log + [e], |w.log|, HostState(HostRef(n.kind, ScopedKey(n.id, cr.ctx)), Wanted(n.kind)))
    {
      OccursLater(w.log, [e], |w.log|, HostState(HostRef(n.kind, ScopedKey(n.id, cr.ctx)), Wanted(n.kind)));
    }
    assert (w.log + [e])[|w.log|] == e;
    CausalAppend(w.log, e);
    BackedLater(w, w.log + [e], e);
  }

  lemma CreatedKeeps(w: World, ref: Ref)
    requires Inv(w) && ref in w.guest && w.guest[ref].finalizer
    requires NeedsPresent(w.guest, w.guest[ref].spec, w.guest[ref].ctx, w.guest[ref].ctx in w.rest)
    ensures Inv(w.(created := w.created + {ref}))
  {
    var w' := w.(created := w.created + {ref});
    forall hr | hr in w.host && !w.host[hr].deleting ensures Owned(w', w.host[hr]) {
      assert Owned(w, w.host[hr]);
    }
  }

  lemma ApplyKeeps(w: World, ref: Ref)
    requires Inv(w) && ref in w.created && w.guest[ref].ctx !in w.rest && |w.guest[ref].ctx| == CONTEXT_ID_LENGTH
    requires WasApplied(w.log, |w.log|, HostRefOf(w.guest[ref].spec, w.guest[ref].ctx))
    ensures Inv(w.(host := ApplyMirror(w.host, w.guest[ref].spec, w.guest[ref].ctx)))
  {
    var w' := w.(host := ApplyMirror(w.host, w.guest[ref].spec, w.guest[ref].ctx));
    var own := HostRefOf(w.guest[ref].spec, w.guest[ref].ctx);
    assert Owned(w', w'.host[own]);
    forall hr | hr in w'.host && hr != own && !w'.host[hr].deleting ensures Owned(w', w'.host[hr]) {
      assert Owned(w, w.host[hr]);
    }
  }

  /** A creation over REST, and one on the Kubernetes path, after a passed gate. */
  lemma CreatedOverRest(w: World, ref: Ref, cr: Cr, o: Oracle)
    requires Inv(w) && ref in w.guest && cr == w.guest[ref]
    requires cr.finalizer && !cr.deleting && |cr.ctx| == CONTEXT_ID_LENGTH && cr.ctx in w.rest
    requires Gate(Needs(cr.spec, true), cr.ctx, o.order, w.guest, o.gateFail) == Pass
    ensures Inv(w.(created := w.created + {ref}))
  {
    GateCloses(w, cr, o);
    CreatedKeeps(w, ref);
  }

  lemma CreatedOnKubernetes(w: World, ref: Ref, cr: Cr, o: Oracle)
    requires Inv(w) && ref in w.guest && cr == w.guest[ref]
    requires cr.finalizer && !cr.deleting && |cr.ctx| == CONTEXT_ID_LENGTH && cr.ctx !in w.rest
    requires Gate(Needs(cr.spec, false), cr.ctx, o.order, w.guest, o.gateFail) == Pass
    ensures Inv(w.(host := ApplyMirror(w.host, cr.spec, cr.ctx), created := w.created + {ref},
                   log := w.log + [Applied(HostRefOf(cr.spec, cr.ctx), cr.spec, cr.ctx)]))
  {
    GateCloses(w, cr, o);
    LogApplied(w, cr);
    assert CrWellFormed(ref, cr);
    var w1 := w.(log := w.log + [Applied(HostRefOf(cr.spec, cr.ctx), cr.spec, cr.ctx)]);
    assert w1.log[|w.log|] == Applied(HostRefOf(cr.spec, cr.ctx), cr.spec, cr.ctx);
    CreatedKeeps(w1, ref);
    ApplyKeeps(w1.(created := w1.created + {ref}), ref);
  }

  lemma CreateSound(w: World, ref: Ref, cr: Cr, o: Oracle)
    requires Inv(w) && ref in w.guest && cr == w.guest[ref]
    requires cr.finalizer && !cr.deleting && |cr.ctx| == CONTEXT_ID_LENGTH
    ensures Sound(w, ref, cr, CreateBody(w, ref, cr, o))
  {
    var a := CreateBody(w, ref, cr, o);
    assert CrWellFormed(ref, cr);
    if HasBody(cr.spec) && Gate(Needs(cr.spec, cr.ctx in w.rest), cr.ctx, o.order, w.guest, o.gateFail) == Pass &&
       (o.call.effect || !o.call.err) {
      if cr.ctx in w.rest {
        CreatedOverRest(w, ref, cr, o);
        assert Effects(w, a) == w.(created := w.created + {ref});
      } else {
        CreatedOnKubernetes(w, ref, cr, o);
      }
    } else {
      assert Effects(w, a) == w;
    }
  }

  lemma SyncSound(w: World, ref: Ref, cr: Cr, o: Oracle)
    requires Inv(w) && ref in w.guest && cr == w.guest[ref]
    ensures Sound(w, ref, cr, SyncBody(w, cr, o))
  {
    assert Effects(w, SyncBody(w, cr, o)) == w;
  }

  lemma BodySound(w: World, ref: Ref, cr: Cr, o: Oracle, a: Attempt)
    requires Inv(w) && ref in w.guest && cr == w.guest[ref] && a == Body(w, ref, cr, o)
    ensures Sound(w, ref, cr, a)
  {
    QuietSound(w, ref, cr, DONE);
    QuietSound(w, ref, cr, Fails(Permanent));
    QuietSound(w, ref, cr, Fails(Fault(o)));
    if o.listFeds && Open(w.feds, cr.ctx) {
      OpenHasContextId(w.feds, cr.ctx);
      if cr.deleting {
        DeleteSound(w, ref, cr, o);
      } else if !cr.finalizer {
        assert Effects(w, Body(w, ref, cr, o)) == w;
      } else if cr.phase == Unset {
        CreateSound(w, ref, cr, o);
      } else {
        SyncSound(w, ref, cr, o);
      }
    }
  }

  // ---------------------------------------------------------------- the guest store

  /** Replacing a stored resource by one with the same content that keeps its
      finalizer keeps references and owners. */
  lemma UpdateKeeps(w: World, ref: Ref, cr: Cr)
    requires Inv(w) && ref in w.guest
    requires cr.spec == w.guest[ref].spec && cr.ctx == w.guest[ref].ctx
    requires w.guest[ref].finalizer ==> cr.finalizer
    requires CrWellFormed(ref, cr)
    requires cr.ctx !in w.rest ==> PhaseBacked(w.log, cr)
    ensures Inv(w.(guest := w.guest[ref := cr]))
  {
    var w' := w.(guest := w.guest[ref := cr]);
    forall n, ctx | Present(w.guest, n, ctx) ensures Present(w'.guest, n, ctx) {
      var r :| r in w.guest && Provides(r, w.guest[r], n, ctx) && w.guest[r].finalizer;
      assert r in w'.guest && Provides(r, w'.guest[r], n, ctx) && w'.guest[r].finalizer;
    }
    forall hr | hr in w.host && !w.host[hr].deleting ensures Owned(w', w.host[hr]) {
      assert Owned(w, w.host[hr]);
      var r :| r in w.created && r in w.guest && Owns(w.guest[r], w.host[hr]);
      assert r in w'.created && r in w'.guest && Owns(w'.guest[r], w.host[hr]);
    }
  }

  /** Removing a resource that nothing relies on. */
  lemma RemoveKeeps(w: World, ref: Ref)
    requires Inv(w) && ref in w.guest
    requires w.guest[ref].finalizer ==> Releasable(w, ref, w.guest[ref], w.host)
    ensures Inv(w.(guest := w.guest - {ref}, created := w.created - {ref}))
  {
    var w' := w.(guest := w.guest - {ref}, created := w.created - {ref});
    var cr := w.guest[ref];
    assert CrWellFormed(ref, cr);
    forall r | r in w'.created
      ensures NeedsPresent(w'.guest, w.guest[r].spec, w.guest[r].ctx, w.guest[r].ctx in w.rest)
    {
      forall n | n in Needs(w.guest[r].spec, w.guest[r].ctx in w.rest) ensures Present(w'.guest, n, w.guest[r].ctx) {
        assert Present(w.guest, n, w.guest[r].ctx);
        var p :| p in w.guest && Provides(p, w.guest[p], n, w.guest[r].ctx) && w.guest[p].finalizer;
        NeedsAreMentioned(w.guest[r].spec, w.guest[r].ctx in w.rest, n);
        NeedKinds(w.guest[r].spec, w.guest[r].ctx in w.rest, n);
        assert HasDependents(w.guest, n.kind, n.id, w.guest[r].ctx);
        assert p in w'.guest && Provides(p, w'.guest[p], n, w.guest[r].ctx) && w'.guest[p].finalizer;
      }
    }
    forall hr | hr in w.host && !w.host[hr].deleting ensures Owned(w', w.host[hr]) {
      assert Owned(w, w.host[hr]);
      var r :| r in w.created && r in w.guest && Owns(w.guest[r], w.host[hr]);
      assert r != ref;
      assert r in w'.created && r in w'.guest && Owns(w'.guest[r], w.host[hr]);
    }
  }

  lemma ReconcileKeeps(w: World, ref: Ref, o: Oracle)
    requires Inv(w)
    ensures Inv(ReconcileStep(w, ref, o))
  {
    if o.get && ref in w.guest {
      var cr := w.guest[ref];
      var a := Body(w, ref, cr, o);
      BodySound(w, ref, cr, o, Body(w, ref, cr, o));
      assert CrWellFormed(ref, cr);
      var e := Effects(w, a);
      var w' := WriteBack(w, ref, a, o);
      if cr.deleting && ref !in w'.guest {
        RemoveKeeps(e, ref);
        assert w' == e.(guest := e.guest - {ref}, created := e.created - {ref});
      } else {
        assert w' == e.(guest := e.guest[ref := w'.guest[ref]]);
        UpdateKeeps(e, ref, w'.guest[ref]);
      }
    }
  }

  lemma HostStateKeeps(w: World, hr: HostRef, phase: Phase)
    requires Inv(w) && hr in w.host
    ensures Inv(StoreHostState(w, hr, phase))
  {
    var e := HostState(hr, phase);
    assert WasApplied(w.log, |w.log|, hr);
    WasAppliedLater(w.log, [e], |w.log|, hr);
    assert (w.log + [e])[|w.log|] == e;
    CausalAppend(w.log, e);
    BackedLater(w, w.log + [e], e);
    var w' := StoreHostState(w, hr, phase);
    forall h | h in w'.host && !w'.host[h].deleting ensures Owned(w', w'.host[h]) {
      assert Owned(w, w.host[h]);
    }
  }

  /** Removing a mirror being deleted, or marking its finalizer, keeps the invariant. */
  lemma MirrorGone(w: World, hr: HostRef)
    requires Inv(w) && hr in w.host
    ensures Inv(w.(host := w.host - {hr}))
  {
    var w' := w.(host := w.host - {hr});
    forall h | h in w'.host && !w'.host[h].deleting ensures Owned(w', w'.host[h]) {
      assert Owned(w, w.host[h]);
    }
  }

  lemma MirrorFinalized(w: World, hr: HostRef)
    requires Inv(w) && hr in w.host
    ensures Inv(w.(host := w.host[hr := w.host[hr].(finalizer := true)]))
  {
    var w' := w.(host := w.host[hr := w.host[hr].(finalizer := true)]);
    forall h | h in w'.host && !w'.host[h].deleting ensures Owned(w', w'.host[h]) {
      assert Owned(w, w.host[h]);
    }
  }

  lemma HostKeeps(w: World, hr: HostRef, view: FedView, metaOk: bool, statusOk: bool)
    requires Inv(w)
    ensures Inv(HostReconcileStep(w, hr, view, metaOk, statusOk))
  {
    if hr in w.host {
      HostStateKeeps(w, hr, Failed);
      HostStateKeeps(w, hr, Initial(hr.kind));
      MirrorGone(w, hr);
      MirrorFinalized(w, hr);
    }
  }

  lemma UserCreateKeeps(w: World, ref: Ref, spec: Spec, ctx: string)
    requires Inv(w) && ref !in w.guest && KindOf(spec) == ref.kind
    ensures Inv(w.(guest := w.guest[ref := Cr(spec, ctx, false, false, None, Unset)]))
  {
    var w' := w.(guest := w.guest[ref := Cr(spec, ctx, false, false, None, Unset)]);
    forall n, c | Present(w.guest, n, c) ensures Present(w'.guest, n, c) {
      var r :| r in w.guest && Provides(r, w.guest[r], n, c) && w.guest[r].finalizer;
      assert r in w'.guest && Provides(r, w'.guest[r], n, c) && w'.guest[r].finalizer;
    }
    forall hr | hr in w.host && !w.host[hr].deleting ensures Owned(w', w.host[hr]) {
      assert Owned(w, w.host[hr]);
      var r :| r in w.created && r in w.guest && Owns(w.guest[r], w.host[hr]);
      assert r in w'.created && w'.guest[r] == w.guest[r];
    }
  }

  /** Every step keeps the invariant. */
  lemma NextKeeps(w: World, step: Step)
    requires Inv(w)
    ensures Inv(Next(w, step))
  {
    match step
    case UserCreate(ref, spec, ctx) =>
      if ref !in w.guest && KindOf(spec) == ref.kind {
        UserCreateKeeps(w, ref, spec, ctx);
      }
    case UserDelete(ref) =>
      if ref in w.guest {
        assert CrWellFormed(ref, w.guest[ref]);
        if w.guest[ref].finalizer {
          UpdateKeeps(w, ref, w.guest[ref].(deleting := true));
        } else {
          RemoveKeeps(w, ref);
          assert ref !in w.created;
          assert w.created - {ref} == w.created;
        }
      }
    case Reconcile(ref, o) => ReconcileKeeps(w, ref, o);
    case HostReconcile(hr, view, metaOk, statusOk) => HostKeeps(w, hr, view, metaOk, statusOk);
    case HostStatus(hr, phase) =>
      if hr in w.host {
        HostStateKeeps(w, hr, phase);
      }
    case Callback(ref, phase) =>
      if ref in w.guest && w.guest[ref].ctx in w.rest {
        assert CrWellFormed(ref, w.guest[ref]);
        UpdateKeeps(w, ref, w.guest[ref].(phase := phase));
      }
    case SetFederations(feds) => FedsKeep(w, feds);
    case ReconcileFederation(index, o) =>
      FedsKeep(w, FederationStep(w, index, o).feds);
  }

  lemma FedsKeep(w: World, feds: seq<Fed>)
    requires Inv(w)
    ensures ValidFeds(feds) ==> Inv(w.(feds := feds))
  {
    forall hr | hr in w.host && !w.host[hr].deleting ensures Owned(w.(feds := feds), w.host[hr]) {
      assert Owned(w, w.host[hr]);
    }
  }

  lemma {:induction false} RunKeeps(w: World, steps: seq<Step>)
    requires Inv(w)
    ensures Inv(Run(w, steps))
  {
    if steps != [] {
      RunKeeps(w, steps[..|steps| - 1]);
      NextKeeps(Run(w, steps[..|steps| - 1]), steps[|steps| - 1]);
    }
  }

  lemma StartHolds(w: World)
    requires Start(w)
    ensures Inv(w)
  {
  }

  lemma ReachableHolds(w: World)
    requires Reachable(w)
    ensures Inv(w)
  {
    var w0, steps :| Start(w0) && w == Run(w0, steps);
    StartHolds(w0);
    RunKeeps(w0, steps);
  }

  // ---------------------------------------------------------------- main results

  /** Reference closure: in every run, whatever was created on the partner and is still
      stored has everything it names still stored. */
  lemma ReferenceClosure(w: World, r: Ref, n: Need)
    requires Reachable(w) && r in w.created
    ensures r in w.guest && w.guest[r].finalizer
    ensures n in Needs(w.guest[r].spec, w.guest[r].ctx in w.rest) ==> Present(w.guest, n, w.guest[r].ctx)
  {
    ReachableHolds(w);
  }

  /** No orphan mirrors: in every run, a mirror that is not being deleted has a guest
      resource with the same content that was created on the host, holds its finalizer,
      and has everything it names still stored. */
  lemma NoOrphanMirrors(w: World, hr: HostRef)
    requires Reachable(w) && hr in w.host && !w.host[hr].deleting
    ensures var m := w.host[hr];
            && hr == HostRefOf(m.spec, m.ctx)
            && (exists r :: r in w.guest && r in w.created && w.guest[r].finalizer &&
                            w.guest[r].spec == m.spec && w.guest[r].ctx == m.ctx)
            && NeedsPresent(w.guest, m.spec, m.ctx, false)
  {
    ReachableHolds(w);
    assert Owned(w, w.host[hr]);
  }

  /** A need was met on the host before position `i`: the host held the wanted state,
      and before that the dependency had been mirrored, with its own needs met in turn. */
  ghost predicate MetBefore(log: seq<Event>, i: nat, n: Need, ctx: string)
    requires i <= |log|
    decreases i
  {
    exists j: nat, k: nat {:trigger log[j], log[k]} :: k < j < i
      && log[j] == HostState(HostRef(n.kind, ScopedKey(n.id, ctx)), Wanted(n.kind))
      && log[k].Applied? && log[k].hr == HostRef(n.kind, ScopedKey(n.id, ctx))
      && KindOf(log[k].spec) == n.kind && IdOf(log[k].spec) == n.id && log[k].ctx == ctx
      && forall m :: m in Needs(log[k].spec, false) ==> MetBefore(log, k, m, ctx)
  }

  lemma {:induction false} CausalHistory(log: seq<Event>, i: nat, n: Need)
    requires Causal(log) && i < |log| && log[i].Applied? && n in Needs(log[i].spec, false)
    ensures MetBefore(log, i, n, log[i].ctx)
    decreases i
  {
    var ctx := log[i].ctx;
    var hr := HostRef(n.kind, ScopedKey(n.id, ctx));
    assert Justified(log, i);
    assert Occurs(log, i, HostState(hr, Wanted(n.kind)));
    var j: nat :| j < i && log[j] == HostState(hr, Wanted(n.kind));
    assert Justified(log, j);
    var k: nat :| k < j && log[k].Applied? && log[k].hr == hr;
    assert Justified(log, k);
    NeedKinds(log[i].spec, false, n);
    ScopedKeyInjective(IdOf(log[k].spec), log[k].ctx, n.id, ctx);
    forall m | m in Needs(log[k].spec, false) ensures MetBefore(log, k, m, ctx) {
      CausalHistory(log, k, m);
    }
  }

  /** Causal chain: in every run, whatever is created on a Kubernetes host comes after
      the host held the wanted state of everything it names, each of which had been
      created there after the same had held for it, down to the images. */
  lemma CausalChain(w: World, i: nat, n: Need)
    requires Reachable(w)
    requires i < |w.log| && w.log[i].Applied? && n in Needs(w.log[i].spec, false)
    ensures MetBefore(w.log, i, n, w.log[i].ctx)
  {
    ReachableHolds(w);
    CausalHistory(w.log, i, n);
  }

  /** The guest never shows a state the host did not hold, its own initial and failed
      states apart; and the host's state came after the resource was mirrored. */
  lemma GuestNeverAhead(w: World, r: Ref)
    requires Reachable(w) && r in w.guest && w.guest[r].ctx !in w.rest
    ensures var cr := w.guest[r]; var hr := HostRefOf(cr.spec, cr.ctx);
            cr.phase !in {Unset, Initial(r.kind), Failed} ==>
            exists j: nat :: j < |w.log| && w.log[j] == HostState(hr, cr.phase) && WasApplied(w.log, j, hr)
  {
    ReachableHolds(w);
    var cr := w.guest[r];
    assert CrWellFormed(r, cr);
    if cr.phase !in {Unset, Initial(r.kind), Failed} {
      assert PhaseBacked(w.log, cr);
      var j: nat :| j < |w.log| && w.log[j] == HostState(HostRefOf(cr.spec, cr.ctx), cr.phase);
      assert Justified(w.log, j);
    }
  }

  // ---------------------------------------------------------------- the freeze

  /** Another answer of the partner would have made no difference, to what is stored or to
      what the reconcile returns. */
  predicate IgnoresPartner(w: World, ref: Ref, o: Oracle, call: Call) {
    && ReconcileStep(w, ref, o.(call := call)) == ReconcileStep(w, ref, o)
    && ReconcileReply(w, ref, o.(call := call)) == ReconcileReply(w, ref, o)
  }

  /** While its federation is not AVAILABLE a reconcile calls no partner. It changes the
      stored resource exactly when listing federations failed for good on a resource
      that is not being deleted, and then only its state. */
  lemma FreezeStep(w: World, ref: Ref, o: Oracle)
    requires ref in w.guest && Frozen(w.feds, w.guest[ref].ctx)
    ensures var cr := w.guest[ref];
            var faulted := o.get && !o.listFeds && !o.transient && !cr.deleting && o.statusOk;
            ReconcileStep(w, ref, o) == if faulted then w.(guest := w.guest[ref := cr.(phase := Failed)]) else w
  {
    assert w.guest[ref := w.guest[ref]] == w.guest;
  }

  lemma FrozenIgnoresPartner(w: World, ref: Ref, o: Oracle, call: Call)
    requires ref in w.guest && Frozen(w.feds, w.guest[ref].ctx)
    ensures IgnoresPartner(w, ref, o, call)
  {
    FreezeStep(w, ref, o);
    FreezeStep(w, ref, o.(call := call));
    assert Body(w, ref, w.guest[ref], o.(call := call)) == Body(w, ref, w.guest[ref], o);
  }

  ghost predicate FrozenRun(w: World, steps: seq<Step>, ctx: string) {
    forall i :: 0 <= i <= |steps| ==> Frozen(Run(w, steps[..i]).feds, ctx)
  }

  predicate Held(w: World, r: Ref, ctx: string) {
    r in w.guest && w.guest[r].ctx == ctx && w.guest[r].finalizer
  }

  /** The resources of a context that were created on the partner, by either path. */
  function CreatedOf(w: World, ctx: string): set<Ref> {
    set r | r in w.created && r in w.guest && w.guest[r].ctx == ctx
  }

  /** Between two worlds nothing of the context moved: no creation on the partner by either
      path, no update, no mirror deleted, no finalizer gained or lost, no label changed on
      a resource that holds one. */
  ghost predicate Untouched(w: World, w': World, ctx: string) {
    && w.log <= w'.log
    && (forall j :: |w.log| <= j < |w'.log| && w'.log[j].Applied? ==> w'.log[j].ctx != ctx)
    && (forall r :: Held(w, r, ctx) <==> Held(w', r, ctx))
    && (forall r :: Held(w, r, ctx) ==> w'.guest[r].tag == w.guest[r].tag)
    && CreatedOf(w', ctx) == CreatedOf(w, ctx)
    && (forall hr :: hr in w.host && w.host[hr].ctx == ctx && !w.host[hr].deleting ==>
          hr in w'.host && w'.host[hr].ctx == ctx && !w'.host[hr].deleting)
  }

  /** Names under different contexts differ. */
  lemma HostRefsApart(s1: Spec, c1: string, s2: Spec, c2: string)
    requires |c1| == |c2| && c1 != c2
    ensures HostRefOf(s1, c1) != HostRefOf(s2, c2)
  {
    if s1.DeploymentSpec? && s2.DeploymentSpec? {
      assert KeyOf(s1, c1)[..|c1|] == c1 && KeyOf(s2, c2)[..|c2|] == c2;
    } else if HostRefOf(s1, c1) == HostRefOf(s2, c2) {
      ScopedKeyInjective(IdOf(s1), c1, IdOf(s2), c2);
    }
  }

  /** The body of a reconcile acts under the context of its resource only. */
  ghost predicate ActsWithin(w: World, ref: Ref, cr: Cr, a: Attempt) {
    && (a.created == w.created || a.created == w.created + {ref})
    && a.cr.ctx == cr.ctx
    && (a.log == w.log || exists hr, spec :: a.log == w.log + [Applied(hr, spec, cr.ctx)])
    && (forall hr :: hr in w.host && w.host[hr].ctx != cr.ctx ==> hr in a.host && a.host[hr] == w.host[hr])
  }

  lemma DeleteActsWithin(w: World, ref: Ref, cr: Cr, o: Oracle)
    requires Inv(w) && |cr.ctx| == CONTEXT_ID_LENGTH
    ensures ActsWithin(w, ref, cr, DeleteBody(w, ref, cr, o))
  {
    forall hr | hr in w.host && w.host[hr].ctx != cr.ctx ensures hr != HostRefOf(cr.spec, cr.ctx) {
      HostRefsApart(w.host[hr].spec, w.host[hr].ctx, cr.spec, cr.ctx);
    }
  }

  /** Applying a mirror of one context leaves the mirrors of the others. */
  lemma ApplyElsewhere(w: World, spec: Spec, ctx: string)
    requires Inv(w) && |ctx| == CONTEXT_ID_LENGTH
    ensures forall hr :: hr in w.host && w.host[hr].ctx != ctx ==>
      hr in ApplyMirror(w.host, spec, ctx) && ApplyMirror(w.host, spec, ctx)[hr] == w.host[hr]
  {
    forall hr | hr in w.host && w.host[hr].ctx != ctx ensures hr != HostRefOf(spec, ctx) {
      HostRefsApart(w.host[hr].spec, w.host[hr].ctx, spec, ctx);
    }
  }

  lemma CreateShape(w: World, ref: Ref, cr: Cr, o: Oracle)
    ensures var a := CreateBody(w, ref, cr, o);
      && a.cr.ctx == cr.ctx
      && (a.created == w.created || a.created == w.created + {ref})
      && (a.host == w.host || a.host == ApplyMirror(w.host, cr.spec, cr.ctx))
      && (a.log == w.log || a.log == w.log + [Applied(HostRefOf(cr.spec, cr.ctx), cr.spec, cr.ctx)])
  {
  }

  lemma CreateActsWithin(w: World, ref: Ref, cr: Cr, o: Oracle)
    requires Inv(w) && |cr.ctx| == CONTEXT_ID_LENGTH
    ensures ActsWithin(w, ref, cr, CreateBody(w, ref, cr, o))
  {
    CreateShape(w, ref, cr, o);
    ApplyElsewhere(w, cr.spec, cr.ctx);
  }

  lemma BodyActsWithin(w: World, ref: Ref, cr: Cr, o: Oracle)
    requires Inv(w)
    ensures ActsWithin(w, ref, cr, Body(w, ref, cr, o))
  {
    if o.listFeds && Open(w.feds, cr.ctx) {
      OpenHasContextId(w.feds, cr.ctx);
      if cr.deleting {
        DeleteActsWithin(w, ref, cr, o);
      } else if cr.finalizer && cr.phase == Unset {
        CreateActsWithin(w, ref, cr, o);
      }
    }
  }

  lemma WriteBackFrame(w: World, ref: Ref, a: Attempt, o: Oracle)
    requires ref in w.guest
    ensures var w' := WriteBack(w, ref, a, o);
      && w'.log == a.log && w'.host == a.host
      && (forall r :: r != ref ==> (r in w.guest <==> r in w'.guest) && (r in w.guest ==> w.guest[r] == w'.guest[r]))
      && (forall r :: r != ref ==> (r in w'.created <==> r in a.created))
      && (ref in w'.guest ==> w'.guest[ref].ctx == w.guest[ref].ctx)
  {
  }

  /** A change of one resource of another context. */
  lemma OtherContext(w: World, w': World, ref: Ref, ctx: string)
    requires forall r :: r != ref ==> (r in w.guest <==> r in w'.guest) && (r in w.guest ==> w.guest[r] == w'.guest[r])
    requires forall r :: r != ref ==> (r in w'.created <==> r in w.created)
    requires (ref in w.guest ==> w.guest[ref].ctx != ctx) && (ref in w'.guest ==> w'.guest[ref].ctx != ctx)
    ensures forall r :: Held(w, r, ctx) <==> Held(w', r, ctx)
    ensures forall r :: Held(w, r, ctx) ==> w'.guest[r].tag == w.guest[r].tag
    ensures CreatedOf(w', ctx) == CreatedOf(w, ctx)
  {
  }

  lemma WriteBackActsWithin(w: World, ref: Ref, a: Attempt, o: Oracle, ctx: string)
    requires ref in w.guest && w.guest[ref].ctx != ctx && ActsWithin(w, ref, w.guest[ref], a)
    ensures Untouched(w, WriteBack(w, ref, a, o), ctx)
  {
    WriteBackFrame(w, ref, a, o);
    OtherContext(w, WriteBack(w, ref, a, o), ref, ctx);
  }

  lemma FreezeReconcile(w: World, ref: Ref, o: Oracle, ctx: string)
    requires Inv(w) && Frozen(w.feds, ctx)
    ensures Untouched(w, ReconcileStep(w, ref, o), ctx)
  {
    if o.get && ref in w.guest {
      if w.guest[ref].ctx == ctx {
        FreezeStep(w, ref, o);
      } else {
        BodyActsWithin(w, ref, w.guest[ref], o);
        WriteBackActsWithin(w, ref, Body(w, ref, w.guest[ref], o), o, ctx);
      }
    }
  }

  lemma FreezeHost(w: World, hr: HostRef, view: FedView, metaOk: bool, statusOk: bool, ctx: string)
    ensures Untouched(w, HostReconcileStep(w, hr, view, metaOk, statusOk), ctx)
  {
  }

  lemma FreezeHostStatus(w: World, hr: HostRef, phase: Phase, ctx: string)
    ensures Untouched(w, Next(w, HostStatus(hr, phase)), ctx)
  {
  }

  lemma FreezeFeds(w: World, feds: seq<Fed>, ctx: string)
    ensures Untouched(w, w.(feds := feds), ctx)
  {
  }

  lemma FreezeUser(w: World, step: Step, ctx: string)
    requires Inv(w) && (step.UserCreate? || step.UserDelete? || step.Callback?)
    ensures Untouched(w, Next(w, step), ctx)
  {
  }

  lemma FreezeNext(w: World, step: Step, ctx: string)
    requires Inv(w) && Frozen(w.feds, ctx)
    ensures Untouched(w, Next(w, step), ctx)
  {
    match step
    case Reconcile(ref, o) => FreezeReconcile(w, ref, o, ctx);
    case HostReconcile(hr, view, metaOk, statusOk) => FreezeHost(w, hr, view, metaOk, statusOk, ctx);
    case HostStatus(hr, phase) => FreezeHostStatus(w, hr, phase, ctx);
    case SetFederations(feds) => FreezeFeds(w, Next(w, step).feds, ctx);
    case ReconcileFederation(index, o) => FreezeFeds(w, FederationStep(w, index, o).feds, ctx);
    case _ => FreezeUser(w, step, ctx);
  }

  /** Freeze: over any stretch of a run in which the unique federation of a context is
      not AVAILABLE, whatever else happens, nothing of that context is created, updated
      or deleted on the partner and no finalizer of its resources changes. */
  lemma {:induction false} FreezeRun(w: World, steps: seq<Step>, ctx: string)
    requires Inv(w) && FrozenRun(w, steps, ctx)
    ensures Untouched(w, Run(w, steps), ctx)
  {
    if steps != [] {
      var shorter := steps[..|steps| - 1];
      forall i | 0 <= i <= |shorter| ensures Frozen(Run(w, shorter[..i]).feds, ctx) {
        assert shorter[..i] == steps[..i];
      }
      FreezeRun(w, shorter, ctx);
      RunKeeps(w, shorter);
      assert shorter[..|shorter|] == shorter;
      FreezeNext(Run(w, shorter), steps[|steps| - 1], ctx);
    } else {
      assert Run(w, steps) == w;
    }
  }

  /** In such a stretch no reconcile of the context depends on any answer of the partner,
      whichever path it is reached by: none is called. */
  lemma FreezeCallsNobody(w: World, steps: seq<Step>, ctx: string, i: nat, call: Call)
    requires FrozenRun(w, steps, ctx) && i < |steps| && steps[i].Reconcile?
    requires steps[i].ref in Run(w, steps[..i]).guest && Run(w, steps[..i]).guest[steps[i].ref].ctx == ctx
    ensures IgnoresPartner(Run(w, steps[..i]), steps[i].ref, steps[i].o, call)
  {
    assert Frozen(Run(w, steps[..i]).feds, ctx);
    FrozenIgnoresPartner(Run(w, steps[..i]), steps[i].ref, steps[i].o, call);
  }
}
