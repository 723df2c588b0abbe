/** The guest reconcilers as they run: an operator object whose stores the methods
    update step by step. Each reconcile is proved to be the step of the protocol. */
module Controllers {
  import opened Basics
  import opened Naming
  import opened Model
  import opened Protocol
  import Watchers

  /** The branch a reconcile takes. */
  datatype Turn = Refused(err: Err) | Closed | Delete | Finalize | Create | Sync

  datatype MetaPatch = Unchanged | Rejected | Patched | Gone

  ghost function TurnOf(w: World, cr: Cr, o: Oracle): Turn {
    if !o.listFeds then Refused(Fault(o))
    else if !LookupFed(w.feds, cr.ctx).OneFed? then Refused(Permanent)
    else if !Open(w.feds, cr.ctx) then Closed
    else if cr.deleting then Delete
    else if !cr.finalizer then Finalize
    else if cr.phase == Unset then Create
    else Sync
  }

  class Operator {
    var guest: map<Ref, Cr>
    var host: map<HostRef, Mirror>
    var feds: seq<Fed>
    const rest: set<string>
    var watched: set<string>             // keys of running watchers
    const spaces: string -> string       // the partner's namespace for a context
    ghost var created: set<Ref>
    ghost var log: seq<Event>

    /** Custom resources are stored under their own kind. */
    predicate Valid()
      reads this
    {
      forall r :: r in guest ==> KindOf(guest[r].spec) == r.kind
    }

    ghost function State(): World
      reads this
    {
      World(guest, host, feds, rest, created, log)
    }

    /** A list call returns every stored resource. */
    ghost predicate Lists(o: Oracle)
      reads this
    {
      forall r :: r in guest ==> r in o.order
    }

    /** The key of a resource's watcher; it does not say the kind. */
    function WatchedAs(ref: Ref, ctx: string): string {
      Watchers.WatchKey(spaces(ctx), ref.name)
    }

    /** The watched keys after a reconcile of a resource. */
    ghost function WatchedAfter(ref: Ref, o: Oracle): set<string>
      reads this
    {
      if ref in guest then Rewatch(watched, WatchedAs(ref, guest[ref].ctx), ReconcileWatch(State(), ref, o))
      else watched
    }

    constructor (feds: seq<Fed>, rest: set<string>, spaces: string -> string)
      ensures Valid() && State() == World(map[], map[], feds, rest, {}, []) && watched == {}
    {
      this.watched, this.spaces := {}, spaces;
      this.guest, this.host, this.feds, this.rest := map[], map[], feds, rest;
      this.created, this.log := {}, [];
    }

    // -------------------------------------------------------------- util.go

    method GetFederationByContextId(ctx: string) returns (l: Lookup)
      ensures l == LookupFed(feds, ctx)
    {
      var matched := [];
      for i := 0 to |feds|
        invariant matched + FedsOf(feds[i..], ctx) == FedsOf(feds, ctx)
      {
        if feds[i].ctx == ctx {
          matched := matched + [feds[i]];
        }
      }
      l := if |matched| == 0 then NoFed else if |matched| > 1 then ManyFeds else OneFed(matched[0]);
    }

    method CheckFederationState(fed: Fed) returns (open: bool)
      ensures open <==> fed.phase == Available
    {
      match fed.phase
      case Locked => open := false;
      case Available => open := true;
      case _ => open := false;
    }

    // -------------------------------------------------------------- lists

    method ListByLabel(order: seq<Ref>, kind: Kind, key: string) returns (items: seq<Ref>)
      ensures items == Labelled(order, guest, kind, key)
      ensures forall r :: r in items ==> r in guest
    {
      items := [];
      for i := 0 to |order|
        invariant items + Labelled(order[i..], guest, kind, key) == Labelled(order, guest, kind, key)
        invariant forall r :: r in items ==> r in guest
      {
        ghost var rest := Labelled(order[i + 1..], guest, kind, key);
        LabelledStep(order, i, guest, kind, key);
        assert items + ([order[i]] + rest) == (items + [order[i]]) + rest;
        assert [] + rest == rest;
        if order[i] in guest && order[i].kind == kind && guest[order[i]].tag == Some(key) {
          items := items + [order[i]];
        }
      }
      assert Labelled([], guest, kind, key) == [] && items + [] == items;
    }

    /** One dependency of the gate: listed by label, first item, wanted state. */
    method Check(n: Need, ctx: string, order: seq<Ref>) returns (g: GateResult)
      ensures var found := Labelled(order, guest, n.kind, ScopedKey(n.id, ctx));
        g == if found == [] || found[0] !in guest then Absent(n.kind)
             else if guest[found[0]].phase != Wanted(n.kind) then NotYet(SOON) else Pass
    {
      var items := ListByLabel(order, n.kind, ScopedKey(n.id, ctx));
      if |items| == 0 {
        return Absent(n.kind);
      }
      if guest[items[0]].phase != Wanted(n.kind) {
        return NotYet(SOON);
      }
      g := Pass;
    }

    /** The inner loop of the artefact gate; `later` are the needs of the components after
        this one, `fail` the failing lookup counted from here. */
    method ComponentGate(images: seq<string>, ctx: string, order: seq<Ref>, fail0: Option<nat>, ghost later: seq<Need>)
      returns (g: GateResult, fail: Option<nat>)
      ensures Gate(ImageNeeds(images) + later, ctx, order, guest, fail0) ==
              if g.Pass? then Gate(later, ctx, order, guest, fail) else g
    {
      fail := fail0;
      assert images[0..] == images;
      for k := 0 to |images|
        invariant Gate(ImageNeeds(images) + later, ctx, order, guest, fail0)
               == Gate(ImageNeeds(images[k..]) + later, ctx, order, guest, fail)
      {
        ImageNeedsStep(images, k, later);
        if fail == Some(0) {
          return ListError, fail;
        }
        var check := Check(Need(Image, images[k]), ctx, order);
        if check != Pass {
          return check, fail;
        }
        fail := if fail.Some? then Some(fail.value - 1) else None;
      }
      assert ImageNeeds([]) + later == later;
      g := Pass;
    }

    method ArtefactGate(components: seq<seq<string>>, ctx: string, o: Oracle) returns (g: GateResult)
      ensures g == Gate(ComponentNeeds(components), ctx, o.order, guest, o.gateFail)
    {
      var fail := o.gateFail;
      assert components[0..] == components;
      for i := 0 to |components|
        invariant Gate(ComponentNeeds(components), ctx, o.order, guest, o.gateFail)
               == Gate(ComponentNeeds(components[i..]), ctx, o.order, guest, fail)
      {
        ComponentNeedsStep(components, i);
        g, fail := ComponentGate(components[i], ctx, o.order, fail, ComponentNeeds(components[i + 1..]));
        if g != Pass {
          return g;
        }
      }
      g := Pass;
    }

    method OnboardingGate(components: seq<string>, ctx: string, o: Oracle) returns (g: GateResult)
      ensures g == Gate(ArtefactNeeds(components), ctx, o.order, guest, o.gateFail)
    {
      var fail := o.gateFail;
      assert components[0..] == components;
      for i := 0 to |components|
        invariant Gate(ArtefactNeeds(components), ctx, o.order, guest, o.gateFail)
               == Gate(ArtefactNeeds(components[i..]), ctx, o.order, guest, fail)
      {
        ArtefactNeedsStep(components, i);
        if fail == Some(0) {
          return ListError;
        }
        var check := Check(Need(Artefact, components[i]), ctx, o.order);
        if check != Pass {
          return check;
        }
        fail := if fail.Some? then Some(fail.value - 1) else None;
      }
      g := Pass;
    }

    /** The zone is looked up on the Kubernetes path only, then the onboarding. */
    method DeploymentGate(app: string, zone: string, ctx: string, o: Oracle) returns (g: GateResult)
      ensures forall instance ::
        g == Gate(Needs(DeploymentSpec(app, instance, zone), ctx in rest), ctx, o.order, guest, o.gateFail)
    {
      var fail := o.gateFail;
      ghost var last := [Need(Onboarding, app)];
      ghost var needs := (if ctx in rest then [] else [Need(Zone, zone)]) + last;
      if ctx !in rest {
        assert needs[1..] == last;
        if fail == Some(0) {
          return ListError;
        }
        var check := Check(Need(Zone, zone), ctx, o.order);
        if check != Pass {
          return check;
        }
        fail := if fail.Some? then Some(fail.value - 1) else None;
      } else {
        assert needs == last;
      }
      assert Gate(needs, ctx, o.order, guest, o.gateFail) == Gate(last, ctx, o.order, guest, fail);
      assert last[1..] == [];
      if fail == Some(0) {
        return ListError;
      }
      g := Check(Need(Onboarding, app), ctx, o.order);
      assert Gate([], ctx, o.order, guest, if fail.Some? then Some(fail.value - 1) else None) == Pass;
    }

    // -------------------------------------------------------------- dependents

    /** Does this stored resource of the context name the dependency? */
    method ArtefactNames(r: Ref, ctx: string, imageId: string) returns (names: bool)
      requires Valid()
      ensures names <==> Names(guest, r, Need(Image, imageId), ctx)
    {
      OnlyKindMentions(Need(Image, imageId));
      names := false;
      if r in guest && r.kind == Artefact && guest[r].ctx == ctx && guest[r].spec.body.Some? {
        names := NamesImage(guest[r].spec.body.value, imageId);
      }
    }

    method OnboardingNames(r: Ref, ctx: string, artefactId: string) returns (names: bool)
      requires Valid()
      ensures names <==> Names(guest, r, Need(Artefact, artefactId), ctx)
    {
      OnlyKindMentions(Need(Artefact, artefactId));
      names := false;
      if r in guest && r.kind == Onboarding && guest[r].ctx == ctx {
        names := NamesArtefact(guest[r].spec.components, artefactId);
      }
    }

    method DeploymentNamesApp(r: Ref, ctx: string, appId: string) returns (names: bool)
      requires Valid()
      ensures names <==> Names(guest, r, Need(Onboarding, appId), ctx)
    {
      OnlyKindMentions(Need(Onboarding, appId));
      names := r in guest && r.kind == Deployment && guest[r].ctx == ctx && guest[r].spec.ofApp == appId;
    }

    method DeploymentNamesZone(r: Ref, ctx: string, zoneId: string) returns (names: bool)
      requires Valid()
      ensures names <==> Names(guest, r, Need(Zone, zoneId), ctx)
    {
      OnlyKindMentions(Need(Zone, zoneId));
      names := r in guest && r.kind == Deployment && guest[r].ctx == ctx && guest[r].spec.zone == zoneId;
    }

    method ResourcesDependOnImage(ctx: string, imageId: string, order: seq<Ref>) returns (found: bool)
      requires Valid() && forall r :: r in guest ==> r in order
      ensures found <==> HasDependents(guest, Image, imageId, ctx)
    {
      ghost var n := Need(Image, imageId);
      for i := 0 to |order|
        invariant forall j :: 0 <= j < i ==> !Names(guest, order[j], n, ctx)
      {
        found := ArtefactNames(order[i], ctx, imageId);
        if found {
          return;
        }
      }
      found := false;
    }

    method ResourcesDependOnArtefact(ctx: string, artefactId: string, order: seq<Ref>) returns (found: bool)
      requires Valid() && forall r :: r in guest ==> r in order
      ensures found <==> HasDependents(guest, Artefact, artefactId, ctx)
    {
      ghost var n := Need(Artefact, artefactId);
      for i := 0 to |order|
        invariant forall j :: 0 <= j < i ==> !Names(guest, order[j], n, ctx)
      {
        found := OnboardingNames(order[i], ctx, artefactId);
        if found {
          return;
        }
      }
      found := false;
    }

    method ResourcesDependOnApplicationOnboarding(ctx: string, appId: string, order: seq<Ref>) returns (found: bool)
      requires Valid() && forall r :: r in guest ==> r in order
      ensures found <==> HasDependents(guest, Onboarding, appId, ctx)
    {
      ghost var n := Need(Onboarding, appId);
      for i := 0 to |order|
        invariant forall j :: 0 <= j < i ==> !Names(guest, order[j], n, ctx)
      {
        found := DeploymentNamesApp(order[i], ctx, appId);
        if found {
          return;
        }
      }
      found := false;
    }

    method ResourcesDependOnAvailabilityZone(ctx: string, zoneId: string, order: seq<Ref>) returns (found: bool)
      requires Valid() && forall r :: r in guest ==> r in order
      ensures found <==> HasDependents(guest, Zone, zoneId, ctx)
    {
      ghost var n := Need(Zone, zoneId);
      for i := 0 to |order|
        invariant forall j :: 0 <= j < i ==> !Names(guest, order[j], n, ctx)
      {
        found := DeploymentNamesZone(order[i], ctx, zoneId);
        if found {
          return;
        }
      }
      found := false;
    }

    method ResourcesDependOnFederation(ctx: string, order: seq<Ref>) returns (found: bool)
      requires forall r :: r in guest ==> r in order
      ensures found <==> FedHasDependents(guest, ctx)
    {
      if ctx == "" {
        return false;
      }
      for i := 0 to |order|
        invariant forall r :: r in order[..i] && r in guest ==> guest[r].ctx != ctx
      {
        if order[i] in guest && guest[order[i]].ctx == ctx {
          return true;
        }
      }
      found := false;
    }

    // -------------------------------------------------------------- partner calls

    /** Create on the partner: apply on the host's API, or the REST client's request. */
    method CreateRemote(ref: Ref, cr: Cr, o: Oracle) returns (answered: Cr, res: Result)
      requires ref in guest
      modifies this
      ensures feds == old(feds)
      ensures var happened := o.call.effect || !o.call.err; var isRest := cr.ctx in rest;
        && answered == Answered(cr, isRest, o) && res == CallResult(o)
        && host == (if happened && !isRest then ApplyMirror(old(host), cr.spec, cr.ctx) else old(host))
        && created == (if happened then old(created) + {ref} else old(created))
        && log == (if happened && !isRest then old(log) + [Applied(HostRefOf(cr.spec, cr.ctx), cr.spec, cr.ctx)]
                   else old(log))
        && guest == (if isRest && o.call.early then old(guest)[ref := old(guest)[ref].(phase := answered.phase)]
                     else old(guest))
      ensures watched == Rewatch(old(watched), WatchedAs(ref, cr.ctx),
        if cr.ctx in rest || o.call.err || HostRefOf(cr.spec, cr.ctx) in old(host) then Keeps else Starts)
    {
      answered := cr;
      if cr.ctx in rest {
        if o.call.phase != Unset {
          answered := answered.(phase := o.call.phase);
        }
        if o.call.early {
          guest := guest[ref := guest[ref].(phase := answered.phase)];
        }
      } else if o.call.effect || !o.call.err {
        var hr := HostRefOf(cr.spec, cr.ctx);
        if hr in host {
          host := host[hr := host[hr].(spec := cr.spec, ctx := cr.ctx)];
        } else {
          host := host[hr := Mirror(cr.spec, cr.ctx, false, false, Unset)];
          if !o.call.err {
            watched := watched + {WatchedAs(ref, cr.ctx)};
          }
        }
        log := log + [Applied(hr, cr.spec, cr.ctx)];
      }
      if o.call.effect || !o.call.err {
        created := created + {ref};
      }
      res := if o.call.err then Fails(Fault(o)) else DONE;
    }

    /** Delete on the partner; an absent mirror is no error. */
    method DeleteRemote(ref: Ref, cr: Cr, o: Oracle) returns (answered: Cr, res: Result)
      requires ref in guest
      modifies this`host, this`guest, this`watched
      ensures watched == Rewatch(old(watched), WatchedAs(ref, cr.ctx),
        if cr.ctx in rest || o.call.err then Keeps else Stops)
      ensures host == if cr.ctx !in rest && (o.call.effect || !o.call.err)
                      then DeleteMirror(old(host), HostRefOf(cr.spec, cr.ctx)) else old(host)
      ensures answered == Answered(cr, cr.ctx in rest, o) && res == CallResult(o)
      ensures guest == if cr.ctx in rest && o.call.early
                       then old(guest)[ref := old(guest)[ref].(phase := answered.phase)] else old(guest)
    {
      answered := cr;
      if cr.ctx in rest {
        if o.call.phase != Unset {
          answered := answered.(phase := o.call.phase);
        }
        if o.call.early {
          guest := guest[ref := guest[ref].(phase := answered.phase)];
        }
      } else if o.call.effect || !o.call.err {
        var hr := HostRefOf(cr.spec, cr.ctx);
        if hr in host {
          if host[hr].finalizer {
            host := host[hr := host[hr].(deleting := true)];
          } else {
            host := host - {hr};
          }
        }
        if !o.call.err {
          watched := watched - {WatchedAs(ref, cr.ctx)};
        }
      }
      res := if o.call.err then Fails(Fault(o)) else DONE;
    }

    /** Copy the mirror's status on the Kubernetes path. */
    method UpdateStatus(cr: Cr, o: Oracle) returns (synced: Cr, res: Result)
      ensures synced == SyncBody(State(), cr, o).cr && res == SyncBody(State(), cr, o).res
    {
      synced, res := cr, DONE;
      if cr.ctx !in rest {
        var hr := HostRefOf(cr.spec, cr.ctx);
        if o.call.err {
          res := Fails(Fault(o));
        } else if hr !in host {
          res := Fails(Permanent);
        } else {
          synced := cr.(phase := host[hr].phase);
        }
      }
    }

    // -------------------------------------------------------------- write-back

    /** The metadata patch, if label or finalizer changed. An object being deleted goes
        with its finalizer. `base` is the store as it was, `stored` the resource in it. */
    method PatchMetadata(ref: Ref, original: Cr, cr: Cr, metaOk: bool, ghost base: map<Ref, Cr>, ghost stored: Cr)
      returns (patch: MetaPatch)
      requires guest == base[ref := stored]
      modifies this`guest, this`created
      ensures patch == if cr.tag == original.tag && cr.finalizer == original.finalizer then Unchanged
                       else if !metaOk then Rejected
                       else if original.deleting && !cr.finalizer then Gone else Patched
      ensures guest == match patch
        case Gone => base - {ref}
        case Patched => base[ref := stored.(tag := cr.tag, finalizer := cr.finalizer)]
        case _ => base[ref := stored]
      ensures created == if patch == Gone then old(created) - {ref} else old(created)
    {
      var metaChanged := cr.tag != original.tag || cr.finalizer != original.finalizer;
      if !metaChanged {
        return Unchanged;
      }
      if !metaOk {
        return Rejected;
      }
      if original.deleting && !cr.finalizer {
        guest := guest - {ref};
        created := created - {ref};
        return Gone;
      }
      guest := guest[ref := guest[ref].(tag := cr.tag, finalizer := cr.finalizer)];
      patch := Patched;
    }

    /** The status patch. */
    method PatchStatus(ref: Ref, phase: Phase, statusOk: bool, ghost base: map<Ref, Cr>, ghost stored: Cr)
      requires guest == base[ref := stored]
      modifies this`guest
      ensures guest == base[ref := if statusOk then stored.(phase := phase) else stored]
    {
      if statusOk {
        guest := guest[ref := guest[ref].(phase := phase)];
      }
    }

    /** The deferred function of every reconciler. `w` and `a` are the world at the
        start of the reconcile and what its body did since. */
    method Deferred(ref: Ref, original: Cr, cr0: Cr, res: Result, o: Oracle, ghost w: World, ghost a: Attempt)
      returns (reply: Reply)
      requires ref in w.guest && original == w.guest[ref] && cr0 == a.cr && res == a.res
      requires feds == w.feds && rest == w.rest && host == a.host && created == a.created && log == a.log
      requires guest == if a.early then w.guest[ref := original.(phase := a.cr.phase)] else w.guest
      modifies this`guest, this`created
      ensures State() == WriteBack(w, ref, a, o) && reply == ReplyOf(original, a, o)
    {
      var cr := cr0;
      reply := Reply(res.after, res.err != NoErr, res.aborted);
      var isDeleting := original.deleting;
      if res.err != NoErr && !isDeleting {
        if res.err == Permanent {
          cr := cr.(phase := Failed);
        }
      }
      ghost var stored := if a.early then original.(phase := a.cr.phase) else original;
      SettleMap(w.guest, ref);
      var patch := PatchMetadata(ref, original, cr, o.metaOk, w.guest, stored);
      if patch == Rejected {
        reply := reply.(failed := true);
      } else if patch != Gone && !isDeleting {
        PatchStatus(ref, cr.phase, o.statusOk, w.guest, stored.(tag := cr.tag, finalizer := cr.finalizer));
        reply := reply.(failed := reply.failed || !o.statusOk);
      }
      WroteBack(w, ref, a, o, stored, cr, patch, guest, created);
    }

    // -------------------------------------------------------------- reconcilers

    predicate Typed(ref: Ref, cr: Cr, kind: Kind)
      reads this
    {
      ref in guest && cr == guest[ref] && ref.kind == kind && KindOf(cr.spec) == kind
    }

    /** What was done to the stores since `w` is what the attempt says. */
    ghost predicate Done(w: World, was: set<string>, ref: Ref, a: Attempt, cr: Cr, res: Result)
      requires ref in w.guest
      reads this
    {
      && cr == a.cr && res == a.res
      && watched == Rewatch(was, WatchedAs(ref, w.guest[ref].ctx), a.watch)
      && feds == w.feds && host == a.host && created == a.created && log == a.log
      && guest == if a.early then w.guest[ref := w.guest[ref].(phase := a.cr.phase)] else w.guest
    }

    /** The part before the kinds differ: find the federation, check its state, and see
        which branch the resource is in. */
    method Admit(cr: Cr, o: Oracle) returns (turn: Turn)
      ensures turn == TurnOf(State(), cr, o)
    {
      if !o.listFeds {
        return Refused(Fault(o));
      }
      var l := GetFederationByContextId(cr.ctx);
      if !l.OneFed? {
        return Refused(Permanent);
      }
      var open := CheckFederationState(l.fed);
      if !open {
        return Closed;
      }
      if cr.deleting {
        return Delete;
      }
      if !cr.finalizer {
        return Finalize;
      }
      turn := if cr.phase == Unset then Create else Sync;
    }

    method DeleteImage(ref: Ref, original: Cr, o: Oracle) returns (image: Cr, res: Result)
      requires Valid() && Lists(o) && Typed(ref, original, Image)
      modifies this`host, this`guest, this`watched
      ensures Done(old(State()), old(watched), ref, DeleteBody(old(State()), ref, original, o), image, res)
    {
      image, res := original, DONE;
      if !o.listDependents {
        return image, Fails(Fault(o));
      }
      var hasDependents := ResourcesDependOnImage(image.ctx, image.spec.imageId, o.order);
      if hasDependents {
        res := Again(SOON);
        return;
      }
      image, res := DeleteRemote(ref, image, o);
      if res.err == NoErr {
        image := image.(finalizer := false);
      }
    }

    method CreateImage(ref: Ref, original: Cr, o: Oracle) returns (image: Cr, res: Result)
      requires Typed(ref, original, Image)
      modifies this
      ensures Done(old(State()), old(watched), ref, CreateBody(old(State()), ref, original, o), image, res)
    {
      res := DONE;
      image := original.(phase := Pending);
      image := image.(tag := Some(ScopedKey(IdOf(image.spec), image.ctx)));
      image, res := CreateRemote(ref, image, o);
    }

    /** The reconciler up to its return. */
    method ImageBody(ref: Ref, original: Cr, o: Oracle) returns (image: Cr, res: Result)
      requires Valid() && Lists(o) && Typed(ref, original, Image)
      modifies this
      ensures Done(old(State()), old(watched), ref, Body(old(State()), ref, original, o), image, res)
    {
      image, res := original, DONE;
      BodyByTurn(State(), ref, original, o);
      var turn := Admit(image, o);
      match turn {
        case Refused(e) => res := Fails(e);
        case Closed =>
        case Delete => image, res := DeleteImage(ref, original, o);
        case Finalize => image := image.(finalizer := true);
        case Create => image, res := CreateImage(ref, original, o);
        case Sync => image, res := UpdateStatus(image, o);
      }
    }

    method ReconcileImage(name: string, o: Oracle) returns (reply: Reply)
      requires Valid() && Lists(o)
      modifies this
      ensures Valid() && State() == ReconcileStep(old(State()), Ref(Image, name), o)
      ensures reply == ReconcileReply(old(State()), Ref(Image, name), o)
      ensures watched == old(WatchedAfter(Ref(Image, name), o))
    {
      var ref := Ref(Image, name);
      reply := Reply(0, !o.get, false);
      if o.get && ref in guest {
        var original := guest[ref];
        ghost var w := State();
        var image, res := ImageBody(ref, original, o);
        reply := Deferred(ref, original, image, res, o, w, Body(w, ref, original, o));
        StepKeepsKinds(w, ref, o);
      }
    }

    method DeleteArtefact(ref: Ref, original: Cr, o: Oracle) returns (art: Cr, res: Result)
      requires Valid() && Lists(o) && Typed(ref, original, Artefact)
      modifies this`host, this`guest, this`watched
      ensures Done(old(State()), old(watched), ref, DeleteBody(old(State()), ref, original, o), art, res)
    {
      art, res := original, DONE;
      if !o.listDependents {
        return art, Fails(Fault(o));
      }
      var hasDependents := ResourcesDependOnArtefact(art.ctx, art.spec.artefactId, o.order);
      if hasDependents {
        res := Again(SOON);
        return;
      }
      art, res := DeleteRemote(ref, art, o);
      if res.err == NoErr {
        art := art.(finalizer := false);
      }
    }

    method CreateArtefact(ref: Ref, original: Cr, o: Oracle) returns (art: Cr, res: Result)
      requires Typed(ref, original, Artefact)
      modifies this
      ensures Done(old(State()), old(watched), ref, CreateBody(old(State()), ref, original, o), art, res)
    {
      res := DONE;
      art := original.(phase := Pending);
      art := art.(tag := Some(ScopedKey(IdOf(art.spec), art.ctx)));
      if art.spec.body.None? {
        res := ABORTED;
        return;
      }
      var gate := ArtefactGate(art.spec.body.value, art.ctx, o);
      if gate != Pass {
        return art, GateVerdict(gate, o);
      }
      art, res := CreateRemote(ref, art, o);
    }

    /** The reconciler up to its return. */
    method ArtefactBody(ref: Ref, original: Cr, o: Oracle) returns (art: Cr, res: Result)
      requires Valid() && Lists(o) && Typed(ref, original, Artefact)
      modifies this
      ensures Done(old(State()), old(watched), ref, Body(old(State()), ref, original, o), art, res)
    {
      art, res := original, DONE;
      BodyByTurn(State(), ref, original, o);
      var turn := Admit(art, o);
      match turn {
        case Refused(e) => res := Fails(e);
        case Closed =>
        case Delete => art, res := DeleteArtefact(ref, original, o);
        case Finalize => art := art.(finalizer := true);
        case Create => art, res := CreateArtefact(ref, original, o);
        case Sync => art, res := UpdateStatus(art, o);
      }
    }

    method ReconcileArtefact(name: string, o: Oracle) returns (reply: Reply)
      requires Valid() && Lists(o)
      modifies this
      ensures Valid() && State() == ReconcileStep(old(State()), Ref(Artefact, name), o)
      ensures reply == ReconcileReply(old(State()), Ref(Artefact, name), o)
      ensures watched == old(WatchedAfter(Ref(Artefact, name), o))
    {
      var ref := Ref(Artefact, name);
      reply := Reply(0, !o.get, false);
      if o.get && ref in guest {
        var original := guest[ref];
        ghost var w := State();
        var art, res := ArtefactBody(ref, original, o);
        reply := Deferred(ref, original, art, res, o, w, Body(w, ref, original, o));
        StepKeepsKinds(w, ref, o);
      }
    }

    method DeleteOnboarding(ref: Ref, original: Cr, o: Oracle) returns (onboard: Cr, res: Result)
      requires Valid() && Lists(o) && Typed(ref, original, Onboarding)
      modifies this`host, this`guest, this`watched
      ensures Done(old(State()), old(watched), ref, DeleteBody(old(State()), ref, original, o), onboard, res)
    {
      onboard, res := original, DONE;
      if !o.listDependents {
        return onboard, Fails(Fault(o));
      }
      var hasDependents := ResourcesDependOnApplicationOnboarding(onboard.ctx, onboard.spec.appId, o.order);
      if hasDependents {
        res := Again(SOON);
        return;
      }
      onboard, res := DeleteRemote(ref, onboard, o);
      if res.err == NoErr {
        onboard := onboard.(finalizer := false);
      }
    }

    method CreateOnboarding(ref: Ref, original: Cr, o: Oracle) returns (onboard: Cr, res: Result)
      requires Typed(ref, original, Onboarding)
      modifies this
      ensures Done(old(State()), old(watched), ref, CreateBody(old(State()), ref, original, o), onboard, res)
    {
      res := DONE;
      onboard := original.(phase := Pending);
      var gate := OnboardingGate(onboard.spec.components, onboard.ctx, o);
      if gate != Pass {
        return onboard, GateVerdict(gate, o);
      }
      onboard, res := CreateRemote(ref, onboard, o);
      if res.err == NoErr {
        onboard := onboard.(tag := Some(ScopedKey(onboard.spec.appId, onboard.ctx)));
      }
    }

    /** The reconciler up to its return. */
    method OnboardingBody(ref: Ref, original: Cr, o: Oracle) returns (onboard: Cr, res: Result)
      requires Valid() && Lists(o) && Typed(ref, original, Onboarding)
      modifies this
      ensures Done(old(State()), old(watched), ref, Body(old(State()), ref, original, o), onboard, res)
    {
      onboard, res := original, DONE;
      BodyByTurn(State(), ref, original, o);
      var turn := Admit(onboard, o);
      match turn {
        case Refused(e) => res := Fails(e);
        case Closed =>
        case Delete => onboard, res := DeleteOnboarding(ref, original, o);
        case Finalize => onboard := onboard.(finalizer := true);
        case Create => onboard, res := CreateOnboarding(ref, original, o);
        case Sync => onboard, res := UpdateStatus(onboard, o);
      }
    }

    method ReconcileOnboarding(name: string, o: Oracle) returns (reply: Reply)
      requires Valid() && Lists(o)
      modifies this
      ensures Valid() && State() == ReconcileStep(old(State()), Ref(Onboarding, name), o)
      ensures reply == ReconcileReply(old(State()), Ref(Onboarding, name), o)
      ensures watched == old(WatchedAfter(Ref(Onboarding, name), o))
    {
      var ref := Ref(Onboarding, name);
      reply := Reply(0, !o.get, false);
      if o.get && ref in guest {
        var original := guest[ref];
        ghost var w := State();
        var onboard, res := OnboardingBody(ref, original, o);
        reply := Deferred(ref, original, onboard, res, o, w, Body(w, ref, original, o));
        StepKeepsKinds(w, ref, o);
      }
    }

    method DeleteDeployment(ref: Ref, original: Cr, o: Oracle) returns (deploy: Cr, res: Result)
      requires Typed(ref, original, Deployment)
      modifies this`host, this`guest, this`watched
      ensures Done(old(State()), old(watched), ref, DeleteBody(old(State()), ref, original, o), deploy, res)
    {
      deploy := original;
      deploy, res := DeleteRemote(ref, deploy, o);
      if res.err == NoErr {
        deploy := deploy.(finalizer := false);
      }
    }

    method CreateDeployment(ref: Ref, original: Cr, o: Oracle) returns (deploy: Cr, res: Result)
      requires Typed(ref, original, Deployment)
      modifies this
      ensures Done(old(State()), old(watched), ref, CreateBody(old(State()), ref, original, o), deploy, res)
    {
      res := DONE;
      deploy := original.(phase := Pending);
      var gate := DeploymentGate(deploy.spec.ofApp, deploy.spec.zone, deploy.ctx, o);
      if gate != Pass {
        return deploy, GateVerdict(gate, o);
      }
      deploy, res := CreateRemote(ref, deploy, o);
      if res.err == NoErr {
        deploy := deploy.(tag := Some(DeploymentKey(deploy.ctx, deploy.spec.ofApp, deploy.spec.instanceId)));
      }
    }

    /** The reconciler up to its return. */
    method DeploymentBody(ref: Ref, original: Cr, o: Oracle) returns (deploy: Cr, res: Result)
      requires Valid() && Lists(o) && Typed(ref, original, Deployment)
      modifies this
      ensures Done(old(State()), old(watched), ref, Body(old(State()), ref, original, o), deploy, res)
    {
      deploy, res := original, DONE;
      BodyByTurn(State(), ref, original, o);
      var turn := Admit(deploy, o);
      match turn {
        case Refused(e) => res := Fails(e);
        case Closed =>
        case Delete => deploy, res := DeleteDeployment(ref, original, o);
        case Finalize => deploy := deploy.(finalizer := true);
        case Create => deploy, res := CreateDeployment(ref, original, o);
        case Sync => deploy, res := UpdateStatus(deploy, o);
      }
    }

    method ReconcileDeployment(name: string, o: Oracle) returns (reply: Reply)
      requires Valid() && Lists(o)
      modifies this
      ensures Valid() && State() == ReconcileStep(old(State()), Ref(Deployment, name), o)
      ensures reply == ReconcileReply(old(State()), Ref(Deployment, name), o)
      ensures watched == old(WatchedAfter(Ref(Deployment, name), o))
    {
      var ref := Ref(Deployment, name);
      reply := Reply(0, !o.get, false);
      if o.get && ref in guest {
        var original := guest[ref];
        ghost var w := State();
        var deploy, res := DeploymentBody(ref, original, o);
        reply := Deferred(ref, original, deploy, res, o, w, Body(w, ref, original, o));
        StepKeepsKinds(w, ref, o);
      }
    }

    method DeleteZone(ref: Ref, original: Cr, o: Oracle) returns (zone: Cr, res: Result)
      requires Valid() && Lists(o) && Typed(ref, original, Zone)
      modifies this`host, this`guest, this`watched
      ensures Done(old(State()), old(watched), ref, DeleteBody(old(State()), ref, original, o), zone, res)
    {
      zone, res := original, DONE;
      if !o.listDependents {
        return zone, Fails(Fault(o));
      }
      var hasDependents := ResourcesDependOnAvailabilityZone(zone.ctx, zone.spec.zoneId, o.order);
      if hasDependents {
        res := Again(SOON);
        return;
      }
      zone, res := DeleteRemote(ref, zone, o);
      if res.err == NoErr {
        zone := zone.(finalizer := false);
      }
    }

    method CreateZone(ref: Ref, original: Cr, o: Oracle) returns (zone: Cr, res: Result)
      requires Typed(ref, original, Zone)
      modifies this
      ensures Done(old(State()), old(watched), ref, CreateBody(old(State()), ref, original, o), zone, res)
    {
      res := DONE;
      zone := original.(phase := NotAvailable);
      zone := zone.(tag := Some(ScopedKey(IdOf(zone.spec), zone.ctx)));
      zone, res := CreateRemote(ref, zone, o);
    }

    /** The reconciler up to its return. */
    method ZoneBody(ref: Ref, original: Cr, o: Oracle) returns (zone: Cr, res: Result)
      requires Valid() && Lists(o) && Typed(ref, original, Zone)
      modifies this
      ensures Done(old(State()), old(watched), ref, Body(old(State()), ref, original, o), zone, res)
    {
      zone, res := original, DONE;
      BodyByTurn(State(), ref, original, o);
      var turn := Admit(zone, o);
      match turn {
        case Refused(e) => res := Fails(e);
        case Closed =>
        case Delete => zone, res := DeleteZone(ref, original, o);
        case Finalize => zone := zone.(finalizer := true);
        case Create => zone, res := CreateZone(ref, original, o);
        case Sync => zone, res := UpdateStatus(zone, o);
      }
    }

    method ReconcileZone(name: string, o: Oracle) returns (reply: Reply)
      requires Valid() && Lists(o)
      modifies this
      ensures Valid() && State() == ReconcileStep(old(State()), Ref(Zone, name), o)
      ensures reply == ReconcileReply(old(State()), Ref(Zone, name), o)
      ensures watched == old(WatchedAfter(Ref(Zone, name), o))
    {
      var ref := Ref(Zone, name);
      reply := Reply(0, !o.get, false);
      if o.get && ref in guest {
        var original := guest[ref];
        ghost var w := State();
        var zone, res := ZoneBody(ref, original, o);
        reply := Deferred(ref, original, zone, res, o, w, Body(w, ref, original, o));
        StepKeepsKinds(w, ref, o);
      }
    }

    /** The same reconcilers on a mirror in the host cluster: no dependents are checked
        and no partner is called. */
    method ReconcileHost(hr: HostRef, view: FedView, metaOk: bool, statusOk: bool) returns (reply: Reply)
      modifies this`host, this`log
      ensures State() == HostReconcileStep(old(State()), hr, view, metaOk, statusOk)
      ensures reply == HostReply(old(State()), hr, view, metaOk, statusOk)
    {
      reply := Reply(0, false, false);
      if hr !in host {
        return;
      }
      var mirror := host[hr];
      var patchFailed := !mirror.deleting && !statusOk;
      match view
      case HostFedError(err) =>
        reply := Reply(0, true, false);
        if err == Permanent && !mirror.deleting && statusOk {
          StoreHost(hr, Failed);
        }
      case HostFedClosed => reply := Reply(0, patchFailed, false);
      case HostFedOpen =>
        if mirror.deleting {
          reply := Reply(0, !metaOk, false);
          if metaOk {
            host := host - {hr};
          }
        } else if !mirror.finalizer {
          reply := Reply(0, !metaOk || patchFailed, false);
          if metaOk {
            host := host[hr := mirror.(finalizer := true)];
          }
        } else if mirror.phase == Unset {
          // the label is patched first, so a failed metadata patch stores no state
          reply := Reply(0, !metaOk || patchFailed, false);
          if metaOk && statusOk {
            StoreHost(hr, Initial(hr.kind));
          }
        } else {
          reply := Reply(0, patchFailed, false);
        }
    }

    method StoreHost(hr: HostRef, phase: Phase)
      requires hr in host
      modifies this`host, this`log
      ensures State() == StoreHostState(old(State()), hr, phase)
    {
      host := host[hr := host[hr].(phase := phase)];
      log := log + [HostState(hr, phase)];
    }

    /** The deletion branch of the federation reconciler. */
    method ReconcileFederationDeletion(index: nat, o: Oracle) returns (reply: Reply)
      requires Lists(o)
      modifies this`feds
      ensures State() == FederationStep(old(State()), index, o)
      ensures index < |old(feds)| && old(feds)[index].deleting && old(feds)[index].finalizer ==>
        reply == FederationReply(old(State()), index, o)
    {
      reply := Reply(0, true, false);
      if !o.get || index >= |feds| || !feds[index].deleting || !feds[index].finalizer {
        return;
      }
      var fed := feds[index];
      if fed.guest {
        if fed.ctx != "" && !o.listDependents {
          return;
        }
        var hasDependents := ResourcesDependOnFederation(fed.ctx, o.order);
        if hasDependents {
          return Reply(SOON, false, false);
        }
        if o.call.err {
          return;
        }
      }
      if !o.policyOk || !o.metaOk {
        return;
      }
      feds := feds[..index] + feds[index + 1..];
      reply := Reply(0, false, false);
    }
  }

  lemma SettleMap<K, V>(m: map<K, V>, k: K)
    requires k in m
    ensures m[k := m[k]] == m
  {
  }

  /** The write-back, from the resource as last stored and as the body left it. */
  lemma WroteBack(w: World, ref: Ref, a: Attempt, o: Oracle, stored: Cr, cr: Cr, patch: MetaPatch,
                  guest: map<Ref, Cr>, created: set<Ref>)
    requires ref in w.guest
    requires var was := w.guest[ref];
      && stored == (if a.early then was.(phase := a.cr.phase) else was)
      && cr == (if a.res.err == Permanent && !was.deleting then a.cr.(phase := Failed) else a.cr)
      && patch == if cr.tag == was.tag && cr.finalizer == was.finalizer then Unchanged
                  else if !o.metaOk then Rejected
                  else if was.deleting && !cr.finalizer then Gone else Patched
    requires guest == match patch
      case Rejected => w.guest[ref := stored]
      case Gone => w.guest - {ref}
      case _ => w.guest[ref := stored.(tag := cr.tag, finalizer := cr.finalizer,
                                       phase := if !w.guest[ref].deleting && o.statusOk then cr.phase
                                                else stored.phase)]
    requires created == if patch == Gone then a.created - {ref} else a.created
    ensures WriteBack(w, ref, a, o) == World(guest, a.host, w.feds, w.rest, created, a.log)
  {
  }

  predicate Names(guest: map<Ref, Cr>, r: Ref, n: Need, ctx: string) {
    r in guest && guest[r].ctx == ctx && Mentions(guest[r].spec, n)
  }

  method NamesImage(components: seq<seq<string>>, imageId: string) returns (names: bool)
    ensures names <==> Need(Image, imageId) in ComponentNeeds(components)
  {
    ComponentNeedsKind(components, Need(Image, imageId));
    for c := 0 to |components|
      invariant forall images :: images in components[..c] ==> imageId !in images
    {
      for k := 0 to |components[c]|
        invariant imageId !in components[c][..k]
      {
        if components[c][k] == imageId {
          assert components[c] in components;
          return true;
        }
      }
    }
    names := false;
  }

  method NamesArtefact(components: seq<string>, artefactId: string) returns (names: bool)
    ensures names <==> Need(Artefact, artefactId) in ArtefactNeeds(components)
  {
    ArtefactNeedsKind(components, Need(Artefact, artefactId));
    for c := 0 to |components|
      invariant artefactId !in components[..c]
    {
      if components[c] == artefactId {
        return true;
      }
    }
    names := false;
  }

  function GateVerdict(g: GateResult, o: Oracle): Result {
    match g
    case Pass => DONE
    case NotYet(after) => Again(after)
    case Abort => ABORTED
    case ListError => Fails(Fault(o))
  }

  lemma ImageNeedsStep(images: seq<string>, k: nat, later: seq<Need>)
    requires k < |images|
    ensures var needs := ImageNeeds(images[k..]) + later;
      needs != [] && needs[0] == Need(Image, images[k]) && needs[1..] == ImageNeeds(images[k + 1..]) + later
  {
    assert images[k..][1..] == images[k + 1..];
  }

  lemma ComponentNeedsStep(components: seq<seq<string>>, i: nat)
    requires i < |components|
    ensures ComponentNeeds(components[i..]) == ImageNeeds(components[i]) + ComponentNeeds(components[i + 1..])
  {
    assert components[i..][1..] == components[i + 1..];
  }

  lemma ArtefactNeedsStep(components: seq<string>, i: nat)
    requires i < |components|
    ensures var needs := ArtefactNeeds(components[i..]);
      needs != [] && needs[0] == Need(Artefact, components[i]) && needs[1..] == ArtefactNeeds(components[i + 1..])
  {
    assert components[i..][1..] == components[i + 1..];
  }

  /** Watch keys do not say the kind: a reconcile that stops the watcher of its resource
      stops that of another one exactly when both have one name in one namespace. */
  lemma StopsAnother(operator: Operator, ref: Ref, ctx: string, other: Ref, otherCtx: string, watched: set<string>)
    requires '/' !in operator.spaces(ctx) && '/' !in operator.spaces(otherCtx)
    requires operator.WatchedAs(other, otherCtx) in watched
    ensures operator.WatchedAs(other, otherCtx) !in Rewatch(watched, operator.WatchedAs(ref, ctx), Stops) <==>
            ref.name == other.name && operator.spaces(ctx) == operator.spaces(otherCtx)
  {
    Watchers.WatchKeyInjective(operator.spaces(ctx), ref.name, operator.spaces(otherCtx), other.name);
  }

  lemma BodyByTurn(w: World, ref: Ref, cr: Cr, o: Oracle)
    ensures Body(w, ref, cr, o) ==
      match TurnOf(w, cr, o)
      case Refused(e) => Quiet(w, cr, Fails(e))
      case Closed => Quiet(w, cr, DONE)
      case Delete => DeleteBody(w, ref, cr, o)
      case Finalize => Quiet(w, cr.(finalizer := true), DONE)
      case Create => CreateBody(w, ref, cr, o)
      case Sync => SyncBody(w, cr, o)
  {
  }

  lemma StepKeepsKinds(w: World, ref: Ref, o: Oracle)
    requires forall r :: r in w.guest ==> KindOf(w.guest[r].spec) == r.kind
    ensures var w' := ReconcileStep(w, ref, o); forall r :: r in w'.guest ==> KindOf(w'.guest[r].spec) == r.kind
  {
  }

  lemma LabelledStep(order: seq<Ref>, i: nat, guest: map<Ref, Cr>, kind: Kind, key: string)
    requires i < |order|
    ensures var r := order[i];
      Labelled(order[i..], guest, kind, key) ==
      (if r in guest && r.kind == kind && guest[r].tag == Some(key) then [r] else []) +
      Labelled(order[i + 1..], guest, kind, key)
  {
    assert order[i..][1..] == order[i + 1..];
  }

  /** Only one kind of resource names a given kind of dependency. */
  lemma OnlyKindMentions(n: Need)
    ensures forall spec :: Mentions(spec, n) ==>
      match n.kind
      case Image => spec.ArtefactSpec? && spec.body.Some?
      case Artefact => spec.OnboardingSpec?
      case Onboarding => spec.DeploymentSpec? && spec.ofApp == n.id
      case Zone => spec.DeploymentSpec? && spec.zone == n.id
      case Deployment => false
  {
    forall spec | Mentions(spec, n)
      ensures match n.kind
      case Image => spec.ArtefactSpec? && spec.body.Some?
      case Artefact => spec.OnboardingSpec?
      case Onboarding => spec.DeploymentSpec? && spec.ofApp == n.id
      case Zone => spec.DeploymentSpec? && spec.zone == n.id
      case Deployment => false
    {
      if spec.ArtefactSpec? && spec.body.Some? {
        ComponentNeedsKind(spec.body.value, n);
      } else if spec.OnboardingSpec? {
        ArtefactNeedsKind(spec.components, n);
      }
    }
  }
}
