/** One step of the protocol as a function on worlds. A reconcile is one atomic
    step whose reads are fresh; everything the environment decides (failed calls,
    list order, patch outcomes) is in its oracle. */
module Protocol {
  import opened Basics
  import opened Naming
  import opened Model

  /** What the call to the partner does. `effect` says that a failing call took
      effect all the same; a call that reports no error always did. Over REST the
      client also chooses the state it leaves on the resource and whether it stores
      that state at once. */
  datatype Call = Call(effect: bool, err: bool, phase: Phase, early: bool)

  /** `order` is the order in which lists are returned; `gateFail` is the position of
      a dependency lookup that fails, `policyOk` the policy update of a federation. */
  datatype Oracle = Oracle(
    get: bool, listFeds: bool, listDependents: bool, gateFail: Option<nat>, order: seq<Ref>,
    transient: bool, call: Call, policyOk: bool, metaOk: bool, statusOk: bool)

  datatype FedView = HostFedError(err: Err) | HostFedClosed | HostFedOpen

  datatype Step =
    | UserCreate(ref: Ref, spec: Spec, ctx: string)
    | UserDelete(ref: Ref)
    | Reconcile(ref: Ref, o: Oracle)
    | HostReconcile(hr: HostRef, view: FedView, metaOk: bool, statusOk: bool)
    | HostStatus(hr: HostRef, phase: Phase)
    | Callback(ref: Ref, phase: Phase)
    | SetFederations(feds: seq<Fed>)
    | ReconcileFederation(index: nat, o: Oracle)

  // ---------------------------------------------------------------- federations

  datatype Lookup = NoFed | OneFed(fed: Fed) | ManyFeds

  function FedsOf(feds: seq<Fed>, ctx: string): seq<Fed> {
    if feds == [] then []
    else (if feds[0].ctx == ctx then [feds[0]] else []) + FedsOf(feds[1..], ctx)
  }

  function LookupFed(feds: seq<Fed>, ctx: string): Lookup {
    var matched := FedsOf(feds, ctx);
    if |matched| == 0 then NoFed else if |matched| == 1 then OneFed(matched[0]) else ManyFeds
  }

  predicate Open(feds: seq<Fed>, ctx: string) {
    var l := LookupFed(feds, ctx);
    l.OneFed? && l.fed.phase == Available
  }

  /** The unique federation of the context exists and is not AVAILABLE. */
  predicate Frozen(feds: seq<Fed>, ctx: string) {
    var l := LookupFed(feds, ctx);
    l.OneFed? && l.fed.phase != Available
  }

  /** A federation becomes AVAILABLE only with a generated context id. */
  predicate ValidFeds(feds: seq<Fed>) {
    forall f :: f in feds && f.phase == Available ==> |f.ctx| == CONTEXT_ID_LENGTH
  }

  // ---------------------------------------------------------------- lookups

  /** Resources of a kind carrying a label, in list order. */
  function Labelled(order: seq<Ref>, guest: map<Ref, Cr>, kind: Kind, key: string): seq<Ref> {
    if order == [] then []
    else
      var r := order[0];
      (if r in guest && r.kind == kind && guest[r].tag == Some(key) then [r] else []) +
      Labelled(order[1..], guest, kind, key)
  }

  /** `NotYet` asks to be called again; `Abort` is a list indexed while it is empty. */
  datatype GateResult = Pass | NotYet(after: nat) | Abort | ListError

  const SOON: nat := 15
  const LATER: nat := 30

  /** A dependency that is not found: zones and onboardings are waited for. */
  function Absent(kind: Kind): GateResult {
    if kind == Zone || kind == Onboarding then NotYet(LATER) else Abort
  }

  /** The creation gate: each dependency, in order, must be found by label, and the
      first one listed must be in the wanted state. */
  function Gate(needs: seq<Need>, ctx: string, order: seq<Ref>, guest: map<Ref, Cr>, fail: Option<nat>): GateResult {
    if needs == [] then Pass
    else if fail == Some(0) then ListError
    else
      var found := Labelled(order, guest, needs[0].kind, ScopedKey(needs[0].id, ctx));
      if found == [] || found[0] !in guest then Absent(needs[0].kind)
      else if guest[found[0]].phase != Wanted(needs[0].kind) then NotYet(SOON)
      else Gate(needs[1..], ctx, order, guest, if fail.Some? then Some(fail.value - 1) else None)
  }

  /** Some stored resource of the context names this one. */
  predicate HasDependents(guest: map<Ref, Cr>, kind: Kind, id: string, ctx: string) {
    exists r :: r in guest && guest[r].ctx == ctx && Mentions(guest[r].spec, Need(kind, id))
  }

  // ---------------------------------------------------------------- the host's API

  function ApplyMirror(host: map<HostRef, Mirror>, spec: Spec, ctx: string): map<HostRef, Mirror> {
    var hr := HostRefOf(spec, ctx);
    host[hr := if hr in host then host[hr].(spec := spec, ctx := ctx)
               else Mirror(spec, ctx, false, false, Unset)]
  }

  /** Deleting an object that holds a finalizer only marks it. */
  function DeleteMirror(host: map<HostRef, Mirror>, hr: HostRef): map<HostRef, Mirror> {
    if hr !in host then host
    else if host[hr].finalizer then host[hr := host[hr].(deleting := true)]
    else host - {hr}
  }

  // ---------------------------------------------------------------- one reconcile

  /** How the body of a reconcile ends: with an error, with a request to be called again
      after so many seconds (0 is none), or aborted. */
  datatype Result = Result(err: Err, after: nat, aborted: bool)

  const DONE := Result(NoErr, 0, false)

  function Again(after: nat): Result {
    Result(NoErr, after, false)
  }

  function Fails(err: Err): Result {
    Result(err, 0, false)
  }

  const ABORTED := Result(NoErr, 0, true)

  /** What a body does to the remote watcher of its resource. */
  datatype Watch = Keeps | Starts | Stops

  /** What the body of a reconcile leaves for the deferred write-back: the resource
      in memory, its result, and the effects already made. */
  datatype Attempt = Attempt(
    cr: Cr, res: Result, host: map<HostRef, Mirror>, created: set<Ref>, log: seq<Event>, early: bool,
    watch: Watch)

  function Fault(o: Oracle): Err {
    if o.transient then Transient else Permanent
  }

  function Quiet(w: World, cr: Cr, res: Result): Attempt {
    Attempt(cr, res, w.host, w.created, w.log, false, Keeps)
  }

  /** The result of a partner call. */
  function CallResult(o: Oracle): Result {
    if o.call.err then Fails(Fault(o)) else DONE
  }

  /** The state a REST client leaves on the resource. */
  function Answered(cr: Cr, isRest: bool, o: Oracle): Cr {
    if isRest && o.call.phase != Unset then cr.(phase := o.call.phase) else cr
  }

  /** Deletion: blocked while dependents exist, then the partner is told, then the
      finalizer goes. */
  function DeleteBody(w: World, ref: Ref, cr: Cr, o: Oracle): Attempt {
    if ref.kind != Deployment && !o.listDependents then Quiet(w, cr, Fails(Fault(o)))
    else if ref.kind != Deployment && HasDependents(w.guest, ref.kind, IdOf(cr.spec), cr.ctx) then
      Quiet(w, cr, Again(SOON))
    else
      var isRest := cr.ctx in w.rest;
      var host := if !isRest && (o.call.effect || !o.call.err)
                  then DeleteMirror(w.host, HostRefOf(cr.spec, cr.ctx)) else w.host;
      var answered := Answered(cr, isRest, o);
      Attempt(if o.call.err then answered else answered.(finalizer := false),
              CallResult(o), host, w.created, w.log, isRest && o.call.early,
              if isRest || o.call.err then Keeps else Stops)
  }

  /** Images, artefacts and zones get their label before the gate, the other kinds
      after a successful creation. */
  predicate LabelsEarly(kind: Kind) {
    kind == Image || kind == Artefact || kind == Zone
  }

  function WithLabel(cr: Cr): Cr {
    cr.(tag := Some(KeyOf(cr.spec, cr.ctx)))
  }

  /** A new resource: initial state, gate, creation on the partner. */
  function CreateBody(w: World, ref: Ref, cr: Cr, o: Oracle): Attempt {
    var isRest := cr.ctx in w.rest;
    var pending := cr.(phase := Initial(ref.kind));
    var named := if LabelsEarly(ref.kind) then WithLabel(pending) else pending;
    match if HasBody(cr.spec) then Gate(Needs(cr.spec, isRest), cr.ctx, o.order, w.guest, o.gateFail) else Abort
    case ListError => Quiet(w, named, Fails(Fault(o)))
    case NotYet(after) => Quiet(w, named, Again(after))
    case Abort => Quiet(w, named, ABORTED)
    case Pass =>
      var happened := o.call.effect || !o.call.err;
      var answered := Answered(named, isRest, o);
      var host := if happened && !isRest then ApplyMirror(w.host, cr.spec, cr.ctx) else w.host;
      var log := if happened && !isRest then w.log + [Applied(HostRefOf(cr.spec, cr.ctx), cr.spec, cr.ctx)] else w.log;
      var created := if happened then w.created + {ref} else w.created;
      Attempt(if o.call.err then answered else WithLabel(answered), CallResult(o),
              host, created, log, isRest && o.call.early,
              if isRest || o.call.err || HostRefOf(cr.spec, cr.ctx) in w.host then Keeps else Starts)
  }

  /** A known resource: on the Kubernetes path the mirror's status is copied. */
  function SyncBody(w: World, cr: Cr, o: Oracle): Attempt {
    var hr := HostRefOf(cr.spec, cr.ctx);
    if cr.ctx in w.rest then Quiet(w, cr, DONE)
    else if o.call.err then Quiet(w, cr, Fails(Fault(o)))
    else if hr !in w.host then Quiet(w, cr, Fails(Permanent))
    else Quiet(w, cr.(phase := w.host[hr].phase), DONE)
  }

  function Body(w: World, ref: Ref, cr: Cr, o: Oracle): Attempt {
    if !o.listFeds then Quiet(w, cr, Fails(Fault(o)))
    else
      var l := LookupFed(w.feds, cr.ctx);
      if !l.OneFed? then Quiet(w, cr, Fails(Permanent))
      else if l.fed.phase != Available then Quiet(w, cr, DONE)
      else if cr.deleting then DeleteBody(w, ref, cr, o)
      else if !cr.finalizer then Quiet(w, cr.(finalizer := true), DONE)
      else if cr.phase == Unset then CreateBody(w, ref, cr, o)
      else SyncBody(w, cr, o)
  }

  /** The deferred write-back: a permanent error becomes the failed state, metadata is
      patched first, and the status only if that succeeded and the resource is not
      being deleted. An object being deleted disappears with its finalizer. */
  function WriteBack(w: World, ref: Ref, a: Attempt, o: Oracle): World
    requires ref in w.guest
  {
    var was := w.guest[ref];
    var cr := if a.res.err == Permanent && !was.deleting then a.cr.(phase := Failed) else a.cr;
    var stored := if a.early then was.(phase := a.cr.phase) else was;
    var metaChanged := cr.tag != was.tag || cr.finalizer != was.finalizer;
    var w' := w.(host := a.host, created := a.created, log := a.log);
    if metaChanged && !o.metaOk then w'.(guest := w.guest[ref := stored])
    else if was.deleting then
      if metaChanged && !cr.finalizer then w'.(guest := w.guest - {ref}, created := a.created - {ref})
      else w'.(guest := w.guest[ref := stored.(tag := cr.tag, finalizer := cr.finalizer)])
    else
      w'.(guest := w.guest[ref := stored.(tag := cr.tag, finalizer := cr.finalizer,
                                          phase := if o.statusOk then cr.phase else stored.phase)])
  }

  /** What a reconcile returns to the work queue. */
  datatype Reply = Reply(after: nat, failed: bool, aborted: bool)

  /** The reply of the body, failed also when a patch fails. */
  function ReplyOf(was: Cr, a: Attempt, o: Oracle): Reply {
    var metaChanged := a.cr.tag != was.tag || a.cr.finalizer != was.finalizer;
    var patchFailed := (metaChanged && !o.metaOk) || (!was.deleting && !o.statusOk);
    Reply(a.res.after, a.res.err != NoErr || patchFailed, a.res.aborted)
  }

  function ReconcileReply(w: World, ref: Ref, o: Oracle): Reply {
    if !o.get then Reply(0, true, false)
    else if ref !in w.guest then Reply(0, false, false)
    else ReplyOf(w.guest[ref], Body(w, ref, w.guest[ref], o), o)
  }

  /** What a reconcile does to the watcher: an apply that made a new mirror starts it, a
      delete that succeeded or found nothing stops it. */
  function ReconcileWatch(w: World, ref: Ref, o: Oracle): Watch {
    if !o.get || ref !in w.guest then Keeps else Body(w, ref, w.guest[ref], o).watch
  }

  /** The watched keys after that. */
  function Rewatch(watched: set<string>, key: string, watch: Watch): set<string> {
    match watch
    case Keeps => watched
    case Starts => watched + {key}
    case Stops => watched - {key}
  }

  function ReconcileStep(w: World, ref: Ref, o: Oracle): World {
    if !o.get || ref !in w.guest then w
    else WriteBack(w, ref, Body(w, ref, w.guest[ref], o), o)
  }

  // ---------------------------------------------------------------- the host's operator

  /** The same reconciler on the host's copy: no dependents check, no partner call. */
  function HostReconcileStep(w: World, hr: HostRef, view: FedView, metaOk: bool, statusOk: bool): World {
    if hr !in w.host then w
    else
      var m := w.host[hr];
      if view.HostFedClosed? then w
      else if view.HostFedError? then
        if view.err == Permanent && !m.deleting && statusOk then StoreHostState(w, hr, Failed) else w
      else if m.deleting then
        if metaOk then w.(host := w.host - {hr}) else w
      else if !m.finalizer then
        if metaOk then w.(host := w.host[hr := m.(finalizer := true)]) else w
      else if m.phase == Unset && metaOk && statusOk then StoreHostState(w, hr, Initial(hr.kind))
      else w
  }

  function HostReply(w: World, hr: HostRef, view: FedView, metaOk: bool, statusOk: bool): Reply {
    if hr !in w.host then Reply(0, false, false)
    else
      var m := w.host[hr];
      var metaChanged := view.HostFedOpen? && (m.deleting || !m.finalizer || m.phase == Unset);
      Reply(0, view.HostFedError? || (metaChanged && !metaOk) || (!m.deleting && !statusOk), false)
  }

  function StoreHostState(w: World, hr: HostRef, phase: Phase): World
    requires hr in w.host
  {
    w.(host := w.host[hr := w.host[hr].(phase := phase)], log := w.log + [HostState(hr, phase)])
  }

  // ---------------------------------------------------------------- federation deletion

  predicate FedHasDependents(guest: map<Ref, Cr>, ctx: string) {
    ctx != "" && exists r :: r in guest && guest[r].ctx == ctx
  }

  /** The deletion branch of the federation reconciler; a guest calls its partner,
      then either role updates its policy. */
  function FederationStep(w: World, index: nat, o: Oracle): World {
    if !o.get || index >= |w.feds| then w
    else
      var f := w.feds[index];
      if !f.deleting || !f.finalizer then w
      else if f.guest && ((f.ctx != "" && !o.listDependents) || FedHasDependents(w.guest, f.ctx)) then w
      else if (f.guest && o.call.err) || !o.policyOk || !o.metaOk then w
      else w.(feds := w.feds[..index] + w.feds[index + 1..])
  }

  /** What it returns, for a federation whose deletion it handles. */
  function FederationReply(w: World, index: nat, o: Oracle): Reply
    requires index < |w.feds| && w.feds[index].deleting && w.feds[index].finalizer
  {
    var f := w.feds[index];
    if !o.get then Reply(0, true, false)
    else if f.guest && f.ctx != "" && !o.listDependents then Reply(0, true, false)
    else if f.guest && FedHasDependents(w.guest, f.ctx) then Reply(SOON, false, false)
    else Reply(0, (f.guest && o.call.err) || !o.policyOk || !o.metaOk, false)
  }

  // ---------------------------------------------------------------- steps and runs

  /** Steps that are not enabled leave the world as it is. */
  function Next(w: World, step: Step): World {
    match step
    case UserCreate(ref, spec, ctx) =>
      if ref in w.guest || KindOf(spec) != ref.kind then w
      else w.(guest := w.guest[ref := Cr(spec, ctx, false, false, None, Unset)])
    case UserDelete(ref) =>
      if ref !in w.guest then w
      else if w.guest[ref].finalizer then w.(guest := w.guest[ref := w.guest[ref].(deleting := true)])
      else w.(guest := w.guest - {ref})
    case Reconcile(ref, o) => ReconcileStep(w, ref, o)
    case HostReconcile(hr, view, metaOk, statusOk) => HostReconcileStep(w, hr, view, metaOk, statusOk)
    case HostStatus(hr, phase) => if hr in w.host then StoreHostState(w, hr, phase) else w
    case Callback(ref, phase) =>
      if ref in w.guest && w.guest[ref].ctx in w.rest
      then w.(guest := w.guest[ref := w.guest[ref].(phase := phase)]) else w
    case SetFederations(feds) => if ValidFeds(feds) then w.(feds := feds) else w
    case ReconcileFederation(index, o) => FederationStep(w, index, o)
  }

  function Run(w: World, steps: seq<Step>): World {
    if steps == [] then w else Next(Run(w, steps[..|steps| - 1]), steps[|steps| - 1])
  }

  /** Nothing stored yet. */
  predicate Start(w: World) {
    w.guest == map[] && w.host == map[] && w.created == {} && w.log == [] && ValidFeds(w.feds)
  }

  /** The states of all runs. */
  ghost predicate Reachable(w: World) {
    exists w0, steps :: Start(w0) && w == Run(w0, steps)
  }
}
