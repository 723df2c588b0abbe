/** The data of the mirrored-resource protocol: guest custom resources, their
    mirrors on the host, federations, and the history of a run. */
module Model {
  import opened Basics
  import opened Naming

  datatype Kind = Image | Artefact | Onboarding | Deployment | Zone

  /** `Unset` is the empty state; `Failed` stands for ERROR and FAILED. */
  datatype Phase =
    | Unset | Pending | Ready | Onboarded | Available | NotAvailable | Failed
    | Unknown | Deboarding | Removed | Terminating | Locked | TemporaryFailure

  /** The parts of a specification the reconcilers read. Specifications are immutable. */
  datatype Spec =
    | ImageSpec(imageId: string)
    | ArtefactSpec(artefactId: string, body: Option<seq<seq<string>>>)  // image ids, by component
    | OnboardingSpec(appId: string, components: seq<string>)            // artefact ids
    | DeploymentSpec(ofApp: string, instanceId: string, zone: string)
    | ZoneSpec(zoneId: string)

  /** Name of a custom resource within the guest namespace. */
  datatype Ref = Ref(kind: Kind, name: string)

  /** A guest custom resource as stored; `tag` is its resource-id label. */
  datatype Cr = Cr(
    spec: Spec, ctx: string, finalizer: bool, deleting: bool, tag: Option<string>, phase: Phase)

  /** Name of a mirror in the partner's namespace. */
  datatype HostRef = HostRef(kind: Kind, key: string)

  datatype Mirror = Mirror(spec: Spec, ctx: string, finalizer: bool, deleting: bool, phase: Phase)

  datatype Fed = Fed(ctx: string, phase: Phase, guest: bool, deleting: bool, finalizer: bool)

  /** What a run leaves behind for the history properties. */
  datatype Event =
    | Applied(hr: HostRef, spec: Spec, ctx: string)  // a guest created or updated a mirror
    | HostState(hr: HostRef, phase: Phase)           // the host stored this state on a mirror

  /** `rest` are the contexts reached over REST, fixed for a run; the others are
      reached through the host's Kubernetes API and are the ones with mirrors in
      `host`. `created` are the stored guest resources whose creation took effect
      on the partner. */
  datatype World = World(
    guest: map<Ref, Cr>, host: map<HostRef, Mirror>, feds: seq<Fed>, rest: set<string>,
    created: set<Ref>, log: seq<Event>)

  /** Something a resource names: a kind and an id in the same context. */
  datatype Need = Need(kind: Kind, id: string)

  function KindOf(spec: Spec): Kind {
    match spec
    case ImageSpec(_) => Image
    case ArtefactSpec(_, _) => Artefact
    case OnboardingSpec(_, _) => Onboarding
    case DeploymentSpec(_, _, _) => Deployment
    case ZoneSpec(_) => Zone
  }

  function IdOf(spec: Spec): string {
    match spec
    case ImageSpec(id) => id
    case ArtefactSpec(id, _) => id
    case OnboardingSpec(id, _) => id
    case DeploymentSpec(_, id, _) => id
    case ZoneSpec(id) => id
  }

  function KeyOf(spec: Spec, ctx: string): string {
    if spec.DeploymentSpec? then DeploymentKey(ctx, spec.ofApp, spec.instanceId)
    else ScopedKey(IdOf(spec), ctx)
  }

  function HostRefOf(spec: Spec, ctx: string): HostRef {
    HostRef(KindOf(spec), KeyOf(spec, ctx))
  }

  /** State a reconciler gives a new resource. */
  function Initial(kind: Kind): Phase {
    if kind == Zone then NotAvailable else Pending
  }

  /** State a dependency must have before its dependent is created. */
  function Wanted(kind: Kind): Phase {
    match kind
    case Onboarding => Onboarded
    case Zone => Available
    case _ => Ready
  }

  function ImageNeeds(images: seq<string>): seq<Need> {
    if images == [] then [] else [Need(Image, images[0])] + ImageNeeds(images[1..])
  }

  function ComponentNeeds(components: seq<seq<string>>): seq<Need> {
    if components == [] then [] else ImageNeeds(components[0]) + ComponentNeeds(components[1..])
  }

  function ArtefactNeeds(components: seq<string>): seq<Need> {
    if components == [] then [] else [Need(Artefact, components[0])] + ArtefactNeeds(components[1..])
  }

  /** What a resource names, in the order in which the creation gate looks it up.
      The zone of a deployment is looked up only on the Kubernetes path. */
  function Needs(spec: Spec, rest: bool): seq<Need> {
    match spec
    case ArtefactSpec(_, Some(components)) => ComponentNeeds(components)
    case OnboardingSpec(_, components) => ArtefactNeeds(components)
    case DeploymentSpec(app, _, zone) =>
      (if rest then [] else [Need(Zone, zone)]) + [Need(Onboarding, app)]
    case _ => []
  }

  /** An artefact without a body cannot pass the gate. */
  predicate HasBody(spec: Spec) {
    spec.ArtefactSpec? ==> spec.body.Some?
  }

  /** Does a resource with this specification name the given dependency? The
      deletion checks ask this with both the zone and the onboarding counted. */
  predicate Mentions(spec: Spec, n: Need) {
    n in Needs(spec, false)
  }

  predicate Provides(ref: Ref, cr: Cr, n: Need, ctx: string) {
    ref.kind == n.kind && IdOf(cr.spec) == n.id && cr.ctx == ctx
  }

  lemma NeedsAreMentioned(spec: Spec, rest: bool, n: Need)
    requires n in Needs(spec, rest)
    ensures Mentions(spec, n)
  {
  }

  lemma {:induction false} ImageNeedsKind(images: seq<string>, n: Need)
    ensures n in ImageNeeds(images) <==> n.kind == Image && n.id in images
  {
    if images != [] {
      ImageNeedsKind(images[1..], n);
    }
  }

  lemma {:induction false} ComponentNeedsKind(components: seq<seq<string>>, n: Need)
    ensures n in ComponentNeeds(components) <==>
            n.kind == Image && exists c :: c in components && n.id in c
  {
    if components != [] {
      ImageNeedsKind(components[0], n);
      ComponentNeedsKind(components[1..], n);
      assert components == [components[0]] + components[1..];
    }
  }

  lemma {:induction false} ArtefactNeedsKind(components: seq<string>, n: Need)
    ensures n in ArtefactNeeds(components) <==> n.kind == Artefact && n.id in components
  {
    if components != [] {
      ArtefactNeedsKind(components[1..], n);
    }
  }

  /** The dependency order: deployments name onboardings and zones, onboardings name
      artefacts, artefacts name images. */
  function Layer(kind: Kind): nat {
    match kind
    case Deployment => 0
    case Onboarding => 1
    case Zone => 1
    case Artefact => 2
    case Image => 3
  }

  lemma NeedsPointUp(spec: Spec, n: Need)
    requires Mentions(spec, n)
    ensures Layer(KindOf(spec)) < Layer(n.kind)
  {
    match spec
    case ArtefactSpec(_, Some(components)) => ComponentNeedsKind(components, n);
    case OnboardingSpec(_, components) => ArtefactNeedsKind(components, n);
    case _ =>
  }
}
