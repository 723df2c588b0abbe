/** The admission policy that accepts only resources of known federations: computing
    and printing the id list, reading it back, and whole runs of adds and removes. */
module AdmissionPolicy {
  import opened Basics

  datatype Role = Guest | Host

  /** A federation as the policies see it; `policySet` is the annotation with value "set". */
  datatype Member = Member(role: Role, ctx: string, finalizer: bool, policySet: bool, deleting: bool)

  // ---------------------------------------------------------------- the id set

  function SetOf<T(==)>(list: seq<T>): set<T> {
    set x | x in list
  }

  /** Non-empty context ids of the listed federations of a role. */
  function ListedIds(feds: set<Member>, role: Role): set<string> {
    set f | f in feds && f.role == role && f.ctx != "" :: f.ctx
  }

  /** The listed ids, with one forced in or out; `None` on an unknown action, which is
      only looked at when there is an id. */
  function Accepted(feds: set<Member>, role: Role, action: string, id: string): Option<set<string>> {
    if id == "" then Some(ListedIds(feds, role))
    else if action == "remove" then Some(ListedIds(feds, role) - {id})
    else if action == "add" then Some(ListedIds(feds, role) + {id})
    else None
  }

  /** A list of the members, each once, in any order. */
  predicate Enumerates(ids: seq<string>, members: set<string>) {
    && SetOf(ids) == members
    && (forall i, j :: 0 <= i < j < |ids| ==> ids[i] != ids[j])
  }

  // ---------------------------------------------------------------- the printed list

  function Quoted(id: string): string {
    "\"" + id + "\""
  }

  function Join(items: seq<string>, separator: string): string {
    if items == [] then "" else if |items| == 1 then items[0]
    else items[0] + separator + Join(items[1..], separator)
  }

  function QuoteAll(ids: seq<string>): seq<string> {
    seq(|ids|, i requires 0 <= i < |ids| => Quoted(ids[i]))
  }

  function Printed(ids: seq<string>): string {
    "[" + Join(QuoteAll(ids), ",") + "]"
  }

  // ---------------------------------------------------------------- the expression

  datatype Root = OldObject | NewObject

  datatype Field = Spec | RelationType | ContextId

  /** The part of the expression language the policy uses. A list literal keeps its
      text. */
  datatype Expr =
    | Truth
    | Text(value: string)
    | RequestOperation
    | Select(root: Root, field: Field)
    | Has(root: Root, field: Field)
    | Equal(left: Expr, right: Expr)
    | MemberOf(item: Expr, list: string)
    | And(left: Expr, right: Expr)
    | Choose(test: Expr, yes: Expr, no: Expr)

  /** The rule for one of the two objects of a request. */
  function Clause(root: Root, role: string, list: string): Expr {
    And(And(Has(root, Spec), Has(root, RelationType)),
        Choose(Equal(Select(root, RelationType), Text(role)),
               And(Has(root, ContextId), MemberOf(Select(root, ContextId), list)),
               Truth))
  }

  /** Deletions are judged by the old object, everything else by the new one. */
  function Rule(role: string, list: string): Expr {
    Choose(Equal(RequestOperation, Text("DELETE")), Clause(OldObject, role, list), Clause(NewObject, role, list))
  }

  function RoleName(role: Role): string {
    match role
    case Guest => "GUEST"
    case Host => "HOST"
  }

  datatype Operation = CREATE | UPDATE | DELETE

  datatype Resource =
    | Images | Artefacts | Onboardings | Deployments | Monitorings | Zones | Federations

  /** The requests a policy looks at, and its rule for them. */
  datatype Policy = Policy(operations: set<Operation>, resources: set<Resource>, rule: Expr)

  const OPERATIONS: set<Operation> := {CREATE, UPDATE, DELETE}

  /** Zones and federations are not looked at. */
  const RESOURCES: set<Resource> := {Images, Artefacts, Onboardings, Deployments, Monitorings}

  function PolicyOf(role: Role, list: string): Policy {
    Policy(OPERATIONS, RESOURCES, Rule(RoleName(role), list))
  }

  /** The policies stored in the cluster, by name, and their bindings. */
  class PolicyStore {
    var policies: map<string, Policy>
    var bindings: set<string>

    /** `listing` is what the federation list call returned. The iteration order over
        the id set is arbitrary. A failing binding leaves the new policy in place. */
    method FederationContextIdPolicy(listing: Option<seq<Member>>, role: Role, policyName: string,
                                     action: string, id: string, policyOk: bool, bindingOk: bool)
      returns (ok: bool)
      modifies this
      ensures ok <==> listing.Some? && (id != "" ==> action in {"add", "remove"}) && policyOk && bindingOk
      ensures if listing.Some? && (id != "" ==> action in {"add", "remove"}) && policyOk
              then exists ids :: Enumerates(ids, Accepted(SetOf(listing.value), role, action, id).value)
                                 && policies == old(policies)[policyName := PolicyOf(role, Printed(ids))]
              else policies == old(policies)
      ensures bindings == if ok then old(bindings) + {policyName + "-binding"} else old(bindings)
    {
      if listing.None? {
        return false;
      }
      var idMap := CollectIds(listing.value, role);
      if id != "" {
        if action == "remove" {
          idMap := idMap - {id};
        } else if action == "add" {
          idMap := idMap + {id};
        } else {
          return false;
        }
      }
      var text: string;
      ghost var ids: seq<string>;
      text, ids := PrintIds(idMap);
      if !policyOk {
        return false;
      }
      assert Enumerates(ids, Accepted(SetOf(listing.value), role, action, id).value);
      policies := policies[policyName := Policy({CREATE, UPDATE, DELETE},
        {Images, Artefacts, Onboardings, Deployments, Monitorings}, Rule(RoleName(role), text))];
      if !bindingOk {
        return false;
      }
      bindings := bindings + {policyName + "-binding"};
      return true;
    }
  }

  method CollectIds(feds: seq<Member>, role: Role) returns (ids: set<string>)
    ensures ids == ListedIds(SetOf(feds), role)
  {
    ids := {};
    for i := 0 to |feds|
      invariant ids == ListedIds(SetOf(feds[..i]), role)
    {
      assert SetOf(feds[..i + 1]) == SetOf(feds[..i]) + {feds[i]};
      if feds[i].role == role && feds[i].ctx != "" {
        ids := ids + {feds[i].ctx};
      }
    }
    assert feds[..|feds|] == feds;
  }

  method PrintIds(idMap: set<string>) returns (text: string, ghost ids: seq<string>)
    ensures Enumerates(ids, idMap) && text == Printed(ids)
  {
    var listed: seq<string> := [];
    var rest := idMap;
    while rest != {}
      invariant rest <= idMap && Enumerates(listed, idMap - rest)
      decreases rest
    {
      var id :| id in rest;
      assert SetOf(listed + [id]) == SetOf(listed) + {id};
      rest := rest - {id};
      listed := listed + [id];
    }
    ids := listed;
    text := "[]";
    if |listed| > 0 {
      var items: seq<string> := [];
      for i := 0 to |listed|
        invariant items == QuoteAll(listed[..i])
      {
        items := items + [Quoted(listed[i])];
      }
      assert listed[..|listed|] == listed;
      text := "[" + Join(items, ",") + "]";
    }
  }

  // ---------------------------------------------------------------- reading the list

  /** The text before the first quote. */
  function UntilQuote(s: string): (r: string)
    ensures |r| <= |s| && s[..|r|] == r && '\"' !in r
    ensures |r| < |s| ==> s[|r|] == '\"'
  {
    if s == "" || s[0] == '\"' then "" else [s[0]] + UntilQuote(s[1..])
  }

  /** Quoted items up to the closing bracket. A literal with an escape is not read. */
  function ReadItems(s: string): Option<seq<string>>
    decreases |s|
  {
    if s == "" || s[0] != '\"' then None
    else
      var literal := UntilQuote(s[1..]);
      var rest := s[1 + |literal|..];
      if |rest| < 2 || '\\' in literal then None
      else if rest[1..] == "]" then Some([literal])
      else if rest[1] != ',' then None
      else match ReadItems(rest[2..])
        case Some(others) => Some([literal] + others)
        case None => None
  }

  /** A list of string literals as the policy engine reads it. */
  function ReadList(s: string): Option<seq<string>> {
    if s == "[]" then Some([])
    else if s == "" || s[0] != '[' then None
    else ReadItems(s[1..])
  }

  predicate NoQuote(id: string) {
    '\"' !in id && '\\' !in id
  }

  lemma {:induction false} UntilQuoteStops(id: string, rest: string)
    requires '\"' !in id && rest != "" && rest[0] == '\"'
    ensures UntilQuote(id + rest) == id
  {
    if id == "" {
      assert id + rest == rest;
    } else {
      assert id[0] != '\"';
      assert (id + rest)[1..] == id[1..] + rest;
      UntilQuoteStops(id[1..], rest);
    }
  }

  lemma ReadLastItem(id: string)
    requires NoQuote(id)
    ensures ReadItems(Quoted(id) + "]") == Some([id])
  {
    ReadOneSplit(id, "]");
  }

  lemma ReadOneItem(id: string, others: string)
    requires NoQuote(id)
    ensures ReadItems(Quoted(id) + "," + others) ==
            match ReadItems(others) case Some(more) => Some([id] + more) case None => None
  {
    ReadOneSplit(id, "," + others);
    assert Quoted(id) + "," + others == Quoted(id) + ("," + others);
    assert (['\"'] + ("," + others))[2..] == others;
    assert ("," + others)[0] == ',' && "]"[0] == ']';
  }

  lemma ReadOneSplit(id: string, tail: string)
    requires NoQuote(id)
    ensures var s := Quoted(id) + tail;
      && s != "" && s[0] == '\"' && UntilQuote(s[1..]) == id
      && s[1 + |id|..] == ['\"'] + tail && (['\"'] + tail)[1..] == tail
  {
    var s := Quoted(id) + tail;
    assert s[1..] == id + (['\"'] + tail);
    UntilQuoteStops(id, ['\"'] + tail);
  }

  /** What follows the opening bracket. */
  function Items(ids: seq<string>): string {
    Join(QuoteAll(ids), ",") + "]"
  }

  lemma ItemsStep(ids: seq<string>)
    requires ids != []
    ensures Items(ids) == if |ids| == 1 then Quoted(ids[0]) + "]" else Quoted(ids[0]) + "," + Items(ids[1..])
  {
    assert QuoteAll(ids)[0] == Quoted(ids[0]);
    assert QuoteAll(ids)[1..] == QuoteAll(ids[1..]);
    if |ids| > 1 {
      var more := Join(QuoteAll(ids[1..]), ",");
      assert (Quoted(ids[0]) + "," + more) + "]" == Quoted(ids[0]) + "," + (more + "]");
    }
  }

  lemma ReadFirst(id: string, others: seq<string>)
    requires NoQuote(id) && (others != [] ==> ReadItems(Items(others)) == Some(others))
    ensures ReadItems(Items([id] + others)) == Some([id] + others)
  {
    var ids := [id] + others;
    ItemsStep(ids);
    assert ids[1..] == others;
    if others == [] {
      ReadLastItem(id);
      assert ids == [id];
    } else {
      ReadOneItem(id, Items(others));
    }
  }

  lemma {:induction false} ReadItemsOfJoin(ids: seq<string>)
    requires ids != [] && forall id :: id in ids ==> NoQuote(id)
    ensures ReadItems(Items(ids)) == Some(ids)
  {
    var others := ids[1..];
    assert ids == [ids[0]] + others && ids[0] in ids;
    if others != [] {
      ReadItemsOfJoin(others);
    }
    ReadFirst(ids[0], others);
  }

  lemma {:induction false} ReadItemsAreClean(s: string)
    ensures ReadItems(s).Some? ==> forall id :: id in ReadItems(s).value ==> NoQuote(id)
    decreases |s|
  {
    if ReadItems(s).Some? {
      var literal := UntilQuote(s[1..]);
      var rest := s[1 + |literal|..];
      if rest[1..] != "]" {
        ReadItemsAreClean(rest[2..]);
      }
    }
  }

  /** The printed list reads back to itself exactly when no id needs escaping. */
  lemma PrintedReadsBack(ids: seq<string>)
    ensures ReadList(Printed(ids)) == Some(ids) <==> forall id :: id in ids ==> NoQuote(id)
  {
    var s := Printed(ids);
    if ids == [] {
      assert s == "[]";
    } else {
      assert QuoteAll(ids)[0][0] == '\"';
      assert s[1] == '\"' && s != "[]";
      assert s[1..] == Items(ids);
      ReadItemsAreClean(s[1..]);
      if forall id :: id in ids ==> NoQuote(id) {
        ReadItemsOfJoin(ids);
      }
    }
  }

  // ---------------------------------------------------------------- admission

  /** The fields of a specification the expression looks at; absent ones are `None`. */
  datatype SpecFields = SpecFields(relation: Option<string>, ctx: Option<string>)

  /** An object of a request, with its specification if it has one. */
  datatype Object = Object(spec: Option<SpecFields>)

  /** A creation has no old object, a deletion no new one. */
  datatype Request = Request(op: Operation, resource: Resource, before: Option<Object>, after: Option<Object>)

  datatype Value = Bool(b: bool) | Str(s: string) | Failure

  function OperationName(op: Operation): string {
    match op
    case CREATE => "CREATE"
    case UPDATE => "UPDATE"
    case DELETE => "DELETE"
  }

  function ObjectOf(r: Request, root: Root): Option<Object> {
    if root == OldObject then r.before else r.after
  }

  /** A field of a missing object or specification cannot be reached. */
  function Lookup(o: Option<Object>, field: Field): Option<Option<string>> {
    if o.None? then None
    else match field
      case Spec => Some(if o.value.spec.Some? then Some("") else None)
      case RelationType => if o.value.spec.None? then None else Some(o.value.spec.value.relation)
      case ContextId => if o.value.spec.None? then None else Some(o.value.spec.value.ctx)
  }

  /** Evaluation: a conjunction with a false side is false even if the other side fails,
      a choice evaluates one branch. */
  function Eval(e: Expr, r: Request): Value {
    match e
    case Truth => Bool(true)
    case Text(s) => Str(s)
    case RequestOperation => Str(OperationName(r.op))
    case Select(root, field) =>
      var v := Lookup(ObjectOf(r, root), field);
      if v.Some? && v.value.Some? then Str(v.value.value) else Failure
    case Has(root, field) =>
      var v := Lookup(ObjectOf(r, root), field);
      if v.Some? then Bool(v.value.Some?) else Failure
    case Equal(a, b) =>
      var x, y := Eval(a, r), Eval(b, r);
      if x.Failure? || y.Failure? then Failure else Bool(x == y)
    case MemberOf(item, list) =>
      var x := Eval(item, r);
      if x.Str? && ReadList(list).Some? then Bool(x.s in ReadList(list).value) else Failure
    case And(a, b) =>
      var x, y := Eval(a, r), Eval(b, r);
      if x == Bool(false) || y == Bool(false) then Bool(false)
      else if x == Bool(true) && y == Bool(true) then Bool(true)
      else Failure
    case Choose(test, yes, no) =>
      match Eval(test, r)
      case Bool(true) => Eval(yes, r)
      case Bool(false) => Eval(no, r)
      case _ => Failure
  }

  /** A request the policy does not look at passes; a rule that fails to evaluate denies. */
  predicate Admits(policy: Policy, r: Request) {
    r.op in policy.operations && r.resource in policy.resources ==> Eval(policy.rule, r) == Bool(true)
  }

  /** The object a request is judged by. */
  function Judged(r: Request): Option<Object> {
    if r.op == DELETE then r.before else r.after
  }

  /** What one role's rule asks of an object: a relation, and an accepted id if the
      relation is that role. */
  predicate Acceptable(o: Option<Object>, role: string, accepted: set<string>) {
    && o.Some? && o.value.spec.Some?
    && var spec := o.value.spec.value;
    && spec.relation.Some?
    && (spec.relation.value == role ==> spec.ctx.Some? && spec.ctx.value in accepted)
  }

  lemma ClauseDecides(root: Root, role: string, list: string, accepted: set<string>, r: Request)
    requires ReadList(list).Some? && SetOf(ReadList(list).value) == accepted
    ensures Eval(Clause(root, role, list), r) == Bool(true) <==> Acceptable(ObjectOf(r, root), role, accepted)
  {
    var o := ObjectOf(r, root);
    var present := And(Has(root, Spec), Has(root, RelationType));
    var listed := And(Has(root, ContextId), MemberOf(Select(root, ContextId), list));
    var isRole := Equal(Select(root, RelationType), Text(role));
    var inList := MemberOf(Select(root, ContextId), list);
    assert Eval(present, r) == Bool(true) <==> o.Some? && o.value.spec.Some? && o.value.spec.value.relation.Some?;
    if Eval(present, r) == Bool(true) {
      var spec := o.value.spec.value;
      assert Eval(isRole, r) == Bool(spec.relation.value == role);
      assert spec.ctx.Some? ==> Eval(inList, r) == Bool(spec.ctx.value in accepted);
      assert Eval(Has(root, ContextId), r) == Bool(spec.ctx.Some?);
      assert Eval(listed, r) == Bool(true) <==> spec.ctx.Some? && spec.ctx.value in accepted;
      assert Eval(Choose(isRole, listed, Truth), r) == Bool(true) <==>
        (spec.relation.value == role ==> Eval(listed, r) == Bool(true));
    }
  }

  lemma RuleUnfolds(role: string, list: string, r: Request)
    ensures Eval(Rule(role, list), r) == Eval(Clause(if r.op == DELETE then OldObject else NewObject, role, list), r)
  {
    OperationNames(r.op);
    assert Eval(Equal(RequestOperation, Text("DELETE")), r) == Bool(r.op == DELETE);
  }

  lemma RuleDecides(ids: seq<string>, accepted: set<string>, role: Role, r: Request)
    requires Enumerates(ids, accepted) && forall id :: id in accepted ==> NoQuote(id)
    ensures Eval(Rule(RoleName(role), Printed(ids)), r) == Bool(true) <==>
            Acceptable(Judged(r), RoleName(role), accepted)
  {
    PrintedReadsBack(ids);
    assert forall id :: id in ids ==> id in SetOf(ids);
    RuleUnfolds(RoleName(role), Printed(ids), r);
    ClauseDecides(if r.op == DELETE then OldObject else NewObject, RoleName(role), Printed(ids), accepted, r);
  }

  /** Whatever the printing order, the stored policy admits exactly the requests for zones
      and federations, and those whose object is acceptable for the id set. */
  lemma PolicyDecides(ids: seq<string>, accepted: set<string>, role: Role, r: Request)
    requires Enumerates(ids, accepted) && forall id :: id in accepted ==> NoQuote(id)
    ensures Admits(PolicyOf(role, Printed(ids)), r) <==>
            r.resource in {Zones, Federations} || Acceptable(Judged(r), RoleName(role), accepted)
  {
    RuleDecides(ids, accepted, role, r);
    assert r.op in OPERATIONS;
    ResourcesLookedAt(r.resource);
  }

  /** An object's decision under one role's policy, with the texts of its relations. */
  predicate Decided(o: Option<Object>, relation: string, accepted: set<string>) {
    match o
    case Some(Object(Some(SpecFields(Some(stated), id)))) =>
      stated == relation ==> id.Some? && id.value in accepted
    case _ => false
  }

  /** The guest's policy judges objects whose relation is "GUEST" by their id, the host's
      those whose relation is "HOST": the old object of a deletion, the new one of anything
      else. Objects of the other relation always pass. */
  lemma RolesDecide(ids: seq<string>, accepted: set<string>, r: Request, judged: Option<Object>)
    requires Enumerates(ids, accepted) && forall id :: id in accepted ==> NoQuote(id)
    requires r.resource !in {Zones, Federations} && judged == if r.op == DELETE then r.before else r.after
    ensures Admits(PolicyOf(Guest, Printed(ids)), r) <==> Decided(judged, "GUEST", accepted)
    ensures Admits(PolicyOf(Host, Printed(ids)), r) <==> Decided(judged, "HOST", accepted)
    ensures forall id :: judged == Some(Object(Some(SpecFields(Some("HOST"), id)))) ==>
              Admits(PolicyOf(Guest, Printed(ids)), r)
    ensures forall id :: judged == Some(Object(Some(SpecFields(Some("GUEST"), id)))) ==>
              Admits(PolicyOf(Host, Printed(ids)), r)
  {
    PolicyDecides(ids, accepted, Guest, r);
    PolicyDecides(ids, accepted, Host, r);
    assert "GUEST"[0] == 'G' && "HOST"[0] == 'H';
  }

  /** Which ids a call accepts: those of the listed federations of the role, and the added
      one, but not the removed one. */
  lemma AcceptedExactly(listing: seq<Member>, role: Role, action: string, id: string, x: string)
    requires id == "" || action == "add" || action == "remove"
    ensures Accepted(SetOf(listing), role, action, id).Some?
    ensures x in Accepted(SetOf(listing), role, action, id).value <==>
      x != "" &&
      if x == id then action == "add" || (action != "remove" && HasMember(listing, role, x))
      else HasMember(listing, role, x)
  {
    assert x in ListedIds(SetOf(listing), role) <==> x != "" && HasMember(listing, role, x) by {
      if x in ListedIds(SetOf(listing), role) {
        var f :| f in SetOf(listing) && f.role == role && f.ctx != "" && f.ctx == x;
        var i :| 0 <= i < |listing| && listing[i] == f;
      }
      if x != "" && HasMember(listing, role, x) {
        var i :| 0 <= i < |listing| && listing[i].role == role && listing[i].ctx == x;
        assert listing[i] in SetOf(listing);
      }
    }
  }

  predicate HasMember(listing: seq<Member>, role: Role, x: string) {
    exists i :: 0 <= i < |listing| && listing[i].role == role && listing[i].ctx == x
  }

  /** The text of a list, in full for the shortest ones. */
  lemma ListTexts(x: string, y: string)
    ensures Printed([]) == "[]"
    ensures Printed([x]) == "[\"" + x + "\"]"
    ensures Printed([x, y]) == "[\"" + x + "\",\"" + y + "\"]"
  {
    ItemsStep([x]);
    ItemsStep([x, y]);
    assert [x, y][1..] == [y];
    assert Printed([x]) == "[" + Items([x]) && Printed([x, y]) == "[" + Items([x, y]);
    ItemsStep([y]);
    assert Quoted(x) + "," + (Quoted(y) + "]") == "\"" + x + "\",\"" + y + "\"]";
  }

  lemma ResourcesLookedAt(resource: Resource)
    ensures resource in RESOURCES <==> resource !in {Zones, Federations}
  {
    match resource
    case Images => assert resource in RESOURCES;
    case Artefacts => assert resource in RESOURCES;
    case Onboardings => assert resource in RESOURCES;
    case Deployments => assert resource in RESOURCES;
    case Monitorings => assert resource in RESOURCES;
    case Zones =>
    case Federations =>
  }

  lemma OperationNames(op: Operation)
    ensures OperationName(op) == "DELETE" <==> op == DELETE
  {
    assert "CREATE"[0] == 'C' && "UPDATE"[0] == 'U' && "DELETE"[0] == 'D';
  }

  // ---------------------------------------------------------------- runs

  datatype State = State(feds: map<string, Member>, installed: map<Role, set<string>>)

  /** Outcomes of a reconcile: `partner` says that nothing depends on a deleted guest
      federation and its partner call succeeded; `ctx` is the context id in the status
      that the rest of the reconcile leaves. */
  datatype Outcome = Outcome(
    partner: bool, list: bool, policy: bool, binding: bool, meta: bool, status: bool, ctx: string)

  datatype Step =
    | Create(name: string, role: Role)
    | Delete(name: string)
    | Reconcile(name: string, o: Outcome)

  function Installed(s: State, role: Role): set<string> {
    if role in s.installed then s.installed[role] else {}
  }

  /** The policy call of one reconcile. */
  function Install(s: State, f: Member, action: string, o: Outcome): State {
    var accepted := Accepted(s.feds.Values, f.role, action, f.ctx);
    if o.list && o.policy && accepted.Some? then s.(installed := s.installed[f.role := accepted.value]) else s
  }

  predicate Installs(o: Outcome) {
    o.list && o.policy && o.binding
  }

  function ReconcileFed(s: State, name: string, f: Member, o: Outcome): State {
    if f.deleting then
      if f.role == Guest && !o.partner then s
      else
        var s' := Install(s, f, "remove", o);
        if Installs(o) && o.meta then s'.(feds := s'.feds - {name}) else s'
    else if !f.finalizer then
      if o.meta then s.(feds := s.feds[name := f.(finalizer := true, policySet := false)]) else s
    else if f.ctx != "" && !f.policySet then
      var s' := Install(s, f, "add", o);
      if Installs(o) && o.meta then s'.(feds := s'.feds[name := f.(policySet := true)]) else s'
    else if o.status then s.(feds := s.feds[name := f.(ctx := o.ctx)])
    else s
  }

  function Next(s: State, step: Step): State {
    match step
    case Create(name, role) =>
      if name in s.feds then s else s.(feds := s.feds[name := Member(role, "", false, false, false)])
    case Delete(name) =>
      if name !in s.feds then s
      else if s.feds[name].finalizer then s.(feds := s.feds[name := s.feds[name].(deleting := true)])
      else s.(feds := s.feds - {name})
    case Reconcile(name, o) =>
      if name in s.feds then ReconcileFed(s, name, s.feds[name], o) else s
  }

  const EMPTY := State(map[], map[])

  function Run(steps: seq<Step>): State {
    if steps == [] then EMPTY else Next(Run(steps[..|steps| - 1]), steps[|steps| - 1])
  }

  predicate SameRole(f: Member, g: Member) {
    f.role == g.role
  }

  /** Federations of one role have different context ids. */
  predicate DistinctIds(s: State) {
    forall m, n :: m in s.feds && n in s.feds && m != n && SameRole(s.feds[m], s.feds[n]) && s.feds[m].ctx != ""
      ==> s.feds[m].ctx != s.feds[n].ctx
  }

  /** Context id, policy mark and deletion mark come after the finalizer. */
  predicate Staged(s: State) {
    forall n :: n in s.feds && !s.feds[n].finalizer ==>
                  s.feds[n].ctx == "" && !s.feds[n].policySet && !s.feds[n].deleting
  }

  predicate Marked(f: Member) {
    f.policySet && !f.deleting
  }

  /** Every live federation marked "set" is accepted. */
  predicate MarkedAccepted(s: State) {
    forall n :: n in s.feds && Marked(s.feds[n]) ==> s.feds[n].ctx in Installed(s, s.feds[n].role)
  }

  predicate Stored(s: State, role: Role, id: string) {
    exists n :: n in s.feds && s.feds[n].role == role && s.feds[n].ctx == id
  }

  /** Every accepted id is that of a stored federation: none of a removed one is left. */
  predicate AcceptedStored(s: State) {
    forall role, id :: id in Installed(s, role) ==> id != "" && Stored(s, role, id)
  }

  predicate Right(s: State) {
    MarkedAccepted(s) && AcceptedStored(s)
  }

  /** The step gives another context id to a live federation marked "set", as a renewal
      over REST or a status copied from a new host federation can. */
  predicate Moves(s: State, step: Step) {
    && step.Reconcile? && step.name in s.feds
    && Marked(s.feds[step.name]) && s.feds[step.name].finalizer
    && step.o.status && step.o.ctx != s.feds[step.name].ctx
  }

  lemma StagedNext(s: State, step: Step)
    requires Staged(s)
    ensures Staged(Next(s, step))
  {
  }

  /** A policy call makes the list exactly the stored ids of the role, less a removed one. */
  lemma InstalledByCall(s: State, f: Member, action: string, o: Outcome)
    requires o.list && o.policy && action in {"add", "remove"} && f in s.feds.Values
    ensures var s' := Install(s, f, action, o);
      && s'.feds == s.feds
      && (forall role :: role != f.role ==> Installed(s', role) == Installed(s, role))
      && (forall id :: id in Installed(s', f.role) <==>
            id != "" && (action == "remove" ==> id != f.ctx) &&
            Stored(s, f.role, id))
  {
    forall id ensures id in ListedIds(s.feds.Values, f.role) <==>
      id != "" && Stored(s, f.role, id)
    {
      if id in ListedIds(s.feds.Values, f.role) {
        var g :| g in s.feds.Values && g.role == f.role && g.ctx == id;
        var n :| n in s.feds && s.feds[n] == g;
      }
      if n :| n in s.feds && s.feds[n].role == f.role && s.feds[n].ctx == id && id != "" {
        assert s.feds[n] in s.feds.Values;
      }
    }
    var n :| n in s.feds && s.feds[n] == f;
  }

  /** Another live federation marked "set" has the id of this one. */
  predicate SharesId(s: State, name: string)
    requires name in s.feds
  {
    exists n :: n in s.feds && n != name && Marked(s.feds[n]) && SameRole(s.feds[n], s.feds[name])
                && s.feds[n].ctx == s.feds[name].ctx
  }

  /** The removal of a deleted federation reaches the stored policy and takes out an id
      that another live federation marked "set" has too. */
  predicate Drops(s: State, step: Step) {
    && step.Reconcile? && step.name in s.feds
    && var f := s.feds[step.name];
    && f.deleting && f.ctx != "" && (f.role == Guest ==> step.o.partner) && step.o.list && step.o.policy
    && SharesId(s, step.name)
  }

  /** A move that goes wrong: the new id is not accepted, or no other federation of the
      role has the old one. */
  predicate Strands(s: State, step: Step) {
    && Moves(s, step)
    && var f := s.feds[step.name];
    && (step.o.ctx !in Installed(s, f.role)
        || !exists n :: n in s.feds && n != step.name && SameRole(s.feds[n], f) && s.feds[n].ctx == f.ctx)
  }

  lemma AddKeeps(s: State, name: string, o: Outcome)
    requires Right(s) && name in s.feds
    ensures Right(Install(s, s.feds[name], "add", o))
    ensures o.list && o.policy && s.feds[name].ctx != "" ==>
      s.feds[name].ctx in Installed(Install(s, s.feds[name], "add", o), s.feds[name].role)
  {
    if o.list && o.policy {
      InstalledByCall(s, s.feds[name], "add", o);
      assert forall n :: n in s.feds && Marked(s.feds[n]) ==> s.feds[n].ctx in Installed(s, s.feds[n].role);
    }
  }

  lemma RemoveInstalls(s: State, name: string, o: Outcome)
    requires Right(s) && name in s.feds && s.feds[name].deleting && o.list && o.policy
    ensures var f := s.feds[name]; var s' := Install(s, f, "remove", o);
      && AcceptedStored(s') && f.ctx !in Installed(s', f.role)
      && (MarkedAccepted(s') <==> f.ctx == "" || !SharesId(s, name))
  {
    var f := s.feds[name];
    InstalledByCall(s, f, "remove", o);
    var s' := Install(s, f, "remove", o);
    if f.ctx == "" || !SharesId(s, name) {
      forall n | n in s.feds && Marked(s.feds[n]) ensures s.feds[n].ctx in Installed(s', s.feds[n].role) {
        assert s.feds[n].ctx in Installed(s, s.feds[n].role);
        assert SameRole(s.feds[n], f) <==> s.feds[n].role == f.role;
      }
    } else {
      var n :| n in s.feds && n != name && Marked(s.feds[n]) && SameRole(s.feds[n], f) && s.feds[n].ctx == f.ctx;
      assert s'.feds[n].ctx !in Installed(s', s'.feds[n].role);
    }
  }

  lemma StatusKeeps(s: State, name: string, o: Outcome)
    requires Staged(s) && Right(s) && name in s.feds
    requires var f := s.feds[name]; !f.deleting && f.finalizer && (f.ctx == "" || f.policySet) && o.status
    ensures Right(Next(s, Reconcile(name, o))) <==> !Strands(s, Reconcile(name, o))
  {
    var f, s' := s.feds[name], Next(s, Reconcile(name, o));
    if f.policySet {
      assert f.ctx in Installed(s, f.role);
    }
    if Strands(s, Reconcile(name, o)) {
      if o.ctx in Installed(s, f.role) {
        assert forall n :: n in s'.feds && n != name ==> s'.feds[n] == s.feds[n];
        assert !Stored(s', f.role, f.ctx) by {
          assert forall n :: n in s.feds && n != name && s.feds[n].role == f.role ==> SameRole(s.feds[n], f);
        }
        assert f.ctx in Installed(s', f.role);
      } else {
        assert Marked(s'.feds[name]);
      }
    } else {
      forall role, id | id in Installed(s', role) ensures id != "" && Stored(s', role, id) {
        assert id in Installed(s, role);
        StoredAfterStatus(s, name, o, role, id);
      }
    }
  }

  lemma StoredAfterStatus(s: State, name: string, o: Outcome, role: Role, id: string)
    requires name in s.feds && id in Installed(s, role) && AcceptedStored(s)
    requires var f := s.feds[name]; !f.deleting && f.finalizer && (f.ctx == "" || f.policySet) && o.status
    requires !Strands(s, Reconcile(name, o))
    ensures Stored(Next(s, Reconcile(name, o)), role, id)
  {
    var f, s' := s.feds[name], Next(s, Reconcile(name, o));
    assert Stored(s, role, id);
    var n :| n in s.feds && s.feds[n].role == role && s.feds[n].ctx == id;
    if n != name {
      assert n in s'.feds && s'.feds[n] == s.feds[n];
    } else if Moves(s, Reconcile(name, o)) {
      var m :| m in s.feds && m != name && SameRole(s.feds[m], f) && s.feds[m].ctx == f.ctx;
      assert m in s'.feds && s'.feds[m] == s.feds[m];
    } else {
      assert s'.feds[n].ctx == id;
    }
  }

  lemma RemoveKeeps(s: State, name: string)
    requires Right(s) && name in s.feds
    requires s.feds[name].ctx != "" ==> s.feds[name].ctx !in Installed(s, s.feds[name].role)
    ensures Right(s.(feds := s.feds - {name}))
  {
    var s' := s.(feds := s.feds - {name});
    forall role, id | id in Installed(s', role)
      ensures id != "" && Stored(s', role, id)
    {
      assert id in Installed(s, role);
      var n :| n in s.feds && s.feds[n].role == role && s.feds[n].ctx == id;
      assert n != name && n in s'.feds;
    }
  }

  /** Rewriting marks of a federation without touching role and id. */
  lemma MarkKeeps(s: State, name: string, g: Member)
    requires Right(s) && (name in s.feds ==> g.role == s.feds[name].role && g.ctx == s.feds[name].ctx)
    requires Marked(g) ==> g.ctx in Installed(s, g.role)
    ensures Right(s.(feds := s.feds[name := g]))
  {
    var s' := s.(feds := s.feds[name := g]);
    forall role, id | id in Installed(s', role)
      ensures id != "" && Stored(s', role, id)
    {
      assert id in Installed(s, role);
      var n :| n in s.feds && s.feds[n].role == role && s.feds[n].ctx == id;
      assert n in s'.feds && s'.feds[n].role == role && s'.feds[n].ctx == id;
    }
  }

  lemma DeletionKeeps(s: State, name: string, o: Outcome)
    requires Right(s) && name in s.feds && s.feds[name].deleting
    ensures Right(Next(s, Reconcile(name, o))) <==> !Drops(s, Reconcile(name, o))
  {
    var f := s.feds[name];
    if (f.role == Guest ==> o.partner) && o.list && o.policy {
      RemoveInstalls(s, name, o);
      var s' := Install(s, f, "remove", o);
      if Installs(o) && o.meta {
        if MarkedAccepted(s') {
          RemoveKeeps(s', name);
        } else {
          var n :| n in s'.feds && Marked(s'.feds[n]) && s'.feds[n].ctx !in Installed(s', s'.feds[n].role);
          var s'' := s'.(feds := s'.feds - {name});
          assert n in s''.feds && s''.feds[n] == s'.feds[n];
        }
      }
    }
  }

  lemma ReconcileKeeps(s: State, name: string, o: Outcome)
    requires Staged(s) && Right(s) && name in s.feds
    ensures Right(Next(s, Reconcile(name, o))) <==> !Drops(s, Reconcile(name, o)) && !Strands(s, Reconcile(name, o))
  {
    var f := s.feds[name];
    if f.deleting {
      DeletionKeeps(s, name, o);
    } else if !f.finalizer {
      MarkKeeps(s, name, f.(finalizer := true, policySet := false));
    } else if f.ctx != "" && !f.policySet {
      AddKeeps(s, name, o);
      if Installs(o) {
        MarkKeeps(Install(s, f, "add", o), name, f.(policySet := true));
      }
    } else if o.status {
      StatusKeeps(s, name, o);
    }
  }

  /** A step keeps the policies right exactly when it neither drops a shared id nor
      strands a federation already marked. */
  lemma NextKeeps(s: State, step: Step)
    requires Staged(s) && Right(s)
    ensures Staged(Next(s, step)) && (Right(Next(s, step)) <==> !Drops(s, step) && !Strands(s, step))
  {
    StagedNext(s, step);
    match step
    case Create(name, role) =>
      if name !in s.feds {
        MarkKeeps(s, name, Member(role, "", false, false, false));
      }
    case Delete(name) =>
      if name in s.feds {
        if s.feds[name].finalizer {
          MarkKeeps(s, name, s.feds[name].(deleting := true));
        } else {
          RemoveKeeps(s, name);
        }
      }
    case Reconcile(name, o) =>
      if name in s.feds {
        ReconcileKeeps(s, name, o);
      }
  }

  /** With distinct context ids nothing is dropped, and every move strands. */
  lemma DistinctIdsMove(s: State, step: Step)
    requires DistinctIds(s) && Right(s)
    ensures !Drops(s, step) && (Strands(s, step) <==> Moves(s, step))
  {
    if Moves(s, step) {
      assert s.feds[step.name].ctx in Installed(s, s.feds[step.name].role);
    }
  }

  ghost predicate AlwaysRight(steps: seq<Step>) {
    Right(Run(steps)) && (steps != [] ==> AlwaysRight(steps[..|steps| - 1]))
  }

  /** No step of the run drops or strands a marked federation. */
  ghost predicate NeverBreaks(steps: seq<Step>) {
    steps != [] ==>
      var before, step := Run(steps[..|steps| - 1]), steps[|steps| - 1];
      !Drops(before, step) && !Strands(before, step) && NeverBreaks(steps[..|steps| - 1])
  }

  /** Over every run: the policies are right after every step exactly when no step drops a
      shared id or strands a marked federation. */
  lemma {:induction false} PoliciesStayRight(steps: seq<Step>)
    ensures Staged(Run(steps)) && (AlwaysRight(steps) <==> NeverBreaks(steps))
  {
    if steps != [] {
      var front, step := steps[..|steps| - 1], steps[|steps| - 1];
      PoliciesStayRight(front);
      StagedNext(Run(front), step);
      if AlwaysRight(front) {
        NextKeeps(Run(front), step);
      }
    }
  }

  ghost predicate AllDistinct(steps: seq<Step>) {
    DistinctIds(Run(steps)) && (steps != [] ==> AllDistinct(steps[..|steps| - 1]))
  }

  /** No step of the run moves a marked federation. */
  ghost predicate NeverMoves(steps: seq<Step>) {
    steps != [] ==>
      !Moves(Run(steps[..|steps| - 1]), steps[|steps| - 1]) && NeverMoves(steps[..|steps| - 1])
  }

  /** So with distinct context ids they are right exactly when none moves. */
  lemma {:induction false} DistinctPoliciesStayRight(steps: seq<Step>)
    requires AllDistinct(steps)
    ensures AlwaysRight(steps) <==> NeverMoves(steps)
  {
    if steps != [] {
      var front, step := steps[..|steps| - 1], steps[|steps| - 1];
      DistinctPoliciesStayRight(front);
      PoliciesStayRight(front);
      if AlwaysRight(front) {
        NextKeeps(Run(front), step);
        DistinctIdsMove(Run(front), step);
      }
    }
  }

  /** What the run theorem means for requests: resources of live marked federations are
      admitted, resources naming no stored federation are not, in whatever order the
      list was printed. */
  lemma AdmissionFollowsFederations(steps: seq<Step>, s: State, role: Role, ids: seq<string>, r: Request)
    requires NeverBreaks(steps) && s == Run(steps)
    requires forall n :: n in s.feds ==> NoQuote(s.feds[n].ctx)
    requires Enumerates(ids, Installed(s, role))
    requires r.resource in RESOURCES && Judged(r).Some? && Judged(r).value.spec.Some?
    requires Judged(r).value.spec.value.relation == Some(RoleName(role)) && Judged(r).value.spec.value.ctx.Some?
    ensures var policy := PolicyOf(role, Printed(ids)); var id := Judged(r).value.spec.value.ctx.value;
      && ((exists n :: n in s.feds && s.feds[n].role == role && Marked(s.feds[n]) && s.feds[n].ctx == id) ==>
            Admits(policy, r))
      && (Admits(policy, r) ==> Stored(s, role, id))
  {
    PoliciesStayRight(steps);
    assert Right(s);
    assert forall id :: id in Installed(s, role) ==> NoQuote(id);
    PolicyDecides(ids, Installed(s, role), role, r);
  }

  // ---------------------------------------------------------------- what a reconcile achieves

  /** A live federation with an id and no mark gets both its mark and its id's acceptance
      when everything works, and no mark if anything fails. */
  lemma Marks(s: State, name: string, o: Outcome, s': State)
    requires name in s.feds && s' == Next(s, Reconcile(name, o))
    requires var f := s.feds[name]; !f.deleting && f.finalizer && !f.policySet && f.ctx != ""
    ensures name in s'.feds && s'.feds[name].ctx == s.feds[name].ctx
    ensures s'.feds[name].policySet <==> o.list && o.policy && o.binding && o.meta
    ensures o.list && o.policy ==> s.feds[name].ctx in Installed(s', s.feds[name].role)
    ensures !(o.list && o.policy) ==> s'.installed == s.installed
  {
    if o.list && o.policy {
      assert s.feds[name] in s.feds.Values;
      InstalledByCall(s, s.feds[name], "add", o);
      assert Stored(s, s.feds[name].role, s.feds[name].ctx);
    }
  }

  /** A federation marked deleted goes exactly when everything works, its id taken out by
      then; a guest whose partner call fails, or on which something depends, changes
      nothing. */
  lemma Removes(s: State, name: string, o: Outcome, s': State)
    requires name in s.feds && s.feds[name].deleting && s' == Next(s, Reconcile(name, o))
    ensures name !in s'.feds <==>
      (s.feds[name].role == Guest ==> o.partner) && o.list && o.policy && o.binding && o.meta
    ensures name !in s'.feds ==> s.feds[name].ctx !in Installed(s', s.feds[name].role)
    ensures s.feds[name].role == Guest && !o.partner ==> s' == s
    ensures s'.feds.Keys - {name} == s.feds.Keys - {name}
  {
    if o.list && o.policy {
      assert s.feds[name] in s.feds.Values;
      InstalledByCall(s, s.feds[name], "remove", o);
    }
  }

  /** The finalizer comes first, with the mark cleared; a federation without id, or with
      its mark, gets the context id its reconcile leaves. */
  lemma OtherTurns(s: State, name: string, o: Outcome, s': State)
    requires name in s.feds && !s.feds[name].deleting && s' == Next(s, Reconcile(name, o))
    ensures s'.installed == s.installed || (s.feds[name].ctx != "" && !s.feds[name].policySet)
    ensures var f := s.feds[name];
      && (!f.finalizer && o.meta ==> s'.feds == s.feds[name := Member(f.role, f.ctx, true, false, false)])
      && (f.finalizer && (f.ctx == "" || f.policySet) && o.status ==>
            s'.feds == s.feds[name := Member(f.role, o.ctx, true, f.policySet, false)])
  {
  }

  // ---------------------------------------------------------------- where it fails

  /** Removing a federation locks others out exactly when a live one marked "set" has its
      id. */
  lemma SharedIdIsDropped(s: State, name: string, o: Outcome)
    requires Staged(s) && Right(s) && name in s.feds && s.feds[name].deleting && s.feds[name].ctx != ""
    requires (s.feds[name].role == Guest ==> o.partner) && o.list && o.policy
    ensures MarkedAccepted(Next(s, Reconcile(name, o))) <==> !SharesId(s, name)
  {
    DeletionKeeps(s, name, o);
    RemoveInstalls(s, name, o);
    var s' := Next(s, Reconcile(name, o));
    if Installs(o) && o.meta && MarkedAccepted(s') {
      var s1 := Install(s, s.feds[name], "remove", o);
      assert forall n :: n in s1.feds && n != name ==> n in s'.feds && s'.feds[n] == s1.feds[n];
      assert MarkedAccepted(s1);
    }
  }

  lemma RunSnoc(steps: seq<Step>, step: Step)
    ensures Run(steps + [step]) == Next(Run(steps), step)
  {
    assert (steps + [step])[..|steps|] == steps;
  }

  lemma FirstInstall(name: string, role: Role, a: string, o: Outcome)
    requires Installs(o) && o.meta && a != ""
    ensures Next(State(map[name := Member(role, a, true, false, false)], map[]), Reconcile(name, o)) ==
            State(map[name := Member(role, a, true, true, false)], map[role := {a}])
  {
    var f := Member(role, a, true, false, false);
    var s := State(map[name := f], map[]);
    assert s.feds[name] == f && f in s.feds.Values;
    assert forall g :: g in s.feds.Values ==> exists n :: n in s.feds && s.feds[n] == g;
    assert s.feds.Values == {f};
    assert ListedIds({f}, role) == {a};
    assert {a} + {a} == {a};
    assert Accepted(s.feds.Values, role, "add", a) == Some({a});
    assert Install(s, f, "add", o).installed == map[role := {a}];
    assert s.feds[name := f.(policySet := true)] == map[name := f.(policySet := true)];
  }

  /** Creation, finalizer, context id, policy. */
  function SetUp(name: string, role: Role, o: Outcome): seq<Step> {
    [Create(name, role)] + [Reconcile(name, o)] + [Reconcile(name, o)] + [Reconcile(name, o)]
  }

  lemma SetUpMarks(name: string, role: Role, o: Outcome)
    requires Installs(o) && o.meta && o.status && o.ctx != ""
    ensures Run(SetUp(name, role, o)) ==
            State(map[name := Member(role, o.ctx, true, true, false)], map[role := {o.ctx}])
  {
    var create, again := Create(name, role), Reconcile(name, o);
    RunSnoc([], create);
    assert [] + [create] == [create];
    assert Run([create]) == State(map[name := Member(role, "", false, false, false)], map[]);
    RunSnoc([create], again);
    assert Run([create] + [again]) == State(map[name := Member(role, "", true, false, false)], map[]);
    RunSnoc([create] + [again], again);
    assert Run([create] + [again] + [again]) == State(map[name := Member(role, o.ctx, true, false, false)], map[]);
    RunSnoc([create] + [again] + [again], again);
    FirstInstall(name, role, o.ctx, o);
  }

  /** Moves are reachable: any federation can be set up and then have its id changed, and
      is locked out until the next policy call of its role. */
  lemma MovedFederationIsLockedOut(name: string, role: Role, o: Outcome, moved: string)
    requires Installs(o) && o.meta && o.status && o.ctx != "" && moved != o.ctx
    ensures var s := Run(SetUp(name, role, o) + [Reconcile(name, o.(ctx := moved))]);
      s.feds.Keys == {name} && Marked(s.feds[name]) && s.feds[name].ctx == moved && Installed(s, role) == {o.ctx}
  {
    SetUpMarks(name, role, o);
    RunSnoc(SetUp(name, role, o), Reconcile(name, o.(ctx := moved)));
  }
}
