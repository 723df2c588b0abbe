/** The deferred write-back of every reconciler: a merge patch of the metadata, the
    status put back, then a merge patch of the status, with other writers in between. */
module WriteBack {
  import opened Basics

  // ---------------------------------------------------------------- merge patches

  /** JSON without null; absence plays the part of null. A leaf is a scalar or a list,
      which a merge patch replaces as a whole. */
  datatype Json = Leaf(text: string) | Obj(fields: map<string, Json>)

  /** A patch value: `Delete` is null. */
  datatype Patch = Delete | Put(text: string) | Nest(changes: map<string, Patch>)

  /** A whole value as a patch. */
  function Whole(j: Json): Patch {
    match j
    case Leaf(t) => Put(t)
    case Obj(fields) => Nest(map k | k in fields :: Whole(fields[k]))
  }

  /** The patch from one value to another: changed and new members, null for removed
      ones, nothing for equal ones. */
  function Diff(original: Json, modified: Json): Patch
    requires original.Obj? && modified.Obj?
  {
    Nest(map k | k in original.fields.Keys + modified.fields.Keys && Changed(original, modified, k) ::
           if k !in modified.fields then Delete
           else if k in original.fields && original.fields[k].Obj? && modified.fields[k].Obj?
           then Diff(original.fields[k], modified.fields[k])
           else Whole(modified.fields[k]))
  }

  predicate Changed(original: Json, modified: Json, k: string)
    requires original.Obj? && modified.Obj?
  {
    if k in original.fields && k in modified.fields then original.fields[k] != modified.fields[k]
    else k in original.fields || k in modified.fields
  }

  /** Section 2 of RFC 7396; a target that is no object counts as an empty one. */
  function Merge(target: Json, patch: Patch): Json
    requires !patch.Delete?
    decreases patch
  {
    match patch
    case Put(t) => Leaf(t)
    case Nest(changes) =>
      var fields := if target.Obj? then target.fields else map[];
      Obj(map k | k in fields.Keys + changes.Keys && (k in changes ==> !changes[k].Delete?) ::
            if k in changes then Merge(if k in fields then fields[k] else Obj(map[]), changes[k]) else fields[k])
  }

  // ---------------------------------------------------------------- paths

  function Get(j: Json, path: seq<string>): Option<Json> {
    if path == [] then Some(j)
    else if j.Obj? && path[0] in j.fields then Get(j.fields[path[0]], path[1..])
    else None
  }

  /** The value at a path if it is a leaf. */
  function Field(j: Json, path: seq<string>): Option<string> {
    match Get(j, path)
    case Some(Leaf(t)) => Some(t)
    case _ => None
  }

  const EMPTY := Obj(map[])

  function Member(j: Json, k: string): Json {
    if j.Obj? && k in j.fields then j.fields[k] else EMPTY
  }

  /** No enclosing member on the way to a path was removed, or overwritten by a leaf. */
  predicate Kept(original: Json, modified: Json, path: seq<string>)
    requires original.Obj? && modified.Obj?
    decreases |path|
  {
    |path| <= 1 || !Changed(original, modified, path[0]) ||
    (path[0] in modified.fields && modified.fields[path[0]].Obj? &&
     Kept(if Member(original, path[0]).Obj? then Member(original, path[0]) else EMPTY,
          modified.fields[path[0]], path[1..]))
  }

  lemma WholeIsDiff(j: Json)
    requires j.Obj?
    ensures Whole(j) == Diff(EMPTY, j)
  {
  }

  lemma {:induction false} MergeWhole(target: Json, j: Json)
    requires target.Leaf? || j.Leaf? || target == EMPTY
    ensures Merge(target, Whole(j)) == j
    decreases j
  {
    if j.Obj? {
      forall k | k in j.fields ensures Merge(EMPTY, Whole(j.fields[k])) == j.fields[k] {
        MergeWhole(EMPTY, j.fields[k]);
      }
    }
  }

  /** Merging the difference back gives the modified value. */
  lemma {:induction false} DiffRoundTrip(original: Json, modified: Json)
    requires original.Obj? && modified.Obj?
    ensures Merge(original, Diff(original, modified)) == modified
    decreases modified
  {
    var changes := Diff(original, modified).changes;
    var merged := Merge(original, Diff(original, modified));
    forall k | k in modified.fields ensures k in merged.fields && merged.fields[k] == modified.fields[k] {
      if k in changes {
        var o, m := Member(original, k), modified.fields[k];
        if k in original.fields && o.Obj? && m.Obj? {
          DiffRoundTrip(o, m);
        } else {
          MergeWhole(o, m);
        }
      }
    }
    assert merged.fields.Keys == modified.fields.Keys;
  }

  lemma MergeMember(target: Json, changes: map<string, Patch>, k: string)
    ensures var merged := Merge(target, Nest(changes)).fields;
      if k in changes then
        if changes[k].Delete? then k !in merged
        else k in merged && merged[k] == Merge(Member(target, k), changes[k])
      else if target.Obj? && k in target.fields then k in merged && merged[k] == target.fields[k]
      else k !in merged
  {
    var merged := Merge(target, Nest(changes)).fields;
    var fields := if target.Obj? then target.fields else map[];
    assert k in merged <==> k in fields.Keys + changes.Keys && (k in changes ==> !changes[k].Delete?);
  }

  /** Three-way merge: whatever stands in the store, a member the reconcile changed gets
      its value, and one it did not change keeps the stored leaf, exactly unless the
      reconcile removed or overwrote an enclosing member. */
  lemma {:induction false} MergeField(current: Json, original: Json, modified: Json, path: seq<string>)
    requires original.Obj? && modified.Obj? && path != []
    ensures var merged := Merge(current, Diff(original, modified));
      Field(merged, path) ==
        if Get(original, path) != Get(modified, path) then Field(modified, path)
        else if Kept(original, modified, path) then Field(current, path)
        else None
    decreases |path|
  {
    var merged := Merge(current, Diff(original, modified));
    var changes := Diff(original, modified).changes;
    var k, rest := path[0], path[1..];
    assert k in changes <==> k in original.fields.Keys + modified.fields.Keys && Changed(original, modified, k);
    MergeMember(current, changes, k);
    if !Changed(original, modified, k) {
      assert Get(original, path) == Get(modified, path);
      assert k in merged.fields <==> current.Obj? && k in current.fields;
    } else if k !in modified.fields {
      assert k !in merged.fields;
    } else if modified.fields[k].Leaf? {
      assert merged.fields[k] == modified.fields[k];
    } else {
      var o := if Member(original, k).Obj? then Member(original, k) else EMPTY;
      WholeIsDiff(modified.fields[k]);
      assert changes[k] == Diff(o, modified.fields[k]);
      assert merged.fields[k] == Merge(Member(current, k), Diff(o, modified.fields[k]));
      assert Field(merged, path) == Field(merged.fields[k], rest);
      assert Field(modified, path) == Field(modified.fields[k], rest);
      if rest == [] {
        assert Get(modified, path) == Some(modified.fields[k]);
        assert Get(original, path) != Get(modified, path);
      } else {
        MergeField(Member(current, k), o, modified.fields[k], rest);
        assert Get(original, path) == Get(o, rest);
        assert Get(modified, path) == Get(modified.fields[k], rest);
        assert Field(current, path) == Field(Member(current, k), rest);
        assert Kept(original, modified, path) == Kept(o, modified.fields[k], rest);
      }
    }
  }

  /** A list is a leaf, so a changed finalizer list replaces the stored one: what others
      stored survives exactly when the reconcile did not change the list, or changed it to
      the same. */
  lemma FinalizersAreReplaced(current: Json, original: Json, modified: Json)
    requires original.Obj? && modified.Obj?
    ensures var path := ["finalizers"];
      Field(Merge(current, Diff(original, modified)), path) == Field(current, path) <==>
      Get(original, path) == Get(modified, path) || Field(modified, path) == Field(current, path)
  {
    MergeField(current, original, modified, ["finalizers"]);
  }

  // ---------------------------------------------------------------- the deferred function

  /** A stored object: metadata and status are patched apart. */
  datatype Stored = Stored(meta: Json, status: Json)

  /** The object as a reconciler holds it. */
  datatype Held = Held(meta: Json, status: Json, version: nat)

  class ApiObject {
    var meta: Json
    var status: Json
    var version: nat

    function Content(): Stored
      reads this
    {
      Stored(meta, status)
    }

    constructor (meta: Json, status: Json)
      ensures Content() == Stored(meta, status)
    {
      this.meta, this.status, version := meta, status, 0;
    }

    /** Other writers, reacting to what is stored; any number of writes. */
    method Others(react: Stored -> Stored, writes: nat)
      modifies this
      ensures Content() == if writes == 0 then old(Content()) else react(old(Content()))
      ensures version == old(version) + writes
    {
      if writes > 0 {
        var seen := Content();
        meta, status := react(seen).meta, react(seen).status;
        version := version + writes;
      }
    }

    /** A merge patch of the metadata. A resource version in the patch must be current. */
    method PatchMeta(patch: Patch, expected: Option<nat>, up: bool) returns (ok: bool)
      requires patch.Nest?
      modifies this
      ensures ok <==> up && (expected.Some? ==> expected.value == old(version))
      ensures Content() == if ok then Stored(Merge(old(meta), patch), old(status)) else old(Content())
      ensures version == if ok then old(version) + 1 else old(version)
    {
      ok := up && (expected.Some? ==> expected.value == version);
      if ok {
        meta, version := Merge(meta, patch), version + 1;
      }
    }

    /** A merge patch of the status subresource leaves the metadata alone. */
    method PatchStatus(patch: Patch, expected: Option<nat>, up: bool) returns (ok: bool)
      requires patch.Nest?
      modifies this
      ensures ok <==> up && (expected.Some? ==> expected.value == old(version))
      ensures Content() == if ok then Stored(old(meta), Merge(old(status), patch)) else old(Content())
      ensures version == if ok then old(version) + 1 else old(version)
    {
      ok := up && (expected.Some? ==> expected.value == version);
      if ok {
        status, version := Merge(status, patch), version + 1;
      }
    }
  }

  /** The resource version goes into a patch only where it differs from the base. */
  function Expected(original: Held, modified: Held): Option<nat> {
    if original.version == modified.version then None else Some(modified.version)
  }

  /** What a reconcile wants to store: a permanent error overrides the state, except on
      an object being deleted. */
  function Intended(modified: Held, failed: bool, isDeleting: bool): Json
    requires modified.status.Obj?
  {
    if failed && !isDeleting then Obj(modified.status.fields["state" := Leaf("FAILED")]) else modified.status
  }

  /** When the metadata patch goes through, for an object stored with this version: a
      reconcile that stored a status itself has a newer version than its base, which makes
      the patch conditional. */
  predicate MetaPasses(version: nat, original: Held, modified: Held, up: bool) {
    up && (original.version == modified.version || modified.version == version)
  }

  /** When the status patch goes through: after a metadata patch the versions agree, else
      the same condition holds after the writes of others. */
  predicate StatusPasses(version: nat, original: Held, modified: Held, writes: nat, up: bool) {
    up && (original.meta != modified.meta || MetaPasses(version + writes, original, modified, true))
  }

  /** The stored object after the deferred function. `current` and `version` are what is
      stored when it starts, `react` and `writes` what others do between the two patches. */
  function Written(current: Stored, version: nat, original: Held, modified: Held, failed: bool, isDeleting: bool,
                   react: Stored -> Stored, writes: nat, metaUp: bool, statusUp: bool): Stored
    requires original.meta.Obj? && modified.meta.Obj? && original.status.Obj? && modified.status.Obj?
  {
    if original.meta != modified.meta && !MetaPasses(version, original, modified, metaUp) then current
    else
      var patched := if original.meta == modified.meta then current
                     else Stored(Merge(current.meta, Diff(original.meta, modified.meta)), current.status);
      var seen := if writes == 0 then patched else react(patched);
      if isDeleting || !StatusPasses(version, original, modified, writes, statusUp) then seen
      else Stored(seen.meta, Merge(seen.status, Diff(original.status, Intended(modified, failed, isDeleting))))
  }

  /** A failed metadata patch leaves the stored object untouched. */
  method Deferred(server: ApiObject, original0: Held, modified: Held, failed: bool, isDeleting: bool,
                  react: Stored -> Stored, writes: nat, metaUp: bool, statusUp: bool) returns (ok: bool)
    requires original0.meta.Obj? && modified.meta.Obj? && original0.status.Obj? && modified.status.Obj?
    modifies server
    ensures server.Content() ==
      Written(old(server.Content()), old(server.version), original0, modified, failed, isDeleting, react, writes,
              metaUp, statusUp)
    ensures ok <==>
      && (original0.meta == modified.meta || MetaPasses(old(server.version), original0, modified, metaUp))
      && (isDeleting || StatusPasses(old(server.version), original0, modified, writes, statusUp))
    // the ordinary case: nobody's version is asked for, only the servers have to be up
    ensures original0.version == modified.version ==>
      (ok <==> (original0.meta != modified.meta ==> metaUp) && (!isDeleting ==> statusUp))
    // after a status stored on the way: nobody may have written since, up to the first patch
    ensures original0.version != modified.version ==>
      (ok <==>
         && (original0.meta != modified.meta ==> metaUp && modified.version == old(server.version))
         && (!isDeleting ==> statusUp)
         && (!isDeleting && original0.meta == modified.meta ==> modified.version == old(server.version) + writes))
    ensures original0.meta != modified.meta && !MetaPasses(old(server.version), original0, modified, metaUp) ==>
      server.Content() == old(server.Content()) && server.version == old(server.version)
  {
    var original, obj := original0, modified;
    if failed && !isDeleting {
      obj := obj.(status := Obj(obj.status.fields["state" := Leaf("FAILED")]));
    }
    var metaChanged := obj.meta != original.meta;
    if metaChanged {
      var currentStatus := obj.status;
      var patched := server.PatchMeta(Diff(original.meta, obj.meta), Expected(original, obj), metaUp);
      if !patched {
        return false;
      }
      // the response of the patch replaces the object, status included
      obj := Held(server.meta, server.status, server.version);
      obj := obj.(status := currentStatus);
      original := original.(version := obj.version);
    }
    server.Others(react, writes);
    if isDeleting {
      return true;
    }
    ok := server.PatchStatus(Diff(original.status, obj.status), Expected(original, obj), statusUp);
  }

  /** A reconcile that stored a status itself on the way: its write-back succeeds exactly
      when nobody wrote since, up to its first patch. */
  lemma ConditionalWriteBack(stored: nat, version: nat, original: Held, modified: Held, writes: nat)
    requires original.version < modified.version == stored <= version
    ensures (original.meta == modified.meta || MetaPasses(version, original, modified, true)) &&
            StatusPasses(version, original, modified, writes, true) <==>
            if original.meta != modified.meta then version == stored else version == stored && writes == 0
  {
  }

  /** Nobody wrote since the reconcile stored a status itself, if it did: the condition is
      void where base and object have one version. */
  predicate Undisturbed(version: nat, original: Held, modified: Held, writes: nat) {
    original.version == modified.version ||
    (modified.version == version && (original.meta != modified.meta || writes == 0))
  }

  /** What others are shown between the two patches. */
  function Patched(current: Stored, original: Held, modified: Held): Stored
    requires original.meta.Obj? && modified.meta.Obj?
  {
    if original.meta == modified.meta then current
    else Stored(Merge(current.meta, Diff(original.meta, modified.meta)), current.status)
  }

  /** No lost update, for every stored version: when the servers are up, every metadata field
      and every status field the reconcile changed has its value, and every other one keeps
      what others stored, whether they wrote before the first patch or between the two. After
      a permanent error the state is "FAILED". */
  lemma LosesNoUpdate(current: Stored, version: nat, original: Held, modified: Held, failed: bool,
                      react: Stored -> Stored, writes: nat, path: seq<string>, final: Stored)
    requires original.meta.Obj? && modified.meta.Obj? && original.status.Obj? && modified.status.Obj? && path != []
    requires Undisturbed(version, original, modified, writes)
    requires final == Written(current, version, original, modified, failed, false, react, writes, true, true)
    ensures
      var patched := Patched(current, original, modified);
      var seen := if writes == 0 then patched else react(patched);
      && final.meta == seen.meta
      && (Get(original.meta, path) != Get(modified.meta, path) ==>
            Field(patched.meta, path) == Field(modified.meta, path))
      && (Get(original.meta, path) == Get(modified.meta, path) && Kept(original.meta, modified.meta, path) ==>
            Field(patched.meta, path) == Field(current.meta, path))
      && (var intended := if failed then Intended(modified, true, false) else modified.status;
          && (Get(original.status, path) != Get(intended, path) ==>
                Field(final.status, path) == Field(intended, path))
          && (Get(original.status, path) == Get(intended, path) && Kept(original.status, intended, path) ==>
                Field(final.status, path) == Field(seen.status, path)))
  {
    var patched := Patched(current, original, modified);
    var seen := if writes == 0 then patched else react(patched);
    MergeField(current.meta, original.meta, modified.meta, path);
    MergeField(seen.status, original.status, Intended(modified, failed, false), path);
  }

  /** After a permanent error on an object not being deleted the stored state is "FAILED",
      unless it was so for the reconcile all along, and then it is what others stored; the
      other members of the status are as without the error. */
  lemma FailedState(current: Stored, version: nat, original: Held, modified: Held,
                    react: Stored -> Stored, writes: nat, key: string, final: Stored)
    requires original.meta.Obj? && modified.meta.Obj? && original.status.Obj? && modified.status.Obj?
    requires Undisturbed(version, original, modified, writes)
    requires final == Written(current, version, original, modified, true, false, react, writes, true, true)
    ensures var seen := if writes == 0 then Patched(current, original, modified)
                        else react(Patched(current, original, modified));
      && Field(final.status, ["state"]) == (if Field(original.status, ["state"]) == Some("FAILED")
                                            then Field(seen.status, ["state"]) else Some("FAILED"))
      && (key != "state" ==>
            Field(final.status, [key]) ==
            Field(Written(current, version, original, modified, false, false, react, writes, true, true).status, [key]))
  {
    var seen := if writes == 0 then Patched(current, original, modified)
                else react(Patched(current, original, modified));
    var failing := Intended(modified, true, false);
    assert Get(failing, ["state"]) == Some(Leaf("FAILED"));
    MergeField(seen.status, original.status, failing, ["state"]);
    MergeField(seen.status, original.status, failing, [key]);
    MergeField(seen.status, original.status, modified.status, [key]);
    if key != "state" {
      assert Get(failing, [key]) == Get(modified.status, [key]);
    }
  }

  /** On an object being deleted, and when the status server is down, the status stays as
      others left it. */
  lemma StatusLeftAlone(current: Stored, version: nat, original: Held, modified: Held, failed: bool, isDeleting: bool,
                        react: Stored -> Stored, writes: nat, statusUp: bool)
    requires original.meta.Obj? && modified.meta.Obj? && original.status.Obj? && modified.status.Obj?
    requires Undisturbed(version, original, modified, writes) && (isDeleting || !statusUp)
    ensures var patched := Patched(current, original, modified);
      Written(current, version, original, modified, failed, isDeleting, react, writes, true, statusUp) ==
      if writes == 0 then patched else react(patched)
  {
  }
}
