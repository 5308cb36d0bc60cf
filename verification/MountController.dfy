/** The reconcile code itself, call by call; whatever happens between its calls, it stays a run of MountProtocol. */
module MountController {
  import opened Basics
  import opened MountProtocol
  import opened MountSafety
  import opened MountStatus
  import opened Taints

  predicate Carries(item: Item, clusterID: string) {
    item.cluster == clusterID || item.annotation == clusterID
  }

  /** The first consumer workspace in the listing that carries the cluster ID in either field. */
  method ConsumerWorkspaceForCluster(items: seq<Item>, clusterID: string) returns (found: Option<string>)
    ensures found == FirstMatch(items, clusterID)
    ensures found.Some? ==>
              exists i :: 0 <= i < |items| && Carries(items[i], clusterID) && found.value == items[i].name &&
                forall j :: 0 <= j < i ==> !Carries(items[j], clusterID)
    ensures found.None? ==> forall i :: 0 <= i < |items| ==> !Carries(items[i], clusterID)
  {
    var i := 0;
    while i < |items|
      invariant i <= |items|
      invariant FirstMatch(items, clusterID) == FirstMatch(items[i..], clusterID)
      invariant forall j :: 0 <= j < i ==> !Carries(items[j], clusterID)
    {
      if items[i].cluster == clusterID || items[i].annotation == clusterID {
        return Some(items[i].name);
      }
      i := i + 1;
    }
    return None;
  }

  predicate IsOwn(k: Key, a: Action) {
    a == Work(k) || a == Stop(k)
  }

  function AsCall(r: Request): seq<Request> {
    if r.NoRequest? then [] else [r]
  }

  /** The calls the reconciles of one object make in a run, failed ones included. */
  ghost function Requests(c: Config, s: State, acts: seq<Action>, k: Key): seq<Request>
    requires Valid(c, s, acts)
    decreases |acts|
  {
    if acts == [] then []
    else (if IsOwn(k, acts[0]) then AsCall(RequestOf(c, k, s.local[k].pc)) else []) +
         Requests(c, Apply(c, s, acts[0]), acts[1..], k)
  }

  lemma {:induction false} RequestsAppend(c: Config, s: State, acts: seq<Action>, a: Action, k: Key)
    requires Valid(c, s, acts) && Enabled(c, Run(c, s, acts), a)
    ensures Valid(c, s, acts + [a])
    ensures Requests(c, s, acts + [a], k)
         == Requests(c, s, acts, k)
          + if IsOwn(k, a) then AsCall(RequestOf(c, k, Run(c, s, acts).local[k].pc)) else []
    decreases |acts|
  {
    hide Enabled, Apply, RequestOf, AsCall;
    RunAppend(c, s, acts, a);
    if acts == [] {
      assert acts + [a] == [a];
      assert Requests(c, Apply(c, s, a), [], k) == [];
    } else {
      RequestsAppend(c, Apply(c, s, acts[0]), acts[1..], a, k);
      assert (acts + [a])[1..] == acts[1..] + [a];
    }
  }

  lemma {:induction false} SameObjects(c: Config, s: State, acts: seq<Action>)
    requires Valid(c, s, acts)
    ensures Run(c, s, acts).local.Keys == s.local.Keys
    decreases |acts|
  {
    if acts != [] {
      SameObjects(c, Apply(c, s, acts[0]), acts[1..]);
    }
  }

  /** The updates that a list of nodes calls for, in order; the others are left alone. */
  function NodeWrites(nodes: seq<seq<Taint>>, allow: bool, n: nat): (writes: seq<Request>)
    requires n <= |nodes|
    ensures forall i :: 0 <= i < |writes| ==> writes[i].WriteNode?
  {
    if n == 0 then []
    else
      var node := nodes[n - 1];
      NodeWrites(nodes, allow, n - 1) +
      if Satisfies(node, allow) then [] else [WriteNode(n - 1, node, Desired(node, allow))]
  }

  lemma NoWrites(nodes: seq<seq<Taint>>, allow: bool)
    ensures NodeWrites(nodes, allow, 0) == []
  {
  }

  /** Which node updates are asked for: one for each node out of line, and its new taints follow the policy. */
  lemma {:induction false} NodeWritesOutright(nodes: seq<seq<Taint>>, allow: bool, n: nat, i: nat)
    requires i < n <= |nodes|
    ensures !FollowsPolicy(nodes[i], allow, nodes[i]) ==>
              exists w :: w in NodeWrites(nodes, allow, n) && w.WriteNode? && w.i == i
    ensures forall w :: w in NodeWrites(nodes, allow, n) && w.WriteNode? && w.i == i ==>
              w.was == nodes[i] && FollowsPolicy(nodes[i], allow, w.taints) && w.taints != nodes[i]
  {
    hide FollowsPolicy, Desired, Satisfies;
    var last := nodes[n - 1];
    FixedByPolicy(last, allow);
    PolicyHolds(last, allow);
    if i < n - 1 {
      NodeWritesOutright(nodes, allow, n - 1, i);
    } else {
      NodeWritesBelow(nodes, allow, n - 1);
      if !FollowsPolicy(last, allow, last) {
        assert WriteNode(n - 1, last, Desired(last, allow)) in NodeWrites(nodes, allow, n);
      }
    }
  }

  lemma {:induction false} NodeWritesBelow(nodes: seq<seq<Taint>>, allow: bool, n: nat)
    requires n <= |nodes|
    ensures forall w :: w in NodeWrites(nodes, allow, n) && w.WriteNode? ==> w.i < n
  {
    hide Desired, Satisfies;
    if n > 0 {
      NodeWritesBelow(nodes, allow, n - 1);
    }
  }

  /** What the calls of a reconcile may ask for after it has read the object, by the tenant's coordinates. */
  predicate Fits(c: Config, k: Key, r: Request) {
    match r
    case ReadObject => false
    case ReadWorkspace(p) => IsMountName(c, k, p.name)
    case CreateWorkspace(p, ref) => IsMountName(c, k, p.name) && IsReference(c, k, ref)
    case DeleteWorkspace(p) => IsMountName(c, k, p.name)
    case PatchAnnotation(st) => SaysOutright(c, k, st)
    case _ => true
  }

  predicate AllFit(c: Config, k: Key, made: seq<Request>) {
    forall i :: 0 <= i < |made| ==> Fits(c, k, made[i])
  }

  lemma FitTogether(c: Config, k: Key, a: seq<Request>, b: seq<Request>)
    requires AllFit(c, k, a) && AllFit(c, k, b)
    ensures AllFit(c, k, a + b)
  {
    hide Fits;
  }

  lemma PlainFit(c: Config, k: Key, made: seq<Request>)
    requires forall i :: 0 <= i < |made| ==>
               made[i].ReadCluster? || made[i].ReadSecret? || made[i].ApplyManifest? || made[i].ReadNodes? ||
               made[i].WriteNode? || made[i].WriteObject? || made[i].ListWorkspaces?
    ensures AllFit(c, k, made)
  {
  }

  /** The calls that have a mount in place: the listing, the read, and the creation. */
  predicate IsEnsure(made: seq<Request>) {
    && 0 < |made| <= 3 && made[0] == ListWorkspaces
    && (|made| > 1 ==> made[1].ReadWorkspace?)
    && (|made| > 2 ==> made[2].CreateWorkspace? && made[2].p == made[1].p)
  }

  predicate IsRemoval(c: Config, k: Key, made: seq<Request>) {
    made == [] || (|made| == 1 && made[0].DeleteWorkspace? && IsMountName(c, k, made[0].p.name))
  }

  /** How the attempt to have the mount in place ends. */
  datatype Ensured = CallFailed | NoWorkspace | DifferentReference | Unreachable | Found | Created

  class Controller {
    const c: Config
    ghost const origin: State
    var s: State
    ghost var trace: seq<Action>

    /** The world is the one the steps so far lead to. */
    ghost predicate Valid()
      reads this
    {
      Init(origin) && MountProtocol.Valid(c, origin, trace) && Run(c, origin, trace) == s
    }

    /** All calls that the reconciles of k have made. */
    ghost function Calls(k: Key): seq<Request>
      requires Valid()
      reads this
    {
      Requests(c, origin, trace, k)
    }

    predicate At(k: Key, pc: Pc)
      reads this
    {
      k in s.local && s.local[k].pc == pc
    }

    constructor (c: Config, s: State)
      requires Init(s)
      ensures Valid() && this.c == c && this.s == s && trace == [] && forall k :: Calls(k) == []
    {
      this.c, this.s, this.origin, this.trace := c, s, s, [];
    }

    /** One step that is possible now. */
    method Take(a: Action, ghost k: Key)
      requires Valid() && Enabled(c, s, a)
      modifies `s, `trace
      ensures Valid() && trace == old(trace) + [a] && s == Apply(c, old(s), a)
      ensures Calls(k)
           == old(Calls(k)) + if IsOwn(k, a) then AsCall(RequestOf(c, k, old(s).local[k].pc)) else []
    {
      hide Enabled, Apply, RequestOf, Init, Run, MountProtocol.Valid, Requests;
      RunAppend(c, origin, trace, a);
      RequestsAppend(c, origin, trace, a, k);
      s, trace := Apply(c, s, a), trace + [a];
    }

    /** Any number of steps by anything but the reconcile of k. */
    method Interfere(k: Key)
      requires Valid() && k in s.local
      modifies `s, `trace
      ensures Valid() && old(trace) <= trace && At(k, old(s).local[k].pc) && Calls(k) == old(Calls(k))
    {
      var batch: seq<Action> := *;
      for i := 0 to |batch|
        invariant Valid() && old(trace) <= trace && At(k, old(s).local[k].pc) && Calls(k) == old(Calls(k))
      {
        hide Valid, Calls;
        if Enabled(c, s, batch[i]) && !IsOwn(k, batch[i]) {
          Take(batch[i], k);
        }
      }
    }

    /** One API call, with its arguments. It meets the world as it is then, and may fail without effect. */
    method Do(k: Key, r: Request) returns (ok: bool, seen: State)
      requires Valid() && k in s.local && r == RequestOf(c, k, s.local[k].pc)
      modifies `s, `trace
      ensures Valid() && k in seen.local && seen.local[k].pc == old(s).local[k].pc
      ensures s == if ok then Call(c, seen, k) else With(seen, k, seen.local[k].(pc := Returned(false)))
      ensures old(trace) < trace && trace[|trace| - 1] == if ok then Work(k) else Stop(k)
      ensures Calls(k) == old(Calls(k)) + AsCall(r)
    {
      hide Valid, Calls, Call;
      Interfere(k);
      seen := s;
      ok := *;
      Take(if ok then Work(k) else Stop(k), k);
    }

    /** Whatever the calls have done, no child workspace is left without its owner. */
    lemma MountsAreOwned()
      requires Valid() && c.pinned
      ensures NoOrphans(s)
    {
      NoOrphanedMount(c, origin, trace);
    }

    /** When a reconcile gets to take the finalizer off, nothing it has created is left. */
    lemma NothingLeft(k: Key)
      requires Valid() && c.pinned && k in s.local && s.local[k].pc.RemoveFinalizer?
      ensures forall p :: p in s.mounts ==> s.mounts[p].creator != Some(k)
    {
      ReachedInv(c, origin, trace);
      MountSafety.NothingLeft(c, s, k);
    }

    /** When a reconcile is about to publish ready, the mount is in place unless others have touched it. */
    lemma ReadyIsBacked(k: Key)
      requires Valid() && c.pinned && k in s.local && UnsharedName(c, s, k)
      requires s.local[k].pc.CompareStatus? && s.local[k].pc.st.ready
      ensures exists p :: StandsAt(c, s, k, p)
    {
      SaidOutright(c, s, k);
      SameObjects(c, origin, trace);
      assert UnsharedName(c, origin, k);
      hide Run, MountProtocol.Valid, Init, LocalStatus, Backed, UnsharedName;
      ReachedStatus(c, origin, trace, k);
    }

    /** The last thing that happened is a call of the reconcile of k that did not fail. */
    ghost predicate Worked(k: Key)
      reads this
    {
      trace != [] && trace[|trace| - 1] == Work(k)
    }

    /** Reads the object from the informer's cache. */
    method GetObject(k: Key) returns (ok: bool, snap: Slot)
      requires Valid() && k in s.local && s.local[k].pc.Returned?
      modifies `s, `trace
      ensures Valid() && At(k, if ok then Begin(snap) else Returned(false))
      ensures old(trace) < trace && (ok ==> Worked(k)) && Calls(k) == old(Calls(k)) + [ReadObject]
    {
      hide Valid, Calls;
      var seen;
      ok, seen := Do(k, ReadObject);
      snap := seen.local[k].cache;
    }

    method EnsureCalicoInstalled(k: Key, allow: bool, up: bool, phase: string) returns (ok: bool)
      requires Valid() && At(k, ApplyCalico(allow, up, phase))
      modifies `s, `trace
      ensures Valid() && At(k, if ok then ListNodes(allow, up, phase) else Returned(false))
      ensures old(trace) < trace && Calls(k) == old(Calls(k)) + [ApplyManifest]
    {
      hide Valid, Calls;
      var done, seen := Do(k, ApplyManifest);
      ok := done && seen.local[k].secret;
    }

    /**
     * One reconcile, from its first call to its last: it reads the object once, made are its other calls, and between
     * two of them anything may happen. It succeeds only with a last call that does.
     */
    method Reconcile(k: Key) returns (ok: bool, ghost made: seq<Request>)
      requires Valid() && k in s.local && s.local[k].pc.Returned?
      modifies `s, `trace
      ensures Valid() && At(k, Returned(ok)) && old(trace) < trace && (ok ==> Worked(k))
      ensures Calls(k) == old(Calls(k)) + [ReadObject] + made && AllFit(c, k, made)
    {
      hide Valid, Calls, Allows, Remote, MountName, TrimSuffix, AfterNodes, Fits;
      made := [];
      var got, snap := GetObject(k);
      if !got { return false, []; }
      if snap.obj.None? { return true, []; }
      if snap.obj.value.deleting {
        ok, made := ReconcileDelete(k, snap);
        return;
      }
      if !snap.obj.value.ours {
        var updated := UpdateObject(k, snap, true);
        made := [WriteObject(snap.rv, snap.obj.value.(ours := true))];
        PlainFit(c, k, made);
        if !updated { return false, made; }
      }
      ghost var before := made;
      hide AllFit;
      ok, made := ReconcileMount(k, Remote(c, k), MountName(c, k), Allows(snap.obj.value));
      FitTogether(c, k, before, made);
      made := before + made;
    }

    /** The part of a reconcile that comes after the finalizer. */
    method ReconcileMount(k: Key, remote: Ref, mountedWorkspace: string, allow: bool)
      returns (ok: bool, ghost made: seq<Request>)
      requires Valid() && At(k, GetCluster(allow)) && mountedWorkspace == MountName(c, k) && remote == Remote(c, k)
      modifies `s, `trace
      ensures Valid() && At(k, Returned(ok)) && old(trace) < trace && (ok ==> Worked(k))
      ensures Calls(k) == old(Calls(k)) + made && AllFit(c, k, made)
    {
      hide Valid, Calls, Worked, MountName, Remote, Fits, AllFit;
      var found, clusterReady, phase := WorkloadClusterPhase(k, allow);
      made := [ReadCluster];
      PlainFit(c, k, made);
      if !found { return false, made; }
      var read, kubeconfigReady := KubeconfigExists(k, allow, clusterReady, phase);
      made := [ReadCluster, ReadSecret];
      PlainFit(c, k, made);
      assert Calls(k) == old(Calls(k)) + made;
      if !read { return false, made; }
      ghost var more := [];
      if kubeconfigReady {
        var prepared;
        prepared, more := ReconcileWorkload(k, allow, clusterReady, phase);
        FitTogether(c, k, made, more);
        made := made + more;
        if !prepared { return false, made; }
      }
      assert Calls(k) == old(Calls(k)) + made;
      ok, more := PublishStatus(k, clusterReady, kubeconfigReady, phase, mountedWorkspace, remote);
      FitTogether(c, k, made, more);
      made := made + more;
    }

    /** Has the mount in place before the status says so. */
    method PublishStatus(k: Key, clusterReady: bool, kubeconfigReady: bool, clusterPhase: string,
                         mountedWorkspace: string, remote: Ref)
      returns (ok: bool, ghost made: seq<Request>)
      requires Valid() && mountedWorkspace == MountName(c, k) && remote == Remote(c, k)
      requires At(k, if clusterReady && kubeconfigReady then ListForEnsure
                     else CompareStatus(Status(if clusterReady then "Connecting" else clusterPhase, false, "",
                                               mountedWorkspace)))
      requires clusterReady || clusterPhase != "Ready"
      modifies `s, `trace
      ensures Valid() && At(k, Returned(ok)) && old(trace) < trace && (ok ==> Worked(k))
      ensures Calls(k) == old(Calls(k)) + made && AllFit(c, k, made)
    {
      hide Valid, Calls, Worked, MountName, Remote, IsEnsure, FirstMatch, Serves, UnsharedName, Backed, Fits, AllFit,
           SaysOutright, IsReference, IsMountName;
      var phase, statusURL := clusterPhase, "";
      made := [];
      PlainFit(c, k, made);
      if clusterReady && kubeconfigReady {
        statusURL := TrimSuffix(c.proxyBase, "/") + "/mounts/" + k.ns + "/" + k.name;
        phase := "Ready";
        var ensured;
        ensured, made := EnsureMountedWorkspace(k, k.ns, mountedWorkspace, remote);
        if !ensured.Found? && !ensured.Created? { return false, made; }
      } else if clusterReady {
        phase := "Connecting";
      }
      var ready := clusterReady && kubeconfigReady;
      StatusFits(k, phase, ready, statusURL);
      ghost var last;
      ok, last := PatchStatusAnnotation(k, Status(phase, ready, statusURL, mountedWorkspace));
      FitTogether(c, k, made, [ReadCluster] + last);
      assert made + ([ReadCluster] + last) == made + [ReadCluster] + last;
      made := made + [ReadCluster] + last;
    }

    lemma StatusFits(k: Key, phase: string, ready: bool, url: string)
      requires ready <==> phase == "Ready"
      requires url == if ready then MountURL(c, k) else ""
      ensures forall last :: last == [] || last == [PatchAnnotation(Status(phase, ready, url, MountName(c, k)))] ==>
                AllFit(c, k, [ReadCluster] + last)
    {
      NamesAgree(c, k);
      assert |MountURL(c, k)| >= |"/mounts/"|;
    }

    /** What is done in the workload cluster once its kubeconfig is there. */
    method ReconcileWorkload(k: Key, allow: bool, up: bool, phase: string) returns (ok: bool, ghost made: seq<Request>)
      requires Valid() && At(k, ApplyCalico(allow, up, phase))
      modifies `s, `trace
      ensures Valid() && At(k, if ok then AfterNodes(c, k, up, phase) else Returned(false)) && old(trace) < trace
      ensures Calls(k) == old(Calls(k)) + made && AllFit(c, k, made)
    {
      hide Valid, Calls, AfterNodes, NodeWrites, AllFit;
      made := [ApplyManifest];
      PlainFit(c, k, made);
      var installed := EnsureCalicoInstalled(k, allow, up, phase);
      if !installed { return false, made; }
      ghost var more;
      ok, more := ReconcileControlPlaneScheduling(k, allow, up, phase);
      FitTogether(c, k, made, more);
      made := made + more;
    }

    /** The mount goes first, the finalizer last, and the object is written in the version that was read. */
    method ReconcileDelete(k: Key, snap: Slot) returns (ok: bool, ghost made: seq<Request>)
      requires Valid() && snap.obj.Some? && At(k, Begin(snap)) && snap.obj.value.deleting
      modifies `s, `trace
      ensures Valid() && At(k, Returned(ok)) && old(trace) <= trace
      ensures Calls(k) == old(Calls(k)) + made && AllFit(c, k, made)
      ensures !snap.obj.value.ours ==> ok && trace == old(trace)
      ensures ok && snap.obj.value.ours ==>
                exists gone :: IsRemoval(c, k, gone) && Worked(k)
                  && made == [ListWorkspaces] + gone + [WriteObject(snap.rv, snap.obj.value.(ours := false))]
    {
      hide Valid, Calls, Allows, MountName, IsMountName;
      made := [];
      if !snap.obj.value.ours { return true, []; }
      var deleted;
      ghost var gone;
      deleted, gone := DeleteMountedWorkspace(k, snap, k.ns, MountName(c, k));
      made := [ListWorkspaces] + gone;
      if !deleted { return false, made; }
      ok := UpdateObject(k, snap, false);
      made := made + [WriteObject(snap.rv, snap.obj.value.(ours := false))];
    }

    /** Writes the object back with or without our finalizer; refused when the version is not the current one. */
    method UpdateObject(k: Key, snap: Slot, ours: bool) returns (ok: bool)
      requires Valid() && snap.obj.Some? && At(k, if ours then AddFinalizer(snap) else RemoveFinalizer(snap))
      requires ours ==> !snap.obj.value.deleting
      modifies `s, `trace
      ensures Valid() && old(trace) < trace
      ensures Calls(k) == old(Calls(k)) + [WriteObject(snap.rv, snap.obj.value.(ours := ours))]
      ensures ok ==> At(k, if ours then GetCluster(Allows(snap.obj.value)) else Returned(true)) && Worked(k)
      ensures !ok ==> At(k, Returned(false))
      ensures ok ==> s.local[k].server == Settle(snap.rv + 1, snap.obj.value.(ours := ours))
    {
      hide Valid, Calls, Allows;
      var done, seen := Do(k, WriteObject(snap.rv, snap.obj.value.(ours := ours)));
      ok := done && seen.local[k].server.rv == snap.rv;
    }

    method WorkloadClusterPhase(k: Key, allow: bool) returns (ok: bool, ready: bool, phase: string)
      requires Valid() && At(k, GetCluster(allow))
      modifies `s, `trace
      ensures Valid() && At(k, if ok then GetSecret(allow, ready, phase) else Returned(false))
      ensures old(trace) < trace && Calls(k) == old(Calls(k)) + [ReadCluster]
      ensures ok ==>
                var cluster := s.local[k].clusterCache;
                && (ready <==> cluster.Some? && cluster.value.available) && (phase == "Ready" <==> ready)
                && (phase == "Connecting" <==> cluster.Some? && !ready && cluster.value.phase != "")
                && (phase == "Initializing" <==> !ready && (cluster.None? || cluster.value.phase == ""))
    {
      hide Valid, Calls;
      var done, seen := Do(k, ReadCluster);
      if !done { return false, false, ""; }
      var cluster := seen.local[k].clusterCache;
      if cluster.None? { return true, false, "Initializing"; }
      if cluster.value.available { return true, true, "Ready"; }
      if cluster.value.phase != "" { return true, false, "Connecting"; }
      return true, false, "Initializing";
    }

    method KubeconfigExists(k: Key, allow: bool, up: bool, phase: string) returns (ok: bool, present: bool)
      requires Valid() && At(k, GetSecret(allow, up, phase))
      modifies `s, `trace
      ensures Valid() && old(trace) < trace && Calls(k) == old(Calls(k)) + [ReadSecret]
      ensures At(k, if !ok then Returned(false)
                    else if present then ApplyCalico(allow, up, phase)
                    else CompareStatus(Status(if up then "Connecting" else phase, false, "", MountName(c, k))))
      ensures ok ==> present == s.local[k].secret
    {
      hide Valid, Calls, MountName;
      var done, seen := Do(k, ReadSecret);
      return done, done && seen.local[k].secret;
    }

    method ListControlPlaneNodes(k: Key, allow: bool, up: bool, phase: string)
      returns (ok: bool, nodes: seq<seq<Taint>>)
      requires Valid() && At(k, ListNodes(allow, up, phase))
      modifies `s, `trace
      ensures Valid() && At(k, if ok then UpdateNode(allow, up, phase, nodes, 0) else Returned(false))
      ensures old(trace) < trace && Calls(k) == old(Calls(k)) + [ReadNodes] && nodes == s.local[k].nodes
    {
      hide Valid, Calls;
      var done, seen := Do(k, ReadNodes);
      return done && seen.local[k].secret, seen.local[k].nodes;
    }

    /**
     * Brings one listed node in line; no call is made for a node that is already. An update is refused when the node
     * has changed since it was listed.
     */
    method UpdateTaints(k: Key, allow: bool, up: bool, phase: string, nodes: seq<seq<Taint>>, i: nat)
      returns (ok: bool)
      requires Valid() && At(k, UpdateNode(allow, up, phase, nodes, i)) && i < |nodes|
      modifies `s, `trace
      ensures Valid() && At(k, if ok then UpdateNode(allow, up, phase, nodes, i + 1) else Returned(false))
      ensures old(trace) < trace
      ensures Calls(k) == old(Calls(k))
                + if Satisfies(nodes[i], allow) then [] else [WriteNode(i, nodes[i], Desired(nodes[i], allow))]
      ensures ok && !Satisfies(nodes[i], allow) ==>
                i < |s.local[k].nodes| && s.local[k].nodes[i] == Desired(nodes[i], allow)
    {
      hide Valid, Calls, Desired, Satisfies, AfterNodes, FollowsPolicy;
      FixedByPolicy(nodes[i], allow);
      var updated, changed := DesiredControlPlaneTaints(nodes[i], allow);
      var done, seen := Do(k, if changed then WriteNode(i, nodes[i], updated) else NoRequest);
      var l := seen.local[k];
      ok := done && (!changed || (i < |l.nodes| && l.nodes[i] == nodes[i]));
    }

    /** Success means that the nodes were listed, and each that was out of line was updated, in order. */
    method ReconcileControlPlaneScheduling(k: Key, allow: bool, up: bool, phase: string)
      returns (ok: bool, ghost made: seq<Request>)
      requires Valid() && At(k, ListNodes(allow, up, phase))
      modifies `s, `trace
      ensures Valid() && At(k, if ok then AfterNodes(c, k, up, phase) else Returned(false)) && old(trace) < trace
      ensures Calls(k) == old(Calls(k)) + made && AllFit(c, k, made)
      ensures exists nodes, n :: 0 <= n <= |nodes| && made == [ReadNodes] + NodeWrites(nodes, allow, n)
                && (ok ==> n == |nodes|)
    {
      hide Valid, Calls, AfterNodes, Desired, Satisfies, NodeWrites;
      var listed, nodes := ListControlPlaneNodes(k, allow, up, phase);
      made := [ReadNodes];
      if !listed {
        NoWrites(nodes, allow);
        return false, made;
      }
      ghost var writes;
      ok, writes := UpdateNodes(k, allow, up, phase, nodes);
      made := made + writes;
    }

    method UpdateNodes(k: Key, allow: bool, up: bool, phase: string, nodes: seq<seq<Taint>>)
      returns (ok: bool, ghost made: seq<Request>)
      requires Valid() && At(k, UpdateNode(allow, up, phase, nodes, 0))
      modifies `s, `trace
      ensures Valid() && At(k, if ok then AfterNodes(c, k, up, phase) else Returned(false)) && old(trace) < trace
      ensures Calls(k) == old(Calls(k)) + made && AllFit(c, k, made)
      ensures exists n :: 0 <= n <= |nodes| && made == NodeWrites(nodes, allow, n) && (ok ==> n == |nodes|)
    {
      hide Valid, Calls, AfterNodes, Desired, Satisfies;
      made := NodeWrites(nodes, allow, 0);
      var i := 0;
      while i < |nodes|
        invariant i <= |nodes| && Valid() && At(k, UpdateNode(allow, up, phase, nodes, i)) && old(trace) <= trace
        invariant Calls(k) == old(Calls(k)) + made && made == NodeWrites(nodes, allow, i)
      {
        var updated := UpdateTaints(k, allow, up, phase, nodes, i);
        made := NodeWrites(nodes, allow, i + 1);
        if !updated { return false, made; }
        i := i + 1;
      }
      hide NodeWrites;
      ok := LeaveNodes(k, allow, up, phase, nodes);
    }

    /** The loop over the nodes ends; no call is made. */
    method LeaveNodes(k: Key, allow: bool, up: bool, phase: string, nodes: seq<seq<Taint>>) returns (ok: bool)
      requires Valid() && At(k, UpdateNode(allow, up, phase, nodes, |nodes|))
      modifies `s, `trace
      ensures Valid() && At(k, if ok then AfterNodes(c, k, up, phase) else Returned(false))
      ensures old(trace) < trace && Calls(k) == old(Calls(k))
    {
      hide Valid, Calls, AfterNodes;
      var seen;
      ok, seen := Do(k, NoRequest);
    }

    /** Finds the workspace to have the mount in. */
    method ListConsumers(k: Key, clusterID: string) returns (ok: bool, ws: Option<string>)
      requires Valid() && At(k, ListForEnsure) && clusterID == k.ns
      modifies `s, `trace
      ensures Valid() && old(trace) < trace && (ok <==> Worked(k)) && Calls(k) == old(Calls(k)) + [ListWorkspaces]
      ensures At(k, if ok && ws.Some? then GetMount(ws.value) else Returned(false))
      ensures ok ==> ws == FirstMatch(s.consumers, clusterID)
      ensures ok && ws.None? ==> forall i :: 0 <= i < |s.consumers| ==> !Carries(s.consumers[i], clusterID)
    {
      hide Valid, Calls;
      var seen;
      ok, seen := Do(k, ListWorkspaces);
      ws := ConsumerWorkspaceForCluster(seen.consumers, clusterID);
    }

    /** Reads the child workspace, if it exists. */
    method GetMountedWorkspace(k: Key, p: Place, remote: Ref) returns (ok: bool, existing: Option<Mount>)
      requires Valid() && At(k, GetMount(p.ws)) && p.name == MountName(c, k) && remote == Remote(c, k)
      modifies `s, `trace
      ensures Valid() && old(trace) < trace && (ok <==> Worked(k)) && Calls(k) == old(Calls(k)) + [ReadWorkspace(p)]
      ensures At(k, if ok && existing.None? then CreateMount(p.ws)
                    else if ok && existing.value.ref == Some(remote) then CompareStatus(ReadyStatus(c, k))
                    else Returned(false))
      ensures ok && existing.Some? ==> p in s.mounts && s.mounts[p] == existing.value
    {
      hide Valid, Calls, MountName, Remote, ReadyStatus;
      var seen;
      ok, seen := Do(k, ReadWorkspace(p));
      existing := if p in seen.mounts then Some(seen.mounts[p]) else None;
    }

    /** Creates the child workspace; one that exists by now is as good, and an unreachable place is an error. */
    method CreateMountedWorkspace(k: Key, p: Place, remote: Ref) returns (ok: bool, served: bool)
      requires Valid() && At(k, CreateMount(p.ws)) && p.name == MountName(c, k) && remote == Remote(c, k)
      modifies `s, `trace
      ensures Valid() && old(trace) < trace && (ok <==> Worked(k))
      ensures Calls(k) == old(Calls(k)) + [CreateWorkspace(p, remote)]
      ensures At(k, if ok && served then CompareStatus(ReadyStatus(c, k)) else Returned(false))
      ensures ok ==> (served <==> Serves(s.consumers, p.ws)) && (served ==> p in s.mounts)
    {
      hide Valid, Calls, MountName, Remote, ReadyStatus, Serves;
      var seen;
      ok, seen := Do(k, CreateWorkspace(p, remote));
      served := Serves(seen.consumers, p.ws);
    }

    /**
     * Has the mount in place at the first workspace listed for the cluster, or says why not. A place that was free
     * when it was read may have been taken when the mount is created; that counts as success.
     */
    method EnsureMountedWorkspace(k: Key, clusterID: string, name: string, remote: Ref)
      returns (outcome: Ensured, ghost made: seq<Request>)
      requires Valid() && At(k, ListForEnsure) && clusterID == k.ns && name == MountName(c, k) && remote == Remote(c, k)
      modifies `s, `trace
      ensures Valid() && old(trace) < trace
      ensures At(k, if outcome.Found? || outcome.Created? then CompareStatus(ReadyStatus(c, k)) else Returned(false))
      ensures Calls(k) == old(Calls(k)) + made && IsEnsure(made) && AllFit(c, k, made)
      ensures outcome.CallFailed? <==> !Worked(k)
      ensures outcome.NoWorkspace? ==>
                |made| == 1 && forall i :: 0 <= i < |s.consumers| ==> !Carries(s.consumers[i], clusterID)
      ensures outcome.Found? || outcome.DifferentReference? ==>
                |made| == 2 && made[1].p in s.mounts &&
                var ref := s.mounts[made[1].p].ref; outcome.Found? <==> ref.Some? && IsReference(c, k, ref.value)
      ensures outcome.Unreachable? ==> |made| == 3 && !Serves(s.consumers, made[2].p.ws)
      ensures outcome.Created? ==> |made| == 3 && made[2].p in s.mounts
      ensures c.pinned && UnsharedName(c, s, k) && (outcome.Found? || outcome.Created?) ==>
                exists p :: StandsAt(c, s, k, p)
    {
      hide Valid, Calls, Worked, MountName, Remote, MountURL, UnsharedName, StandsAt, Serves, FirstMatch, Listable,
           IsMountName, IsReference;
      NamesAgree(c, k);
      made := [ListWorkspaces];
      var listed, ws := ListConsumers(k, clusterID);
      if !listed { return CallFailed, made; }
      if ws.None? { return NoWorkspace, made; }
      var p := Place(ws.value, name);
      made := [ListWorkspaces, ReadWorkspace(p)];
      var got, existing := GetMountedWorkspace(k, p, remote);
      if !got { return CallFailed, made; }
      if existing.Some? {
        outcome := if existing.value.ref == Some(remote) then Found else DifferentReference;
      } else {
        made := [ListWorkspaces, ReadWorkspace(p), CreateWorkspace(p, remote)];
        var created, served := CreateMountedWorkspace(k, p, remote);
        outcome := if !created then CallFailed else if served then Created else Unreachable;
      }
      if c.pinned && UnsharedName(c, s, k) && (outcome.Found? || outcome.Created?) {
        ReadyIsBacked(k);
      }
    }

    /** Deletes what is at the mount's place in the workspace listed for the cluster, if one is. */
    method DeleteMountedWorkspace(k: Key, snap: Slot, clusterID: string, name: string)
      returns (ok: bool, ghost made: seq<Request>)
      requires Valid() && At(k, ListForDelete(snap)) && clusterID == k.ns && name == MountName(c, k)
      modifies `s, `trace
      ensures Valid() && At(k, if ok then RemoveFinalizer(snap) else Returned(false)) && old(trace) < trace
      ensures Calls(k) == old(Calls(k)) + [ListWorkspaces] + made && IsRemoval(c, k, made)
      ensures ok && made == [] ==> forall i :: 0 <= i < |s.consumers| ==> !Carries(s.consumers[i], clusterID)
      ensures ok && made != [] ==> made[0].p !in s.mounts
      ensures c.pinned && ok ==> forall p :: p in s.mounts ==> s.mounts[p].creator != Some(k)
    {
      hide Valid, Calls, MountName, IsMountName, FirstMatch;
      NamesAgree(c, k);
      made := [];
      var listed, seen := Do(k, ListWorkspaces);
      if !listed { return false, []; }
      var ws := ConsumerWorkspaceForCluster(seen.consumers, clusterID);
      ok := true;
      if ws.Some? {
        made := [DeleteWorkspace(Place(ws.value, name))];
        ok, seen := Do(k, DeleteWorkspace(Place(ws.value, name)));
      }
      if c.pinned && ok {
        NothingLeft(k);
      }
    }

    /** Patches the annotation unless the copy that was read has none to patch or carries it already. */
    method PatchStatusAnnotation(k: Key, desired: Status) returns (ok: bool, ghost made: seq<Request>)
      requires Valid() && At(k, CompareStatus(desired))
      modifies `s, `trace
      ensures Valid() && At(k, Returned(ok)) && old(trace) < trace && (ok ==> Worked(k))
      ensures Calls(k) == old(Calls(k)) + [ReadCluster] + made && (made == [] || made == [PatchAnnotation(desired)])
      ensures ok && made == [] ==>
                var cluster := s.local[k].clusterCache; cluster.None? || cluster.value.annotation == Some(desired)
      ensures ok && made != [] ==>
                var cluster := s.local[k].cluster; cluster.Some? && cluster.value.annotation == Some(desired)
    {
      hide Valid, Calls;
      made := [];
      var got, seen := Do(k, ReadCluster);
      if !got { return false, []; }
      var cluster := seen.local[k].clusterCache;
      if cluster.None? || cluster.value.annotation == Some(desired) { return true, []; }
      made := [PatchAnnotation(desired)];
      var patched, at := Do(k, PatchAnnotation(desired));
      ok := patched && at.local[k].cluster.Some?;
    }
  }
}
