/** When a reconcile that succeeds leaves nothing for the next one to write, as long as nothing else changes. */
module MountFixedPoint {
  import opened Basics
  import opened Taints
  import opened MountProtocol

  /** How many calls a reconcile still makes at most. */
  function Rank(l: Local): nat {
    match l.pc
    case Returned(_) => 0
    case PatchStatus(_) => 1
    case CompareStatus(_) => 2
    case CreateMount(_) => 3
    case GetMount(_) => 4
    case ListForEnsure => 5
    case UpdateNode(_, _, _, listed, i) => if i < |listed| then 6 + |listed| - i else 6
    case ListNodes(_, _, _) => 7 + |l.nodes|
    case ApplyCalico(_, _, _) => 8 + |l.nodes|
    case GetSecret(_, _, _) => 9 + |l.nodes|
    case GetCluster(_) => 10 + |l.nodes|
    case AddFinalizer(_) => 11 + |l.nodes|
    case RemoveFinalizer(_) => 1
    case DeleteMount(_, _) => 2
    case ListForDelete(_) => 3
  }

  lemma RankFalls(c: Config, s: State, k: Key)
    requires k in s.local && !s.local[k].pc.Returned?
    ensures Rank(Call(c, s, k).local[k]) < Rank(s.local[k])
  {
    hide Desired, MountName, ReadyStatus, FirstMatch, Serves, Settle, Allows, ClusterPhase;
    assert Call(c, s, k).local[k] == CallLocal(c, k, s.local[k], s);
  }

  /** The rest of a reconcile that nothing disturbs. */
  function Finish(c: Config, s: State, k: Key): (t: State)
    requires k in s.local
    ensures t.local.Keys == s.local.Keys
    decreases Rank(s.local[k])
  {
    if s.local[k].pc.Returned? then s else
      RankFalls(c, s, k);
      Finish(c, Call(c, s, k), k)
  }

  /** A whole reconcile that nothing disturbs. */
  function Reconciled(c: Config, s: State, k: Key): (t: State)
    requires k in s.local && s.local[k].pc.Returned?
    ensures t.local.Keys == s.local.Keys
  {
    Finish(c, Call(c, s, k), k)
  }

  predicate UpToDate(l: Local) {
    l.cache == l.server && l.clusterCache == l.cluster
  }

  /** Equal but for the record of what others have touched. */
  predicate Same(s: State, t: State) {
    s.(meddled := t.meddled) == t
  }

  /** The next call asks for no write, and changes nothing but where the reconcile stands. */
  predicate ReadsOnly(c: Config, s: State, k: Key)
    requires k in s.local
  {
    var pc := s.local[k].pc;
    !IsWrite(RequestOf(c, k, pc)) && Same(With(s, k, s.local[k].(pc := Call(c, s, k).local[k].pc)), Call(c, s, k))
  }

  /** All calls still to come read only. */
  predicate Silent(c: Config, s: State, k: Key)
    requires k in s.local
    decreases Rank(s.local[k])
  {
    s.local[k].pc.Returned? ||
    (RankFalls(c, s, k); ReadsOnly(c, s, k) && Silent(c, Call(c, s, k), k))
  }

  /** A whole reconcile succeeds without a write. */
  predicate Quiet(c: Config, s: State, k: Key)
    requires k in s.local && s.local[k].pc.Returned?
  {
    ReadsOnly(c, s, k) && Silent(c, Call(c, s, k), k) && Reconciled(c, s, k).local[k].pc == Returned(true)
  }

  function Synced(s: State, k: Key): State
    requires k in s.local
  {
    var l := s.local[k];
    With(s, k, l.(cache := l.server, news := [], clusterCache := l.cluster, clusterNews := []))
  }

  predicate Stored(l: Local) {
    l.server.obj.Some? && !l.server.obj.value.deleting
  }

  /** The status that goes with a Cluster and with the presence of its kubeconfig. */
  function StatusFor(c: Config, k: Key, cluster: Option<Cluster>, secret: bool): Status {
    var (up, phase) := ClusterPhase(cluster);
    if up && secret then ReadyStatus(c, k)
    else Status(if up then "Connecting" else phase, false, "", MountName(c, k))
  }

  /** What a reconcile publishes: it goes by the informer's copy. */
  function Wanted(c: Config, k: Key, l: Local): Status {
    StatusFor(c, k, l.clusterCache, l.secret)
  }

  predicate NodesDone(l: Local, n: nat, allow: bool) {
    forall i :: 0 <= i < n && i < |l.nodes| ==> Desired(l.nodes[i], allow) == l.nodes[i]
  }

  predicate MountInPlace(c: Config, s: State, k: Key) {
    FirstMatch(s.consumers, k.ns).Some? &&
    var p := Place(FirstMatch(s.consumers, k.ns).value, MountName(c, k));
    p in s.mounts && s.mounts[p].ref == Some(Remote(c, k))
  }

  /** What a reconcile is after: finalizer, node taints, child workspace and status annotation. */
  predicate Settled(c: Config, s: State, k: Key)
    requires k in s.local
  {
    var l := s.local[k];
    && Stored(l) && l.server.obj.value.ours && UpToDate(l) && Done(c, s, k, Allows(l.server.obj.value))
    && (l.cluster.Some? ==> l.cluster.value.annotation == Some(Wanted(c, k, l)))
  }

  predicate Done(c: Config, s: State, k: Key, allow: bool)
    requires k in s.local
  {
    var l := s.local[k];
    (l.secret ==> NodesDone(l, |l.nodes|, allow)) && (Wanted(c, k, l).ready ==> MountInPlace(c, s, k))
  }

  /******* The same, said outright *******/

  /** The status that goes with a Cluster and with the presence of its kubeconfig. */
  predicate StatusSays(c: Config, k: Key, cl: Cluster, secret: bool, st: Status) {
    && (st.ready <==> cl.available && secret)
    && st.phase == (if st.ready then "Ready"
                    else if cl.available || cl.phase != "" then "Connecting"
                    else "Initializing")
    && (if st.ready then IsMountURL(c, k, st.url) else st.url == "") && IsMountName(c, k, st.mount)
  }

  /** The first workspace listed for the object's cluster has the mount, by the tenant's coordinates. */
  predicate MountStands(c: Config, s: State, k: Key) {
    exists i :: 0 <= i < |s.consumers| && IsFirst(s.consumers, k.ns, i) && StandsIn(c, s, k, s.consumers[i].name)
  }

  predicate StandsIn(c: Config, s: State, k: Key, ws: string) {
    exists p :: p in s.mounts && p.ws == ws && IsMountName(c, k, p.name) &&
      s.mounts[p].ref.Some? && IsReference(c, k, s.mounts[p].ref.value)
  }

  predicate IsFirst(items: seq<Item>, id: string, i: nat)
    requires i < |items|
  {
    && (items[i].cluster == id || items[i].annotation == id)
    && forall j :: 0 <= j < i ==> items[j].cluster != id && items[j].annotation != id
  }

  /**
   * The object is stored with the finalizer and known, and its Cluster is known; the nodes of a workload cluster that
   * can be reached have a blocking taint exactly when the object forbids scheduling; the Cluster shows the status that
   * goes with it; and if that is ready, the mount stands.
   */
  ghost predicate SettledSays(c: Config, s: State, k: Key)
    requires k in s.local
  {
    var l := s.local[k];
    && l.server.obj.Some? && !l.server.obj.value.deleting && l.server.obj.value.ours
    && l.cache == l.server && l.clusterCache == l.cluster
    && (l.secret ==> forall i :: 0 <= i < |l.nodes| ==>
          FollowsPolicy(l.nodes[i], l.server.obj.value.allow != Some(false), l.nodes[i]))
    && (l.cluster.Some? ==>
          && l.cluster.value.annotation.Some?
          && StatusSays(c, k, l.cluster.value, l.secret, l.cluster.value.annotation.value)
          && (l.cluster.value.available && l.secret ==> MountStands(c, s, k)))
  }

  lemma {:induction false} FirstMatchIsFirst(items: seq<Item>, id: string, i: nat)
    requires i < |items|
    ensures IsFirst(items, id, i) ==> FirstMatch(items, id) == Some(items[i].name)
    ensures FirstMatch(items, id).Some? ==> exists j :: 0 <= j < |items| && IsFirst(items, id, j)
  {
    if items[0].cluster != id && items[0].annotation != id && |items| > 1 {
      var rest := items[1..];
      FirstMatchIsFirst(rest, id, if i == 0 then 0 else i - 1);
      assert forall j :: 0 <= j < |rest| ==> rest[j] == items[j + 1];
      if i > 0 && IsFirst(items, id, i) {
        assert forall j :: 0 <= j < i - 1 ==> rest[j] == items[j + 1];
      }
      if FirstMatch(rest, id).Some? {
        var j :| 0 <= j < |rest| && IsFirst(rest, id, j);
        assert forall n :: 0 < n < j + 1 ==> items[n] == rest[n - 1];
        assert IsFirst(items, id, j + 1);
      }
    } else if items[0].cluster == id || items[0].annotation == id {
      assert IsFirst(items, id, 0);
    } else {
      assert items[1..] == [];
      NoMatchIn(id);
    }
  }

  lemma MountStandsOutright(c: Config, s: State, k: Key)
    ensures MountInPlace(c, s, k) <==> MountStands(c, s, k)
  {
    hide IsFirst, IsMountName, IsReference, MountName, Remote, FirstMatch;
    NamesAgree(c, k);
    if MountInPlace(c, s, k) {
      var ws := FirstMatch(s.consumers, k.ns).value;
      NoMatchIn(k.ns);
      FirstMatchIsFirst(s.consumers, k.ns, 0);
      var j :| 0 <= j < |s.consumers| && IsFirst(s.consumers, k.ns, j);
      FirstMatchIsFirst(s.consumers, k.ns, j);
      assert Place(ws, MountName(c, k)) in s.mounts;
      assert StandsIn(c, s, k, ws);
    }
    if MountStands(c, s, k) {
      var i :| 0 <= i < |s.consumers| && IsFirst(s.consumers, k.ns, i) && StandsIn(c, s, k, s.consumers[i].name);
      FirstMatchIsFirst(s.consumers, k.ns, i);
    }
  }

  lemma NoMatchIn(id: string)
    ensures FirstMatch([], id) == None
  {
  }

  /** What it means to be settled. */
  lemma SettledMeans(c: Config, s: State, k: Key)
    requires k in s.local
    ensures Settled(c, s, k) <==> SettledSays(c, s, k)
  {
    hide FollowsPolicy, Desired, MountInPlace, MountStands, IsMountName, IsMountURL, MountName, MountURL;
    var l := s.local[k];
    if Stored(l) {
      var allow := Allows(l.server.obj.value);
      assert allow <==> l.server.obj.value.allow != Some(false);
      forall i | 0 <= i < |l.nodes|
        ensures FollowsPolicy(l.nodes[i], allow, l.nodes[i]) <==> Desired(l.nodes[i], allow) == l.nodes[i]
      {
        PolicyOutright(l.nodes[i], allow);
      }
    }
    MountStandsOutright(c, s, k);
    NamesAgree(c, k);
  }

  lemma PolicyOutright(taints: seq<Taint>, allow: bool)
    ensures FollowsPolicy(taints, allow, taints) <==> Desired(taints, allow) == taints
  {
    hide Desired, Satisfies;
    PolicyHolds(taints, allow);
    FixedByPolicy(taints, allow);
    SatisfiedOutright(taints, allow);
  }

  lemma SatisfiedOutright(taints: seq<Taint>, allow: bool)
    ensures FollowsPolicy(taints, allow, taints) ==> Satisfies(taints, allow)
  {
    BlockedOutright(taints);
  }

  predicate PatchIsSkipped(c: Config, k: Key, l: Local) {
    l.clusterCache.None? || l.clusterCache.value.annotation == Some(Wanted(c, k, l))
  }

  /** The Cluster after a reconcile that succeeds. */
  function Patched(c: Config, k: Key, l: Local): Option<Cluster> {
    if l.cluster.None? || PatchIsSkipped(c, k, l) then l.cluster
    else Some(l.cluster.value.(annotation := Some(Wanted(c, k, l))))
  }

  /** The copy of the object that a reconcile begins with sends it past the finalizer. */
  predicate GoesOn(l: Local) {
    l.cache.obj.Some? && !l.cache.obj.value.deleting
  }

  /** The current version of the object once that reconcile has its finalizer on. */
  function Taken(l: Local): Slot
    requires GoesOn(l)
  {
    if l.cache.obj.value.ours then l.server else Slot(l.cache.rv + 1, Some(l.cache.obj.value.(ours := true)))
  }

  /** What a reconcile that began in the state before leaves alone. */
  predicate Kept(c: Config, before: State, s: State, k: Key)
    requires k in before.local && k in s.local
  {
    var l0, l := before.local[k], s.local[k];
    && s.consumers == before.consumers && l.clusterCache == l0.clusterCache && l.secret == l0.secret
    && |l.nodes| == |l0.nodes|
    && (!Wanted(c, k, l0).ready ==> s.mounts == before.mounts)
    && (!l.pc.Returned? ==> l.cluster == l0.cluster)
  }

  /** What the calls made so far have achieved, call by call. */
  predicate Achieved(c: Config, before: State, s: State, k: Key)
    requires k in before.local && k in s.local && GoesOn(before.local[k])
  {
    var l0, l := before.local[k], s.local[k];
    var due := Allows(l0.cache.obj.value);
    var (up, phase) := ClusterPhase(l.clusterCache);
    Kept(c, before, s, k) &&
    match l.pc
    case Returned(ok) => ok ==> Underway(l0, l, due) && Done(c, s, k, due) && l.cluster == Patched(c, k, l0)
    case AddFinalizer(snap) => snap == l0.cache && l.server == l0.server && !l0.cache.obj.value.ours
    case GetCluster(allow) => Underway(l0, l, allow)
    case GetSecret(allow, u, ph) => Underway(l0, l, allow) && (u, ph) == (up, phase)
    case ApplyCalico(allow, u, ph) => Underway(l0, l, allow) && (u, ph) == (up, phase) && l.secret
    case ListNodes(allow, u, ph) => Underway(l0, l, allow) && (u, ph) == (up, phase) && l.secret
    case UpdateNode(allow, u, ph, listed, i) =>
      Underway(l0, l, allow) && (u, ph) == (up, phase) && l.secret &&
      NodesDone(l, i, due) && |listed| == |l.nodes| && forall j :: i <= j < |listed| ==> listed[j] == l.nodes[j]
    case ListForEnsure => AtMount(l0, l, up)
    case GetMount(ws) => AtMount(l0, l, up) && FirstMatch(s.consumers, k.ns) == Some(ws)
    case CreateMount(ws) =>
      AtMount(l0, l, up) && FirstMatch(s.consumers, k.ns) == Some(ws) && Place(ws, MountName(c, k)) !in s.mounts
    case CompareStatus(st) => Underway(l0, l, due) && st == Wanted(c, k, l) && Done(c, s, k, due)
    case PatchStatus(st) =>
      Underway(l0, l, due) && st == Wanted(c, k, l) && Done(c, s, k, due) && !PatchIsSkipped(c, k, l)
    case _ => false
  }

  /** The finalizer is on as far as the reconcile can tell, and it goes by the setting it has read. */
  predicate Underway(l0: Local, l: Local, allow: bool)
    requires GoesOn(l0)
  {
    && l.server == Taken(l0) && (l0.cache.obj.value.ours || l0.cache.rv == l0.server.rv)
    && allow == Allows(l0.cache.obj.value)
  }

  predicate AtMount(l0: Local, l: Local, up: bool)
    requires GoesOn(l0)
  {
    var due := Allows(l0.cache.obj.value);
    Underway(l0, l, due) && l.secret && up && NodesDone(l, |l.nodes|, due)
  }

  predicate IsEarly(pc: Pc) {
    pc.AddFinalizer? || pc.GetCluster? || pc.GetSecret? || pc.ApplyCalico? || pc.ListNodes? || pc.UpdateNode?
  }

  predicate IsLast(pc: Pc) {
    pc.CompareStatus? || pc.PatchStatus?
  }

  lemma EarlyCall(c: Config, before: State, s: State, k: Key)
    requires k in before.local && k in s.local && GoesOn(before.local[k])
    requires Achieved(c, before, s, k) && IsEarly(s.local[k].pc)
    ensures Achieved(c, before, Call(c, s, k), k)
  {
    if s.local[k].pc.UpdateNode? {
      NodeCall(c, before, s, k);
    } else {
      hide NodesDone, MountInPlace;
    }
  }

  lemma NodeCall(c: Config, before: State, s: State, k: Key)
    requires k in before.local && k in s.local && GoesOn(before.local[k]) && Achieved(c, before, s, k)
    requires s.local[k].pc.UpdateNode?
    ensures Achieved(c, before, Call(c, s, k), k)
  {
    hide MountInPlace, ReadyStatus, MountName, ClusterPhase, Taken, Allows;
    var l, l' := s.local[k], Call(c, s, k).local[k];
    if l.pc.i < |l.pc.listed| {
      FixedByPolicy(l.nodes[l.pc.i], l.pc.allow);
      hide Desired;
      if !l'.pc.Returned? {
        assert l'.nodes == l.nodes[l.pc.i := Desired(l.nodes[l.pc.i], l.pc.allow)];
        NodesOneMore(l, l', l.pc.i, l.pc.allow);
        hide NodesDone, StatusFor;
      }
    } else {
      SameNodes(l, l', |l.nodes|, l.pc.allow);
      hide Desired, NodesDone;
    }
  }

  lemma NodesOneMore(l: Local, l': Local, i: nat, allow: bool)
    requires i < |l.nodes| && NodesDone(l, i, allow)
    requires var done := Desired(l.nodes[i], allow);
             Desired(done, allow) == done && l'.nodes == l.nodes[i := done]
    ensures NodesDone(l', i + 1, allow)
  {
    hide Desired;
  }

  lemma SameNodes(l: Local, l': Local, n: nat, allow: bool)
    requires l'.nodes == l.nodes
    ensures NodesDone(l, n, allow) == NodesDone(l', n, allow)
  {
  }

  lemma MountCall(c: Config, before: State, s: State, k: Key)
    requires k in before.local && k in s.local && GoesOn(before.local[k]) && Achieved(c, before, s, k)
    requires !s.local[k].pc.Returned? && !IsEarly(s.local[k].pc) && !IsLast(s.local[k].pc)
    ensures Achieved(c, before, Call(c, s, k), k)
  {
    hide NodesDone, MountName, Remote, MountURL, Serves, Settle, Taken, Allows;
    var l, t := s.local[k], Call(c, s, k);
    SameNodes(l, t.local[k], |l.nodes|, Allows(before.local[k].cache.obj.value));
  }

  lemma StatusCall(c: Config, before: State, s: State, k: Key)
    requires k in before.local && k in s.local && GoesOn(before.local[k]) && Achieved(c, before, s, k)
    requires IsLast(s.local[k].pc)
    ensures Achieved(c, before, Call(c, s, k), k)
  {
    hide NodesDone, MountInPlace, StatusFor, Settle, Taken, Allows;
    var l, t := s.local[k], Call(c, s, k);
    SameNodes(l, t.local[k], |l.nodes|, Allows(before.local[k].cache.obj.value));
    assert MountInPlace(c, s, k) == MountInPlace(c, t, k) by { SameMounts(c, s, t, k); }
  }

  lemma SameMounts(c: Config, s: State, t: State, k: Key)
    requires t.consumers == s.consumers && t.mounts == s.mounts
    ensures MountInPlace(c, s, k) == MountInPlace(c, t, k)
  {
  }

  lemma AchievesMore(c: Config, before: State, s: State, k: Key)
    requires k in before.local && k in s.local && GoesOn(before.local[k])
    requires Achieved(c, before, s, k) && !s.local[k].pc.Returned?
    ensures Achieved(c, before, Call(c, s, k), k)
  {
    hide Achieved;
    if IsEarly(s.local[k].pc) {
      EarlyCall(c, before, s, k);
    } else if IsLast(s.local[k].pc) {
      StatusCall(c, before, s, k);
    } else {
      MountCall(c, before, s, k);
    }
  }

  lemma {:induction false} FinishAchieves(c: Config, before: State, s: State, k: Key)
    requires k in before.local && k in s.local && GoesOn(before.local[k]) && Achieved(c, before, s, k)
    ensures k in Finish(c, s, k).local && Finish(c, s, k).local[k].pc.Returned?
    ensures Achieved(c, before, Finish(c, s, k), k)
    decreases Rank(s.local[k])
  {
    hide Achieved, Rank;
    if !s.local[k].pc.Returned? {
      RankFalls(c, s, k);
      AchievesMore(c, before, s, k);
      hide Call;
      FinishAchieves(c, before, Call(c, s, k), k);
    }
  }

  /** A version number names one version; true in every reachable state. */
  predicate Versioned(l: Local) {
    l.cache.rv == l.server.rv ==> l.cache == l.server
  }

  /** The Cluster that a reconcile leaves shows the status that goes with the Cluster as it is. */
  predicate StatusFits(c: Config, s: State, k: Key)
    requires k in s.local
  {
    var l := s.local[k];
    var due := StatusFor(c, k, l.cluster, l.secret);
    l.cluster.None? ||
    (Patched(c, k, l).value.annotation == Some(due) &&
     (due.ready ==> Wanted(c, k, l).ready || MountInPlace(c, s, k)))
  }

  /** As far as a reconcile goes by its copy of the object, the copy is as good as the object. */
  predicate CopyFits(l: Local) {
    && l.cache.obj.Some? && l.server.obj.Some?
    && (l.cache.obj.value.ours ==> l.server.obj.value.ours)
    && (l.secret && l.nodes != [] ==> Allows(l.cache.obj.value) == Allows(l.server.obj.value))
  }

  /**
   * Whether a reconcile that starts here and succeeds leaves everything settled, told before it starts. With a copy
   * from before the object's creation, or from an earlier deletion, it does nothing.
   */
  predicate Sighted(c: Config, s: State, k: Key)
    requires k in s.local
  {
    if Begin(s.local[k].cache).Returned? then Settled(c, Synced(s, k), k)
    else CopyFits(s.local[k]) && StatusFits(c, s, k)
  }

  /** The informer's copy shows the annotation that is wanted only if the Cluster does. */
  predicate Honest(c: Config, k: Key, l: Local) {
    l.cluster.Some? && l.clusterCache.Some? && l.clusterCache.value.annotation == Some(Wanted(c, k, l)) ==>
      l.cluster.value.annotation == Some(Wanted(c, k, l))
  }

  /** As far as the status depends on it, the two copies of the Cluster differ at most in the annotation. */
  predicate SameCluster(l: Local) {
    ClusterPhase(l.cluster) == ClusterPhase(l.clusterCache) && (l.cluster.Some? <==> l.clusterCache.Some?)
  }

  /**
   * However far the informer's copies of the object and of its Cluster lag behind, an undisturbed reconcile of an
   * object that is not being deleted, if it succeeds, leaves everything settled, once the informers have caught up,
   * exactly when it was sighted. If the copy of the object is the current one and that of the Cluster lags behind in
   * the annotation only, that is when the copy does not show an annotation that the Cluster has lost.
   */
  lemma SuccessSettles(c: Config, s: State, k: Key)
    requires k in s.local && s.local[k].pc.Returned? && Stored(s.local[k]) && Versioned(s.local[k])
    requires Reconciled(c, s, k).local[k].pc == Returned(true)
    ensures Settled(c, Synced(Reconciled(c, s, k), k), k) <==> Sighted(c, s, k)
    ensures s.local[k].cache == s.local[k].server && SameCluster(s.local[k]) ==>
              (Sighted(c, s, k) <==> Honest(c, k, s.local[k]))
  {
    SuccessGoesOn(c, s, k);
    if GoesOn(s.local[k]) {
      SettledAfter(c, s, Reconciled(c, s, k), k);
    } else {
      SettledAlike(c, Synced(s, k), Synced(Reconciled(c, s, k), k), k);
    }
    hide Reconciled, Achieved, Synced, Settled;
  }

  /** A reconcile that succeeds has either nothing to do as it sees it, or does all of it. */
  lemma SuccessGoesOn(c: Config, s: State, k: Key)
    requires k in s.local && s.local[k].pc.Returned? && Stored(s.local[k]) && Versioned(s.local[k])
    requires Reconciled(c, s, k).local[k].pc == Returned(true)
    ensures !GoesOn(s.local[k]) ==>
              Begin(s.local[k].cache).Returned? && Reconciled(c, s, k) == With(s, k, s.local[k].(pc := Returned(true)))
    ensures GoesOn(s.local[k]) ==> Achieved(c, s, Reconciled(c, s, k), k)
  {
    var s1 := Call(c, s, k);
    if GoesOn(s.local[k]) {
      assert Achieved(c, s, s1, k);
      hide Achieved, Finish, Call;
      FinishAchieves(c, s, s1, k);
    } else if s1.local[k].pc.ListForDelete? {
      hide Finish;
      RemovalRefused(c, s1, k);
      assert false;
    }
  }

  /** A deletion that goes by another version than the current one fails in the end. */
  lemma {:induction false} RemovalRefused(c: Config, s: State, k: Key)
    requires k in s.local
    requires var pc := s.local[k].pc;
             (pc.ListForDelete? || pc.DeleteMount? || pc.RemoveFinalizer?) && pc.snap.rv != s.local[k].server.rv
    ensures Finish(c, s, k).local[k].pc == Returned(false)
    decreases Rank(s.local[k])
  {
    RankFalls(c, s, k);
    if !Call(c, s, k).local[k].pc.Returned? {
      RemovalRefused(c, Call(c, s, k), k);
    }
  }

  lemma SettledAfter(c: Config, before: State, s: State, k: Key)
    requires k in before.local && k in s.local && Stored(before.local[k]) && Versioned(before.local[k])
    requires GoesOn(before.local[k]) && Achieved(c, before, s, k) && s.local[k].pc == Returned(true)
    ensures Settled(c, Synced(s, k), k) <==> CopyFits(before.local[k]) && StatusFits(c, before, k)
  {
    var l0, l := before.local[k], s.local[k];
    var l' := Synced(s, k).local[k];
    var was, now := Allows(l0.cache.obj.value), Allows(Taken(l0).obj.value);
    assert l.server.obj.Some? && now == if l0.cache == l0.server then was else Allows(l0.server.obj.value);
    SameNodes(l, l', |l.nodes|, now);
    if l.secret {
      TwoPolicies(l, was, now);
    }
    SamePhase(c, k, l0);
    SameMounts(c, s, Synced(s, k), k);
    if !Wanted(c, k, l0).ready {
      SameMounts(c, s, before, k);
    }
    hide NodesDone, MountInPlace, StatusFor, Allows;
  }

  lemma SamePhase(c: Config, k: Key, l: Local)
    ensures StatusFor(c, k, Patched(c, k, l), l.secret) == StatusFor(c, k, l.cluster, l.secret)
  {
  }

  /** Nodes that follow one setting follow another only if there are none or the settings agree. */
  lemma TwoPolicies(l: Local, was: bool, now: bool)
    requires NodesDone(l, |l.nodes|, was)
    ensures NodesDone(l, |l.nodes|, now) <==> l.nodes == [] || was == now
  {
    if l.nodes != [] {
      FixedByPolicy(l.nodes[0], was);
      FixedByPolicy(l.nodes[0], now);
      hide Desired;
      assert Desired(l.nodes[0], was) == l.nodes[0];
    }
  }

  /** In a settled state, each call of a reconcile reads only and keeps on this track. */
  predicate OnTrack(c: Config, s: State, k: Key)
    requires k in s.local
  {
    var pc := s.local[k].pc;
    Settled(c, s, k) && Achieved(c, s, s, k) && !pc.AddFinalizer? && !pc.PatchStatus? && !pc.CreateMount?
  }

  lemma StaysOnTrack(c: Config, s: State, k: Key)
    requires k in s.local && OnTrack(c, s, k) && !s.local[k].pc.Returned?
    ensures ReadsOnly(c, s, k) && OnTrack(c, Call(c, s, k), k)
    ensures Call(c, s, k).local[k].pc != Returned(false)
  {
    var l, t := s.local[k], Call(c, s, k);
    AchievesMore(c, s, s, k);
    assert t.mounts == s.mounts;
    if l.pc.UpdateNode? && l.pc.i < |l.nodes| {
      assert l.nodes[l.pc.i := l.nodes[l.pc.i]] == l.nodes;
    }
    assert t.local[k] == l.(pc := t.local[k].pc);
    assert Same(With(s, k, t.local[k]), t);
    hide Achieved;
    assert Settled(c, t, k);
  }

  lemma {:induction false} FinishSilent(c: Config, s: State, k: Key)
    requires k in s.local && OnTrack(c, s, k) && s.local[k].pc != Returned(false)
    ensures Silent(c, s, k) && Finish(c, s, k).local[k].pc == Returned(true)
    decreases Rank(s.local[k])
  {
    if !s.local[k].pc.Returned? {
      StaysOnTrack(c, s, k);
      RankFalls(c, s, k);
      hide OnTrack, Rank, ReadsOnly;
      FinishSilent(c, Call(c, s, k), k);
    }
  }

  lemma {:induction false} SilentKeeps(c: Config, s: State, k: Key)
    requires k in s.local && Silent(c, s, k)
    ensures var t := Finish(c, s, k); k in t.local && Same(With(s, k, s.local[k].(pc := t.local[k].pc)), t)
    decreases Rank(s.local[k])
  {
    if s.local[k].pc.Returned? {
      assert With(s, k, s.local[k]) == s;
    } else {
      RankFalls(c, s, k);
      hide Rank, RequestOf;
      var s1 := Call(c, s, k);
      SilentKeeps(c, s1, k);
      var pc := Finish(c, s1, k).local[k].pc;
      assert s1.local[k].(pc := pc) == s.local[k].(pc := pc);
      assert With(s1, k, s1.local[k].(pc := pc)).local == With(s, k, s.local[k].(pc := pc)).local;
    }
  }

  /** A quiet reconcile leaves everything as it is. */
  lemma QuietKeeps(c: Config, s: State, k: Key)
    requires k in s.local && s.local[k].pc.Returned? && Quiet(c, s, k)
    ensures Same(With(s, k, s.local[k].(pc := Returned(true))), Reconciled(c, s, k))
  {
    hide Silent, RequestOf, CallLocal, Achieved;
    var s1, pc := Call(c, s, k), Returned(true);
    SilentKeeps(c, s1, k);
    assert s1.local[k].(pc := pc) == s.local[k].(pc := pc);
    assert With(s1, k, s1.local[k].(pc := pc)).local == With(s, k, s.local[k].(pc := pc)).local;
  }

  lemma SettledBegins(c: Config, s: State, k: Key)
    requires k in s.local && Settled(c, s, k) && s.local[k].pc.Returned?
    ensures OnTrack(c, Call(c, s, k), k) && ReadsOnly(c, s, k) && Call(c, s, k).local[k].pc.GetCluster?
  {
    var l, l' := s.local[k], Call(c, s, k).local[k];
    assert l' == l.(pc := GetCluster(Allows(l.server.obj.value)));
    SameNodes(l, l', |l.nodes|, Allows(l.server.obj.value));
    hide NodesDone;
  }

  /** With informers that are up to date, a reconcile succeeds without a write exactly when all is settled. */
  lemma SettledExactlyWhenQuiet(c: Config, s: State, k: Key)
    requires k in s.local && UpToDate(s.local[k]) && s.local[k].pc.Returned? && Stored(s.local[k])
    ensures Settled(c, s, k) <==> Quiet(c, s, k)
  {
    if Settled(c, s, k) {
      SettledBegins(c, s, k);
      hide OnTrack, Settled, Silent, ReadsOnly;
      FinishSilent(c, Call(c, s, k), k);
    } else if Quiet(c, s, k) {
      QuietKeeps(c, s, k);
      SuccessSettles(c, s, k);
      assert Honest(c, k, s.local[k]);
      SettledAlike(c, s, Synced(Reconciled(c, s, k), k), k);
      assert false;
    }
  }

  lemma SettledAlike(c: Config, s: State, t: State, k: Key)
    requires k in s.local && k in t.local && t.consumers == s.consumers && t.mounts == s.mounts
    requires var l, l' := s.local[k], t.local[k];
             l' == l.(news := l'.news, clusterNews := l'.clusterNews, pc := l'.pc)
    ensures Settled(c, s, k) == Settled(c, t, k)
  {
  }

  lemma SuccessStays(c: Config, s: State, k: Key)
    requires k in s.local && s.local[k].pc.Returned? && Stored(s.local[k]) && Versioned(s.local[k])
    requires Reconciled(c, s, k).local[k].pc == Returned(true)
    ensures var t := Synced(Reconciled(c, s, k), k);
            k in t.local && Stored(t.local[k]) && UpToDate(t.local[k]) && t.local[k].pc == Returned(true)
  {
    SuccessGoesOn(c, s, k);
    hide Reconciled, Kept, Done;
  }

  /** So the reconcile after a successful one makes no write, exactly when the successful one was sighted. */
  lemma SecondReconcileWritesNothing(c: Config, s: State, k: Key)
    requires k in s.local && s.local[k].pc.Returned? && Stored(s.local[k]) && Versioned(s.local[k])
    requires Reconciled(c, s, k).local[k].pc == Returned(true)
    ensures var t := Synced(Reconciled(c, s, k), k);
            && (Quiet(c, t, k) <==> Sighted(c, s, k))
            && (Quiet(c, t, k) ==> Same(t, Reconciled(c, t, k)))
  {
    hide Settled, Sighted, Quiet, Reconciled, Honest, SameCluster, Synced;
    SuccessSettles(c, s, k);
    SuccessStays(c, s, k);
    var t := Synced(Reconciled(c, s, k), k);
    SettledExactlyWhenQuiet(c, t, k);
    if Quiet(c, t, k) {
      QuietKeeps(c, t, k);
      assert With(t, k, t.local[k]).local == t.local;
    }
  }
}
