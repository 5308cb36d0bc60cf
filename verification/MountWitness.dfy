/** Steps of one object in an otherwise fixed world, from which runs that show something are put together. */
module MountWitness {
  import opened Basics
  import opened MountProtocol

  function Object(deleting: bool, ours: bool): Option<Obj> {
    Some(Obj(deleting, ours, false, None))
  }

  /** A world without objects and child workspaces. */
  function Empty(items: seq<Item>): State {
    State(map[], items, map[], {})
  }

  const NEW := Local(Slot(0, None), Slot(0, None), [], None, None, [], false, [], Returned(true))

  lemma WithAgain(w: State, k: Key, l: Local, l': Local)
    ensures With(With(w, k, l), k, l') == With(w, k, l')
  {
    assert w.local[k := l][k := l'] == w.local[k := l'];
  }

  /** One call that leaves the child workspaces alone. */
  lemma Calls(c: Config, s: State, w: State, k: Key, l: Local, l': Local)
    requires Reaches(c, s, With(w, k, l)) && !l.pc.CreateMount? && !l.pc.DeleteMount? && w.meddled == {}
    requires l' == CallLocal(c, k, l, With(w, k, l))
    ensures Reaches(c, s, With(w, k, l'))
  {
    hide Reaches, CallLocal, MountName, Remote;
    ReachesCall(c, s, With(w, k, l), k);
    WithAgain(w, k, l, l');
    assert Call(c, With(w, k, l), k) == With(w, k, l');
  }

  /** One step outside the reconcile. */
  lemma Happens(c: Config, s: State, w: State, k: Key, l: Local, l': Local, a: Action)
    requires Reaches(c, s, With(w, k, l)) && Enabled(c, With(w, k, l), a)
    requires Apply(c, With(w, k, l), a) == With(With(w, k, l), k, l')
    ensures Reaches(c, s, With(w, k, l'))
  {
    hide Reaches, Enabled, Apply, With;
    ReachesStep(c, s, With(w, k, l), a);
    WithAgain(w, k, l, l');
  }

  /** The server stores a new version, and the informer sees it. */
  lemma Learns(c: Config, s: State, w: State, k: Key, l: Local)
    requires Reaches(c, s, With(w, k, l)) && l.news == [l.server]
    ensures Reaches(c, s, With(w, k, l.(cache := l.server, news := [])))
  {
    hide Reaches;
    assert l.news[1..] == [];
    Happens(c, s, w, k, l, l.(cache := l.server, news := []), SyncObject(k, 0));
  }

  lemma LearnsCluster(c: Config, s: State, w: State, k: Key, l: Local)
    requires Reaches(c, s, With(w, k, l)) && l.clusterNews == [l.cluster]
    ensures Reaches(c, s, With(w, k, l.(clusterCache := l.cluster, clusterNews := [])))
  {
    hide Reaches;
    assert l.clusterNews[1..] == [];
    Happens(c, s, w, k, l, l.(clusterCache := l.cluster, clusterNews := []), SyncCluster(k, 0));
  }

  /** The object is created, the informer sees it, and a reconcile reads it. */
  lemma Appears(c: Config, s: State, w: State, k: Key, allow: Option<bool>)
    requires Reaches(c, s, With(w, k, NEW)) && w.meddled == {}
    ensures var slot := Slot(1, Some(Obj(false, false, false, allow)));
            Reaches(c, s, With(w, k, NEW.(server := slot, cache := slot, pc := AddFinalizer(slot))))
  {
    hide Reaches;
    var slot := Slot(1, Some(Obj(false, false, false, allow)));
    var l := NEW.(server := slot, cache := slot);
    Happens(c, s, w, k, NEW, Put(NEW, slot), CreateObject(k, false, allow));
    Learns(c, s, w, k, Put(NEW, slot));
    Calls(c, s, w, k, l, l.(pc := AddFinalizer(slot)));
  }

  /** The reconcile has put its finalizer on the new object; the informer has still to see that. */
  function Owned(allow: Option<bool>): Local {
    var slot := Slot(2, Some(Obj(false, true, false, allow)));
    NEW.(server := slot, cache := Slot(1, Some(Obj(false, false, false, allow))), news := [slot],
         pc := GetCluster(if allow.Some? then allow.value else true))
  }

  lemma TakesFinalizer(c: Config, s: State, w: State, k: Key, allow: Option<bool>)
    requires Reaches(c, s, With(w, k, NEW)) && w.meddled == {}
    ensures Reaches(c, s, With(w, k, Owned(allow)))
  {
    hide Reaches;
    Appears(c, s, w, k, allow);
    var slot := Slot(1, Some(Obj(false, false, false, allow)));
    Calls(c, s, w, k, NEW.(server := slot, cache := slot, pc := AddFinalizer(slot)), Owned(allow));
  }

  /** A Cluster appears, and the informer sees it. */
  lemma ClusterComes(c: Config, s: State, w: State, k: Key, l: Local, available: bool)
    requires Reaches(c, s, With(w, k, l)) && l.cluster == None && l.clusterNews == []
    ensures var cluster := Some(Cluster(available, "", None));
            Reaches(c, s, With(w, k, l.(cluster := cluster, clusterCache := cluster)))
  {
    hide Reaches;
    var cluster := Some(Cluster(available, "", None));
    Happens(c, s, w, k, l, PutCluster(l, cluster), SetCluster(k, available, ""));
    LearnsCluster(c, s, w, k, PutCluster(l, cluster));
    assert PutCluster(l, cluster).(clusterCache := cluster, clusterNews := [])
        == l.(cluster := cluster, clusterCache := cluster);
  }

  /** The listing of consumer workspaces changes. */
  lemma Relists(c: Config, s: State, w: State, items: seq<Item>)
    requires Reaches(c, s, w) && w.mounts == map[] && Listable(c, items) && KeepsIds(w.consumers, items)
    ensures Reaches(c, s, w.(consumers := items))
  {
    hide Reaches, Listable, KeepsIds;
    ReachesStep(c, s, w, SetConsumers(items));
    assert Apply(c, w, SetConsumers(items)) == w.(consumers := items);
  }

  const RUNNING := Some(Cluster(true, "", None))

  /** A held object whose Cluster is available and whose kubeconfig is there. */
  function Running(pc: Pc): Local {
    Owned(None).(cluster := RUNNING, clusterCache := RUNNING, secret := true, pc := pc)
  }

  lemma Runs(c: Config, s: State, w: State, k: Key)
    requires Reaches(c, s, With(w, k, NEW)) && w.meddled == {}
    ensures Reaches(c, s, With(w, k, Running(GetCluster(true))))
  {
    hide Reaches;
    TakesFinalizer(c, s, w, k, None);
    var l := Owned(None);
    ClusterComes(c, s, w, k, l, true);
    var l' := l.(cluster := RUNNING, clusterCache := RUNNING);
    Happens(c, s, w, k, l', l'.(secret := true), SetSecret(k, true));
    assert l'.(secret := true) == Running(GetCluster(true));
  }

  /** A reconcile of it finds the mount's place in the listed workspace empty. */
  lemma FindsPlaceEmpty(c: Config, s: State, w: State, k: Key, ws: string)
    requires Reaches(c, s, With(w, k, NEW)) && w.meddled == {}
    requires FirstMatch(w.consumers, k.ns) == Some(ws) && Place(ws, MountName(c, k)) !in w.mounts
    ensures Reaches(c, s, With(w, k, Running(CreateMount(ws))))
  {
    hide Reaches, FirstMatch, MountName, Remote;
    Runs(c, s, w, k);
    Calls(c, s, w, k, Running(GetCluster(true)), Running(GetSecret(true, true, "Ready")));
    Calls(c, s, w, k, Running(GetSecret(true, true, "Ready")), Running(ApplyCalico(true, true, "Ready")));
    Calls(c, s, w, k, Running(ApplyCalico(true, true, "Ready")), Running(ListNodes(true, true, "Ready")));
    Calls(c, s, w, k, Running(ListNodes(true, true, "Ready")), Running(UpdateNode(true, true, "Ready", [], 0)));
    Calls(c, s, w, k, Running(UpdateNode(true, true, "Ready", [], 0)), Running(ListForEnsure));
    Calls(c, s, w, k, Running(ListForEnsure), Running(GetMount(ws)));
    Calls(c, s, w, k, Running(GetMount(ws)), Running(CreateMount(ws)));
  }
}
