/** Runs in which a reconcile goes by an old copy, succeeds, and leaves work behind. */
module MountLag {
  import opened Basics
  import opened MountProtocol
  import opened MountFixedPoint
  import opened Taints
  import opened MountWitness

  function Waiting(c: Config, k: Key): Status {
    Status("Initializing", false, "", MountName(c, k))
  }

  const BARE := Cluster(false, "", None)

  /** An object with its finalizer, and the two copies of its Cluster. */
  function Known(cluster: Option<Cluster>, clusterCache: Option<Cluster>, pc: Pc): Local {
    var l := Owned(None);
    l.(cache := l.server, news := [], cluster := cluster, clusterCache := clusterCache, pc := pc)
  }

  /** The Cluster has been replaced since the informer's copy was made. */
  function Lagging(c: Config, k: Key): Local {
    Known(Some(BARE), Some(BARE.(annotation := Some(Waiting(c, k)))), Returned(true))
      .(clusterNews := [None, Some(BARE)])
  }

  /** The reconcile publishes its status, the informer sees that, and the Cluster is deleted and made again. */
  lemma ReachesLagging(c: Config, k: Key)
    requires k.ns != ""
    ensures Reaches(c, With(Empty([]), k, NEW), With(Empty([]), k, Lagging(c, k)))
  {
    hide Reaches, MountName;
    var s, w, st, bare := With(Empty([]), k, NEW), Empty([]), Waiting(c, k), Some(BARE);
    var marked := Some(BARE.(annotation := Some(st)));
    ReachesSelf(c, s);
    TakesFinalizer(c, s, w, k, None);
    Learns(c, s, w, k, Owned(None));
    ClusterComes(c, s, w, k, Known(None, None, GetCluster(true)), false);
    Calls(c, s, w, k, Known(bare, bare, GetCluster(true)), Known(bare, bare, GetSecret(true, false, "Initializing")));
    Calls(c, s, w, k, Known(bare, bare, GetSecret(true, false, "Initializing")), Known(bare, bare, CompareStatus(st)));
    Calls(c, s, w, k, Known(bare, bare, CompareStatus(st)), Known(bare, bare, PatchStatus(st)));
    var l := Known(marked, bare, Returned(true)).(clusterNews := [marked]);
    Calls(c, s, w, k, Known(bare, bare, PatchStatus(st)), l);
    LearnsCluster(c, s, w, k, l);
    ReachesReplaced(c, s, w, k, st);
  }

  lemma ReachesReplaced(c: Config, s: State, w: State, k: Key, st: Status)
    requires st == Waiting(c, k)
    requires var marked := Some(BARE.(annotation := Some(st)));
             Reaches(c, s, With(w, k, Known(marked, marked, Returned(true))))
    ensures Reaches(c, s, With(w, k, Lagging(c, k)))
  {
    hide Reaches, MountName;
    var marked := Some(BARE.(annotation := Some(st)));
    var l := Known(marked, marked, Returned(true));
    Happens(c, s, w, k, l, PutCluster(l, None), DropCluster(k));
    assert PutCluster(PutCluster(l, None), Some(BARE)).clusterNews == [None, Some(BARE)];
    Happens(c, s, w, k, PutCluster(l, None), Lagging(c, k), SetCluster(k, false, ""));
  }

  /** The next reconcile succeeds, although the Cluster carries no status. */
  lemma LaggingSucceeds(c: Config, k: Key)
    ensures var s := With(Empty([]), k, Lagging(c, k));
            && s.local[k].cache == s.local[k].server && Stored(s.local[k]) && SameCluster(s.local[k])
            && Reconciled(c, s, k) == s && !Honest(c, k, s.local[k]) && !Settled(c, Synced(s, k), k)
  {
    hide MountName;
    var s, st := With(Empty([]), k, Lagging(c, k)), Waiting(c, k);
    var s1 := With(s, k, s.local[k].(pc := GetCluster(true)));
    var s2 := With(s, k, s.local[k].(pc := GetSecret(true, false, "Initializing")));
    var s3 := With(s, k, s.local[k].(pc := CompareStatus(st)));
    assert Call(c, s, k) == s1;
    assert Call(c, s1, k) == s2;
    assert Call(c, s2, k) == s3;
    assert Call(c, s3, k) == s;
    hide Call;
    assert Finish(c, s3, k) == s;
    assert Finish(c, s2, k) == s;
  }

  /** So a run leads to a success that leaves something to write, in any configuration. */
  lemma SuccessCanMissAPatch(c: Config, k: Key)
    requires k.ns != ""
    ensures exists s, t :: Init(s) && Reaches(c, s, t) && k in t.local && t.local[k].pc.Returned? &&
              Stored(t.local[k]) && t.local[k].cache == t.local[k].server && SameCluster(t.local[k]) &&
              Reconciled(c, t, k).local[k].pc == Returned(true) && !Sighted(c, t, k) &&
              !Settled(c, Synced(Reconciled(c, t, k), k), k)
  {
    ReachesLagging(c, k);
    LaggingSucceeds(c, k);
    var t := With(Empty([]), k, Lagging(c, k));
    SuccessSettles(c, t, k);
    hide Settled, Sighted, Reconciled, Reaches;
    assert Init(With(Empty([]), k, NEW));
  }

  /******* A lagging copy of the object *******/

  /** Scheduling has been forbidden since the informer's copy was made; a node is listed. */
  function Forbidden(): Local {
    var l := Owned(None);
    var slot := Slot(3, Some(Obj(false, true, false, Some(false))));
    l.(cache := l.server, server := slot, news := [slot], secret := true, nodes := [[]], pc := Returned(false))
  }

  lemma ReachesForbidden(c: Config, k: Key)
    requires k.ns != ""
    ensures Reaches(c, With(Empty([]), k, NEW), With(Empty([]), k, Forbidden()))
  {
    hide Reaches;
    var s, w := With(Empty([]), k, NEW), Empty([]);
    ReachesSelf(c, s);
    TakesFinalizer(c, s, w, k, None);
    Learns(c, s, w, k, Owned(None));
    var l0 := Owned(None).(cache := Owned(None).server, news := []);
    var l1 := l0.(pc := Returned(false));
    Happens(c, s, w, k, l0, l1, Stop(k));
    var l2 := l1.(secret := true);
    Happens(c, s, w, k, l1, l2, SetSecret(k, true));
    var l3 := l2.(nodes := [[]]);
    Happens(c, s, w, k, l2, l3, SetNodes(k, [[]]));
    assert Put(l3, Forbidden().server) == Forbidden();
    Happens(c, s, w, k, l3, Forbidden(), UpdateObject(k, false, Some(false)));
  }

  /** The next reconcile succeeds, although the node may still be scheduled on. */
  lemma ForbiddenSucceeds(c: Config, k: Key)
    ensures var s := With(Empty([]), k, Forbidden());
            && Stored(s.local[k]) && Versioned(s.local[k])
            && Reconciled(c, s, k).local[k].pc == Returned(true) && !Sighted(c, s, k)
  {
    ForbiddenBegins(c, k);
    ForbiddenEnds(c, k);
    hide Finish, Call, CallLocal;
  }

  lemma ForbiddenBegins(c: Config, k: Key)
    ensures var w, l := Empty([]), Forbidden();
            Finish(c, Call(c, With(w, k, l), k), k)
            == Finish(c, With(w, k, l.(pc := ListNodes(true, false, "Initializing"))), k)
  {
    hide MountName;
    var w, l := Empty([]), Forbidden();
    var s1 := With(w, k, l.(pc := GetCluster(true)));
    var s2 := With(w, k, l.(pc := GetSecret(true, false, "Initializing")));
    var s3 := With(w, k, l.(pc := ApplyCalico(true, false, "Initializing")));
    assert Call(c, With(w, k, l), k) == s1;
    assert Call(c, s1, k) == s2;
    assert Call(c, s2, k) == s3;
    assert Call(c, s3, k) == With(w, k, l.(pc := ListNodes(true, false, "Initializing")));
    hide Call;
    assert Finish(c, s2, k) == Finish(c, s3, k);
  }

  lemma ForbiddenEnds(c: Config, k: Key)
    ensures var w, l := Empty([]), Forbidden();
            Finish(c, With(w, k, l.(pc := ListNodes(true, false, "Initializing"))), k)
            == With(w, k, l.(pc := Returned(true)))
  {
    hide MountName;
    var w, l := Empty([]), Forbidden();
    var s5 := With(w, k, l.(pc := UpdateNode(true, false, "Initializing", [[]], 0)));
    var s6 := With(w, k, l.(pc := UpdateNode(true, false, "Initializing", [[]], 1)));
    var s7 := With(w, k, l.(pc := CompareStatus(Waiting(c, k))));
    assert Desired([], true) == [];
    assert Call(c, With(w, k, l.(pc := ListNodes(true, false, "Initializing"))), k) == s5;
    assert Call(c, s5, k) == s6;
    assert Call(c, s6, k) == s7;
    assert Call(c, s7, k) == With(w, k, l.(pc := Returned(true)));
    hide Call, Desired;
    assert Finish(c, s6, k) == Finish(c, s7, k) == With(w, k, l.(pc := Returned(true)));
  }

  /** So a run leads to a success that leaves a taint to write, in any configuration and with the Cluster known. */
  lemma SuccessCanMissATaint(c: Config, k: Key)
    requires k.ns != ""
    ensures exists s, t :: Init(s) && Reaches(c, s, t) && k in t.local && t.local[k].pc.Returned? &&
              Stored(t.local[k]) && t.local[k].clusterCache == t.local[k].cluster && StatusFits(c, t, k) &&
              Reconciled(c, t, k).local[k].pc == Returned(true) &&
              !Settled(c, Synced(Reconciled(c, t, k), k), k)
  {
    ReachesForbidden(c, k);
    ForbiddenSucceeds(c, k);
    var t := With(Empty([]), k, Forbidden());
    SuccessSettles(c, t, k);
    hide Settled, Sighted, Reconciled, Reaches;
    assert Init(With(Empty([]), k, NEW));
  }
}
