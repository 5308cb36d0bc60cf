/** What a reconcile that nothing disturbs gets done: when creation succeeds, and that deletion completes. */
module MountProgress {
  import opened Basics
  import opened MountProtocol
  import opened MountSafety
  import opened MountFixedPoint
  import opened Taints

  /******* Deletion *******/

  /** A reconcile that goes by an older version cannot write the object. */
  lemma {:induction false} LaggingKeepsObject(c: Config, s: State, k: Key)
    requires c.pinned && Inv(c, s) && k in s.local && s.local[k].cache != s.local[k].server
    ensures Finish(c, s, k).local[k].server == s.local[k].server
    decreases Rank(s.local[k])
  {
    if !s.local[k].pc.Returned? {
      RankFalls(c, s, k);
      InvStep(c, s, Work(k));
      LaggingCall(c, s, k);
      hide Rank, Call, Inv, Enabled;
      LaggingKeepsObject(c, Call(c, s, k), k);
    }
  }

  lemma LaggingCall(c: Config, s: State, k: Key)
    requires k in s.local && LocalInv(c, k, s.local[k]) && s.local[k].cache != s.local[k].server
    ensures var l := Call(c, s, k).local[k]; l.server == s.local[k].server && l.cache == s.local[k].cache
  {
  }

  /** The child workspaces after an undisturbed deletion. */
  function Without(c: Config, s: State, k: Key): map<Place, Mount> {
    match FirstMatch(s.consumers, k.ns)
    case None => s.mounts
    case Some(ws) => s.mounts - {Place(ws, MountName(c, k))}
  }

  /** The object is written back without the finalizer, and the child workspaces are these. */
  predicate Released(s: State, k: Key, slot: Slot, mounts: map<Place, Mount>)
    requires slot.obj.Some?
  {
    && k in s.local && s.local[k].pc == Returned(true) && s.mounts == mounts
    && s.local[k].server == Settle(slot.rv + 1, slot.obj.value.(ours := false))
  }

  lemma ReleaseRuns(c: Config, s: State, k: Key, slot: Slot)
    requires k in s.local && slot.obj.Some? && s.local[k].server == slot && s.local[k].pc == RemoveFinalizer(slot)
    ensures Released(Finish(c, s, k), k, slot, s.mounts)
  {
    hide Settle;
    assert Finish(c, s, k) == Call(c, s, k);
  }

  lemma DeleteRuns(c: Config, s: State, k: Key, slot: Slot, ws: string)
    requires k in s.local && slot.obj.Some? && s.local[k].server == slot && s.local[k].pc == DeleteMount(slot, ws)
    ensures Released(Finish(c, s, k), k, slot, s.mounts - {Place(ws, MountName(c, k))})
  {
    hide Released, Rank, MountName;
    assert Finish(c, s, k) == Finish(c, Call(c, s, k), k);
    ReleaseRuns(c, Call(c, s, k), k, slot);
  }

  lemma ListRuns(c: Config, s: State, k: Key, slot: Slot)
    requires k in s.local && slot.obj.Some? && s.local[k].server == slot && s.local[k].pc == ListForDelete(slot)
    ensures Released(Finish(c, s, k), k, slot, Without(c, s, k))
  {
    hide Released, Rank, MountName, FirstMatch;
    var t := Call(c, s, k);
    assert Finish(c, s, k) == Finish(c, t, k);
    match FirstMatch(s.consumers, k.ns)
    case None => ReleaseRuns(c, t, k, slot);
    case Some(ws) => DeleteRuns(c, t, k, slot, ws);
  }

  lemma DeletionRuns(c: Config, s: State, k: Key)
    requires k in s.local && s.local[k].pc.Returned? && Doomed(s.local[k].server)
    requires s.local[k].cache == s.local[k].server
    ensures Released(Reconciled(c, s, k), k, s.local[k].server, Without(c, s, k))
  {
    hide Released, Finish, FirstMatch, MountName;
    ListRuns(c, Call(c, s, k), k, s.local[k].server);
  }

  /** No child workspace that was created for the object is anywhere but at the place a deletion takes away. */
  lemma WithoutLeavesNone(c: Config, s: State, k: Key)
    requires c.pinned && Inv(c, s) && k in s.local
    ensures forall p :: p in Without(c, s, k) ==> Without(c, s, k)[p].creator != Some(k)
  {
    MatchIsHome(c, s.consumers, k.ns);
    forall p | p in Without(c, s, k) ensures Without(c, s, k)[p].creator != Some(k) {
      assert MountInv(c, s, p);
    }
  }

  /**
   * In every reachable state with a held object that is being deleted, an undisturbed reconcile takes the finalizer off
   * exactly when the informer has the current version; it succeeds then, changes nothing else in the object, leaves
   * none of its mounts anywhere, and removes no other child workspace than the one at its place.
   */
  lemma DeletionCompletes(c: Config, origin: State, acts: seq<Action>, k: Key)
    requires c.pinned && Init(origin) && Valid(c, origin, acts)
    requires var s := Run(c, origin, acts); k in s.local && s.local[k].pc.Returned? && Doomed(s.local[k].server)
    ensures var s := Run(c, origin, acts);
            var t := Reconciled(c, s, k);
            && (!Held(t.local[k]) <==> s.local[k].cache == s.local[k].server)
            && (!Held(t.local[k]) ==>
                  && Released(t, k, s.local[k].server, Without(c, s, k))
                  && forall p :: p in t.mounts ==> t.mounts[p].creator != Some(k))
  {
    hide *;
    ReachedInv(c, origin, acts);
    DeletionAt(c, Run(c, origin, acts), k);
  }

  lemma DeletionAt(c: Config, s: State, k: Key)
    requires c.pinned && Inv(c, s) && k in s.local && s.local[k].pc.Returned? && Doomed(s.local[k].server)
    ensures var t := Reconciled(c, s, k);
            && (!Held(t.local[k]) <==> s.local[k].cache == s.local[k].server)
            && (!Held(t.local[k]) ==>
                  && Released(t, k, s.local[k].server, Without(c, s, k))
                  && forall p :: p in t.mounts ==> t.mounts[p].creator != Some(k))
  {
    if s.local[k].cache == s.local[k].server {
      hide Inv, Reconciled, Without;
      DeletionRuns(c, s, k);
      WithoutLeavesNone(c, s, k);
    } else {
      InvStep(c, s, Work(k));
      LaggingCall(c, s, k);
      hide Inv, Call;
      LaggingKeepsObject(c, Call(c, s, k), k);
    }
  }

  /******* Creation *******/

  /** Whatever the reconcile still has to do, nothing stands in its way. */
  predicate Clear(c: Config, s: State, k: Key)
    requires k in s.local
  {
    var l := s.local[k];
    && (Wanted(c, k, l).ready ==> MountIsClear(c, s, k))
    && (l.cluster.Some? || PatchIsSkipped(c, k, l))
  }

  /** A workspace is listed for the object's cluster, and the mount's place in it is free or has the mount. */
  predicate MountIsClear(c: Config, s: State, k: Key) {
    FirstMatch(s.consumers, k.ns).Some? &&
    var p := Place(FirstMatch(s.consumers, k.ns).value, MountName(c, k));
    p in s.mounts ==> s.mounts[p].ref == Some(Remote(c, k))
  }

  /** The copy sends the reconcile on, and it gets its finalizer on if that is missing. */
  predicate TakesOn(l: Local) {
    GoesOn(l) && (l.cache.obj.value.ours || l.cache.rv == l.server.rv)
  }

  lemma MatchServes(items: seq<Item>, id: string)
    requires id != "" && FirstMatch(items, id).Some?
    ensures Serves(items, FirstMatch(items, id).value)
  {
    FirstMatchIn(items, id);
  }

  lemma ClearCall(c: Config, before: State, s: State, k: Key)
    requires k in before.local && k in s.local && TakesOn(before.local[k]) && k.ns != ""
    requires Achieved(c, before, s, k) && !s.local[k].pc.Returned?
    ensures ClearAlong(c, s, Call(c, s, k), k)
  {
    if s.local[k].pc.CreateMount? {
      MatchServes(s.consumers, k.ns);
      ClearAtMount(c, before, s, k);
    } else if s.local[k].pc.ListForEnsure? || s.local[k].pc.GetMount? {
      ClearAtMount(c, before, s, k);
    } else if IsLast(s.local[k].pc) {
      ClearAtEnd(c, before, s, k);
    } else {
      ClearEarly(c, before, s, k);
    }
  }

  /** A call fails only when something is in the way; otherwise as much is as before, and nothing is at the end. */
  predicate ClearAlong(c: Config, s: State, t: State, k: Key)
    requires k in s.local && k in t.local
  {
    && (t.local[k].pc == Returned(false) ==> !Clear(c, s, k))
    && (t.local[k].pc != Returned(false) ==> (Clear(c, t, k) <==> Clear(c, s, k)))
    && (t.local[k].pc == Returned(true) ==> Clear(c, t, k))
  }

  lemma ClearEarly(c: Config, before: State, s: State, k: Key)
    requires k in before.local && k in s.local && TakesOn(before.local[k]) && Achieved(c, before, s, k)
    requires !s.local[k].pc.ListForEnsure? && !s.local[k].pc.GetMount? && !s.local[k].pc.CreateMount?
    requires !s.local[k].pc.Returned? && !IsLast(s.local[k].pc)
    ensures ClearAlong(c, s, Call(c, s, k), k)
  {
    hide NodesDone, Settle, Clear, Allows, ReadyStatus, ClusterPhase, MountName;
    var t := Call(c, s, k);
    assert !t.local[k].pc.Returned?;
    hide Achieved;
    assert t.local[k].cluster == s.local[k].cluster;
    SameClear(c, s, t, k);
  }

  lemma SameClear(c: Config, s: State, t: State, k: Key)
    requires k in s.local && k in t.local && t.consumers == s.consumers && t.mounts == s.mounts
    requires var l, l' := s.local[k], t.local[k];
             l'.cluster == l.cluster && l'.clusterCache == l.clusterCache && l'.secret == l.secret
    ensures Clear(c, t, k) <==> Clear(c, s, k)
  {
  }

  lemma ClearAtEnd(c: Config, before: State, s: State, k: Key)
    requires k in before.local && k in s.local && TakesOn(before.local[k])
    requires Achieved(c, before, s, k) && IsLast(s.local[k].pc)
    ensures ClearAlong(c, s, Call(c, s, k), k)
  {
    hide NodesDone, FirstMatch, Serves, MountName, Remote, MountURL, Settle;
  }

  lemma ClearAtMount(c: Config, before: State, s: State, k: Key)
    requires k in before.local && k in s.local && TakesOn(before.local[k]) && Achieved(c, before, s, k)
    requires s.local[k].pc.ListForEnsure? || s.local[k].pc.GetMount? || s.local[k].pc.CreateMount?
    requires FirstMatch(s.consumers, k.ns).Some? && s.local[k].pc.CreateMount? ==>
               Serves(s.consumers, FirstMatch(s.consumers, k.ns).value)
    ensures ClearAlong(c, s, Call(c, s, k), k)
  {
    hide NodesDone, FirstMatch, Serves, MountName, Remote, MountURL, Desired;
  }

  lemma {:induction false} FinishSucceeds(c: Config, before: State, s: State, k: Key)
    requires k in before.local && k in s.local && TakesOn(before.local[k]) && k.ns != ""
    requires Achieved(c, before, s, k) && !s.local[k].pc.Returned?
    ensures Finish(c, s, k).local[k].pc == Returned(true) <==> Clear(c, s, k)
    decreases Rank(s.local[k])
  {
    RankFalls(c, s, k);
    ClearCall(c, before, s, k);
    AchievesMore(c, before, s, k);
    hide Rank, Call, Achieved, Clear;
    if !Call(c, s, k).local[k].pc.Returned? {
      FinishSucceeds(c, before, Call(c, s, k), k);
    }
  }

  /** In every reachable state the informer's copy is some version of the object. */
  lemma ReachedVersioned(c: Config, origin: State, acts: seq<Action>, k: Key)
    requires Init(origin) && Valid(c, origin, acts) && k in origin.local
    ensures k in Run(c, origin, acts).local && Versioned(Run(c, origin, acts).local[k])
  {
    AlwaysInformed(c, origin, acts, k);
  }

  /** What such a reconcile needs in order to succeed; with an old copy it may have nothing to do. */
  predicate Unhindered(c: Config, s: State, k: Key)
    requires k in s.local
  {
    match Begin(s.local[k].cache)
    case Returned(_) => true
    case AddFinalizer(snap) => snap == s.local[k].server && Clear(c, s, k)
    case GetCluster(_) => Clear(c, s, k)
    case _ => false
  }

  /**
   * However far the informer lags behind, an undisturbed reconcile of an object that is not being deleted succeeds
   * exactly when it is unhindered. If its copy of the object sends it on, the finalizer is on then, the nodes follow
   * the setting it has read, and the mount is in place if it is due; otherwise nothing has changed.
   */
  lemma CreationCompletes(c: Config, s: State, k: Key)
    requires k in s.local && k.ns != "" && s.local[k].pc.Returned? && Stored(s.local[k]) && Versioned(s.local[k])
    ensures var l, t := s.local[k], Reconciled(c, s, k);
            && (t.local[k].pc == Returned(true) <==> Unhindered(c, s, k))
            && (Unhindered(c, s, k) && GoesOn(l) ==>
                  t.local[k].server == Taken(l) && Done(c, t, k, Allows(l.cache.obj.value)))
            && (Unhindered(c, s, k) && !GoesOn(l) ==> t == With(s, k, l.(pc := Returned(true))))
  {
    var l, s1 := s.local[k], Call(c, s, k);
    if !GoesOn(l) {
      if s1.local[k].pc.ListForDelete? {
        hide Finish;
        RemovalRefused(c, s1, k);
      }
    } else if TakesOn(l) {
      assert Achieved(c, s, s1, k);
      assert Clear(c, s1, k) == Clear(c, s, k);
      hide Achieved, Clear, Finish;
      FinishSucceeds(c, s, s1, k);
      FinishAchieves(c, s, s1, k);
      if Clear(c, s, k) {
        AchievedEnd(c, s, Reconciled(c, s, k), k);
      }
    } else {
      assert Call(c, s1, k).local[k].pc == Returned(false);
      hide Call;
      assert Finish(c, s1, k) == Call(c, s1, k);
    }
  }

  lemma AchievedEnd(c: Config, before: State, s: State, k: Key)
    requires k in before.local && k in s.local && GoesOn(before.local[k])
    requires Achieved(c, before, s, k) && s.local[k].pc == Returned(true)
    ensures s.local[k].server == Taken(before.local[k]) && Done(c, s, k, Allows(before.local[k].cache.obj.value))
  {
  }
}
