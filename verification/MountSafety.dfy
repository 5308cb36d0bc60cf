/** No orphaned mounts, in any run. */
module MountSafety {
  import opened Basics
  import opened MountProtocol

  predicate Held(l: Local) {
    l.server.obj.Some? && l.server.obj.value.ours
  }

  /** The reconcile has seen the finalizer on an object that was not being deleted. */
  predicate OnMainPath(pc: Pc) {
    !pc.Returned? && !pc.AddFinalizer? && !OnDeletePath(pc)
  }

  predicate OnDeletePath(pc: Pc) {
    pc.ListForDelete? || pc.DeleteMount? || pc.RemoveFinalizer?
  }

  predicate Doomed(slot: Slot) {
    slot.obj.Some? && slot.obj.value.deleting && slot.obj.value.ours
  }

  /** The workspace a reconcile is about to use is the one that stands for the object's cluster ID. */
  ghost predicate Home(c: Config, k: Key, ws: string) {
    ws in c.clusterOf && c.clusterOf[ws] == k.ns
  }

  predicate LiveOurs(slot: Slot) {
    slot.obj.Some? && !slot.obj.value.deleting && slot.obj.value.ours
  }

  /** The versions that the informer has seen last and has still to see lead up to the current one. */
  predicate Informed(l: Local) {
    && l.server.rv == l.cache.rv + |l.news|
    && l.server == (if l.news == [] then l.cache else l.news[|l.news| - 1])
    && forall i :: 0 <= i < |l.news| ==> l.news[i].rv == l.cache.rv + 1 + i
  }

  /** One of these versions is live and has the finalizer. */
  predicate OursAhead(l: Local) {
    LiveOurs(l.cache) || exists i :: 0 <= i < |l.news| && LiveOurs(l.news[i])
  }

  ghost predicate LocalInv(c: Config, k: Key, l: Local) {
    && Informed(l)
    && (OursAhead(l) ==> Held(l))
    && (OnMainPath(l.pc) ==> Held(l))
    && (l.pc.AddFinalizer? ==>
          && l.pc.snap.rv <= l.cache.rv && (l.pc.snap.rv == l.cache.rv ==> l.pc.snap == l.cache)
          && l.pc.snap.obj.Some? && !l.pc.snap.obj.value.deleting)
    && (OnDeletePath(l.pc) ==>
          && l.pc.snap.rv <= l.cache.rv && (l.pc.snap.rv == l.cache.rv ==> l.pc.snap == l.cache)
          && Doomed(l.pc.snap))
    && (l.pc.GetMount? || l.pc.CreateMount? || l.pc.DeleteMount? ==> Home(c, k, l.pc.ws))
  }

  /** Every child workspace is in a workspace that can be reached, and the controller's own belong to a held object. */
  ghost predicate MountInv(c: Config, s: State, p: Place)
    requires p in s.mounts
  {
    && Serves(s.consumers, p.ws)
    && (s.mounts[p].creator.Some? ==>
          var k := s.mounts[p].creator.value;
          && k in s.local && Held(s.local[k]) && !s.local[k].pc.RemoveFinalizer?
          && (s.local[k].pc.DeleteMount? ==> p.ws == s.local[k].pc.ws)
          && Home(c, k, p.ws) && p.name == MountName(c, k))
  }

  ghost predicate Inv(c: Config, s: State) {
    && Listable(c, s.consumers)
    && (forall k :: k in s.local ==> k.ns != "" && LocalInv(c, k, s.local[k]))
    && (forall p :: p in s.mounts ==> MountInv(c, s, p))
  }

  /** The listing answers with the first workspace that carries the cluster ID, if any does. */
  lemma {:induction false} FirstMatchIn(items: seq<Item>, id: string)
    ensures FirstMatch(items, id).Some? ==>
              exists i :: 0 <= i < |items| && items[i].name == FirstMatch(items, id).value &&
                (items[i].cluster == id || items[i].annotation == id)
    ensures FirstMatch(items, id).None? ==>
              forall i :: 0 <= i < |items| ==> items[i].cluster != id && items[i].annotation != id
  {
    if items != [] && items[0].cluster != id && items[0].annotation != id {
      FirstMatchIn(items[1..], id);
      assert forall i :: 0 < i < |items| ==> items[i] == items[1..][i - 1];
    }
  }

  /** With pinned names, the listing answers with the workspace the cluster ID stands for. */
  lemma {:induction false} MatchIsHome(c: Config, items: seq<Item>, id: string)
    requires c.pinned && Listable(c, items) && id != ""
    ensures FirstMatch(items, id).Some? ==>
              var ws := FirstMatch(items, id).value;
              ws in c.clusterOf && c.clusterOf[ws] == id && Serves(items, ws)
    ensures forall ws :: ws in c.clusterOf && c.clusterOf[ws] == id && Serves(items, ws) ==>
              FirstMatch(items, id) == Some(ws)
  {
    FirstMatchIn(items, id);
  }

  lemma CallKeepsLocal(c: Config, k: Key, l: Local, s: State)
    requires FirstMatch(s.consumers, k.ns).Some? ==> Home(c, k, FirstMatch(s.consumers, k.ns).value)
    requires LocalInv(c, k, l)
    ensures LocalInv(c, k, CallLocal(c, k, l, s))
  {
    if l.pc.AddFinalizer? || l.pc.RemoveFinalizer? {
      WriteKeepsLocal(c, k, l, s);
    } else {
      ReadKeepsLocal(c, k, l, s);
    }
  }

  lemma WriteKeepsLocal(c: Config, k: Key, l: Local, s: State)
    requires LocalInv(c, k, l) && (l.pc.AddFinalizer? || l.pc.RemoveFinalizer?)
    ensures LocalInv(c, k, CallLocal(c, k, l, s))
  {
  }

  lemma ReadKeepsLocal(c: Config, k: Key, l: Local, s: State)
    requires FirstMatch(s.consumers, k.ns).Some? ==> Home(c, k, FirstMatch(s.consumers, k.ns).value)
    requires LocalInv(c, k, l) && !l.pc.AddFinalizer? && !l.pc.RemoveFinalizer?
    ensures LocalInv(c, k, CallLocal(c, k, l, s))
  {
    var l' := CallLocal(c, k, l, s);
    assert l'.server == l.server && l'.cache == l.cache;
    ReadMovesOn(c, k, l, s);
    hide CallLocal, Home;
  }

  /** Where a call that only reads the object leads to. */
  lemma ReadMovesOn(c: Config, k: Key, l: Local, s: State)
    requires !l.pc.AddFinalizer? && !l.pc.RemoveFinalizer?
    ensures var pc := CallLocal(c, k, l, s).pc;
            && (OnMainPath(pc) ==>
                  OnMainPath(l.pc) || (LiveOurs(l.cache)))
            && (pc.AddFinalizer? ==> pc.snap == l.cache && l.cache.obj.Some? && !l.cache.obj.value.deleting)
            && (OnDeletePath(pc) ==>
                  (OnDeletePath(l.pc) && pc.snap == l.pc.snap) || (pc.snap == l.cache && Doomed(l.cache)))
            && (pc.GetMount? || pc.CreateMount? || pc.DeleteMount? ==>
                  FirstMatch(s.consumers, k.ns) == Some(pc.ws) || (l.pc.GetMount? && pc.ws == l.pc.ws))
  {
  }

  lemma PutKeeps(l: Local, slot: Slot)
    requires Informed(l) && slot.rv == l.server.rv + 1
    ensures Informed(Put(l, slot)) && (OursAhead(Put(l, slot)) <==> OursAhead(l) || LiveOurs(slot))
  {
    hide LiveOurs;
    var l' := Put(l, slot);
    assert l'.news[|l.news|] == slot && forall i :: 0 <= i < |l.news| ==> l'.news[i] == l.news[i];
  }

  lemma SyncKeeps(l: Local, n: nat)
    requires Informed(l) && n < |l.news|
    ensures var l' := l.(cache := l.news[n], news := l.news[n + 1..]);
            Informed(l') && (OursAhead(l') ==> OursAhead(l)) && l'.cache.rv > l.cache.rv
  {
    hide LiveOurs;
    var l' := l.(cache := l.news[n], news := l.news[n + 1..]);
    assert forall i :: 0 <= i < |l'.news| ==> l'.news[i] == l.news[n + 1 + i];
  }

  /** What the environment does to one object. */
  lemma EnvironmentStep(c: Config, s: State, a: Action, k: Key)
    requires k in s.local && Enabled(c, s, a) && !a.Work?
    ensures var l, l' := s.local[k], Apply(c, s, a).local[k];
            && (l'.pc == l.pc || l'.pc == Returned(false))
            && ((l'.server, l'.cache, l'.news) == (l.server, l.cache, l.news)
                || (a.SyncObject? && a.k == k && a.n < |l.news|
                    && l' == l.(cache := l.news[a.n], news := l.news[a.n + 1..]))
                || (l' == Put(l, l'.server) && l'.server.rv == l.server.rv + 1
                    && (Held(l) ==> Held(l')) && (!Held(l) ==> !LiveOurs(l'.server))))
  {
  }

  lemma CallKeepsInformed(c: Config, k: Key, l: Local, s: State)
    requires Informed(l)
    ensures Informed(CallLocal(c, k, l, s))
  {
    var l' := CallLocal(c, k, l, s);
    if (l'.server, l'.cache, l'.news) == (l.server, l.cache, l.news) {
      SameObject(l, l');
    } else {
      PutKeeps(l, l'.server);
      SameObject(Put(l, l'.server), l');
    }
  }

  lemma EnvironmentKeepsInformed(c: Config, s: State, a: Action, k: Key)
    requires k in s.local && Informed(s.local[k]) && Enabled(c, s, a) && !a.Work?
    ensures Informed(Apply(c, s, a).local[k])
  {
    hide Apply, Enabled, Informed;
    EnvironmentStep(c, s, a, k);
    var l, l' := s.local[k], Apply(c, s, a).local[k];
    if (l'.server, l'.cache, l'.news) == (l.server, l.cache, l.news) {
      SameObject(l, l');
    } else if l' == Put(l, l'.server) && l'.server.rv == l.server.rv + 1 {
      PutKeeps(l, l'.server);
    } else {
      SyncKeeps(l, a.n);
    }
  }

  /** What the informer has seen is always some version, and what it has still to see are those after it. */
  lemma {:induction false} AlwaysInformed(c: Config, s: State, acts: seq<Action>, k: Key)
    requires Valid(c, s, acts) && k in s.local && Informed(s.local[k])
    ensures k in Run(c, s, acts).local && Informed(Run(c, s, acts).local[k])
    decreases |acts|
  {
    if acts != [] {
      if acts[0].Work? {
        CallKeepsInformed(c, k, s.local[k], s);
      } else {
        EnvironmentKeepsInformed(c, s, acts[0], k);
      }
      hide Informed, CallLocal, Enabled;
      AlwaysInformed(c, Apply(c, s, acts[0]), acts[1..], k);
    }
  }

  lemma EnvironmentKeepsLocal(c: Config, s: State, a: Action, k: Key)
    requires k in s.local && LocalInv(c, k, s.local[k]) && Enabled(c, s, a) && !a.Work?
    ensures LocalInv(c, k, Apply(c, s, a).local[k])
    ensures Held(s.local[k]) ==> Held(Apply(c, s, a).local[k])
    ensures s.local[k].pc == Apply(c, s, a).local[k].pc || Apply(c, s, a).local[k].pc.Returned?
  {
    hide Apply, Enabled, Home, Informed, OursAhead, Doomed, LiveOurs;
    EnvironmentStep(c, s, a, k);
    var l, l' := s.local[k], Apply(c, s, a).local[k];
    if (l'.server, l'.cache, l'.news) == (l.server, l.cache, l.news) {
      SameObject(l, l');
    } else if l' == Put(l, l'.server) && l'.server.rv == l.server.rv + 1 {
      PutKeeps(l, l'.server);
    } else {
      SyncKeeps(l, a.n);
    }
  }

  lemma SameObject(l: Local, l': Local)
    requires (l'.server, l'.cache, l'.news) == (l.server, l.cache, l.news)
    ensures Informed(l') == Informed(l) && OursAhead(l') == OursAhead(l)
  {
  }

  lemma LocalStep(c: Config, s: State, a: Action, k: Key)
    requires c.pinned && Listable(c, s.consumers) && Enabled(c, s, a)
    requires k in s.local && k.ns != "" && LocalInv(c, k, s.local[k])
    ensures LocalInv(c, k, Apply(c, s, a).local[k])
  {
    if a == Work(k) {
      MatchIsHome(c, s.consumers, k.ns);
      CallKeepsLocal(c, k, s.local[k], s);
    } else if !a.Work? {
      EnvironmentKeepsLocal(c, s, a, k);
    }
  }

  /** A call of one reconcile, against a child workspace that it made itself and that is there afterwards. */
  lemma CallKeepsOwnMount(c: Config, k: Key, l: Local, s: State, p: Place)
    requires forall ws :: Home(c, k, ws) && Serves(s.consumers, ws) ==> FirstMatch(s.consumers, k.ns) == Some(ws)
    requires LocalInv(c, k, l) && k in s.local && l == s.local[k]
    requires p in s.mounts ==> MountInv(c, s, p)
    requires p in CallMounts(c, k, l, s) && CallMounts(c, k, l, s)[p].creator == Some(k)
    ensures var l' := CallLocal(c, k, l, s);
            && Serves(s.consumers, p.ws) && Held(l') && !l'.pc.RemoveFinalizer?
            && (l'.pc.DeleteMount? ==> p.ws == l'.pc.ws)
            && Home(c, k, p.ws) && p.name == MountName(c, k)
  {
    var l' := CallLocal(c, k, l, s);
    if p in s.mounts {
      if l.pc.AddFinalizer? {
        assert l'.pc.Returned? || l'.pc.GetCluster?;
      } else {
        assert l'.server == l.server;
        assert l'.pc.RemoveFinalizer? ==> l.pc.ListForDelete? || l.pc.DeleteMount?;
        assert l'.pc.DeleteMount? ==> l.pc.ListForDelete?;
      }
    }
  }

  lemma CallKeepsMount(c: Config, s: State, k: Key, p: Place)
    requires c.pinned && Listable(c, s.consumers)
    requires k in s.local && k.ns != "" && LocalInv(c, k, s.local[k])
    requires p in s.mounts ==> MountInv(c, s, p)
    requires p in Call(c, s, k).mounts
    ensures MountInv(c, Call(c, s, k), p)
  {
    if Call(c, s, k).mounts[p].creator == Some(k) {
      MatchIsHome(c, s.consumers, k.ns);
      CallKeepsOwnMount(c, k, s.local[k], s, p);
    } else {
      assert p in s.mounts && s.mounts[p] == Call(c, s, k).mounts[p];
    }
  }

  lemma MountStep(c: Config, s: State, a: Action, p: Place)
    requires c.pinned && Inv(c, s) && Enabled(c, s, a)
    requires p in Apply(c, s, a).mounts
    ensures MountInv(c, Apply(c, s, a), p)
  {
    if a.Work? {
      CallKeepsMount(c, s, a.k, p);
    } else if p in s.mounts {
      assert MountInv(c, s, p);
      if s.mounts[p].creator.Some? {
        EnvironmentKeepsLocal(c, s, a, s.mounts[p].creator.value);
      }
    }
  }

  lemma InvStep(c: Config, s: State, a: Action)
    requires c.pinned && Inv(c, s) && Enabled(c, s, a)
    ensures Inv(c, Apply(c, s, a))
  {
    var t := Apply(c, s, a);
    forall k | k in t.local ensures k.ns != "" && LocalInv(c, k, t.local[k]) {
      LocalStep(c, s, a, k);
    }
    forall p | p in t.mounts ensures MountInv(c, t, p) {
      MountStep(c, s, a, p);
    }
  }

  lemma {:induction false} InvRun(c: Config, s: State, acts: seq<Action>)
    requires c.pinned && Inv(c, s) && Valid(c, s, acts)
    ensures Inv(c, Run(c, s, acts))
    decreases |acts|
  {
    if acts != [] {
      InvStep(c, s, acts[0]);
      InvRun(c, Apply(c, s, acts[0]), acts[1..]);
    }
  }

  lemma ReachedInv(c: Config, s: State, acts: seq<Action>)
    requires c.pinned && Init(s) && Valid(c, s, acts)
    ensures Inv(c, Run(c, s, acts))
  {
    hide Valid, Run;
    InvRun(c, s, acts);
  }

  /** Every child workspace the controller created belongs to a stored object that carries the finalizer. */
  ghost predicate NoOrphans(s: State) {
    forall p :: p in s.mounts && s.mounts[p].creator.Some? ==>
      s.mounts[p].creator.value in s.local && Held(s.local[s.mounts[p].creator.value])
  }

  lemma NoOrphanedMount(c: Config, s: State, acts: seq<Action>)
    requires c.pinned && Init(s) && Valid(c, s, acts)
    ensures NoOrphans(Run(c, s, acts))
  {
    InvRun(c, s, acts);
    var t := Run(c, s, acts);
    forall p | p in t.mounts && t.mounts[p].creator.Some?
      ensures t.mounts[p].creator.value in t.local && Held(t.local[t.mounts[p].creator.value])
    {
      assert MountInv(c, t, p);
    }
  }

  ghost predicate CreatedAsNamed(c: Config, s: State) {
    forall p :: p in s.mounts && s.mounts[p].creator.Some? ==>
      s.mounts[p].ref == Some(Remote(c, s.mounts[p].creator.value)) && p.name == MountName(c, s.mounts[p].creator.value)
  }

  lemma {:induction false} CreatedAsNamedRun(c: Config, s: State, acts: seq<Action>)
    requires Valid(c, s, acts) && CreatedAsNamed(c, s)
    ensures CreatedAsNamed(c, Run(c, s, acts))
    decreases |acts|
  {
    hide CreatedAsNamed, Apply, Enabled;
    if acts != [] {
      CreatedAsNamedStep(c, s, acts[0]);
      CreatedAsNamedRun(c, Apply(c, s, acts[0]), acts[1..]);
    }
  }

  lemma CreatedAsNamedStep(c: Config, s: State, a: Action)
    requires Enabled(c, s, a) && CreatedAsNamed(c, s)
    ensures CreatedAsNamed(c, Apply(c, s, a))
  {
    hide MountName, Remote, CallLocal, Put, Settle, PutCluster, CallMeddled, Serves, Listable, KeepsIds;
    var t := Apply(c, s, a);
    forall p | p in t.mounts && t.mounts[p].creator.Some?
      ensures t.mounts[p].ref == Some(Remote(c, t.mounts[p].creator.value))
      ensures p.name == MountName(c, t.mounts[p].creator.value)
    {
      assert p in s.mounts ==> t.mounts[p] == s.mounts[p];
    }
  }

  /** In every run, a mount that was created for an object refers to that object's coordinates and has their name. */
  lemma MountsAreNamed(c: Config, s: State, acts: seq<Action>, p: Place, k: Key)
    requires Init(s) && Valid(c, s, acts)
    requires p in Run(c, s, acts).mounts && Run(c, s, acts).mounts[p].creator == Some(k)
    ensures var m := Run(c, s, acts).mounts[p]; m.ref.Some? && IsReference(c, k, m.ref.value)
    ensures IsMountName(c, k, p.name)
  {
    CreatedAsNamedRun(c, s, acts);
    NamesAgree(c, k);
  }

  /**
   * Whatever step takes the finalizer off an object, it is the controller's own update, the object was being
   * deleted, and no child workspace created for it is left anywhere.
   */
  lemma FinalizerGoesLast(c: Config, s: State, acts: seq<Action>, a: Action, k: Key)
    requires c.pinned && Init(s) && Valid(c, s, acts)
    requires var t := Run(c, s, acts);
             Enabled(c, t, a) && k in t.local && Held(t.local[k]) && !Held(Apply(c, t, a).local[k])
    ensures var t := Run(c, s, acts);
            && a == Work(k) && t.local[k].pc.RemoveFinalizer? && t.local[k].server.obj.value.deleting
            && forall p :: p in t.mounts ==> t.mounts[p].creator != Some(k)
  {
    hide *;
    ReachedInv(c, s, acts);
    FinalizerStep(c, Run(c, s, acts), a, k);
  }

  lemma FinalizerStep(c: Config, s: State, a: Action, k: Key)
    requires Inv(c, s) && Enabled(c, s, a) && k in s.local && Held(s.local[k]) && !Held(Apply(c, s, a).local[k])
    ensures a == Work(k) && s.local[k].pc.RemoveFinalizer? && s.local[k].server.obj.value.deleting
    ensures forall p :: p in s.mounts ==> s.mounts[p].creator != Some(k)
  {
    hide Enabled, Apply, LocalInv, Listable, MountInv;
    assert LocalInv(c, k, s.local[k]);
    LosesFinalizer(c, s, a, k);
    NothingLeft(c, s, k);
  }

  /** When a reconcile gets to take the finalizer off, nothing that was created for the object is left. */
  lemma NothingLeft(c: Config, s: State, k: Key)
    requires Inv(c, s) && k in s.local && s.local[k].pc.RemoveFinalizer?
    ensures forall p :: p in s.mounts ==> s.mounts[p].creator != Some(k)
  {
    forall p | p in s.mounts ensures s.mounts[p].creator != Some(k) {
      assert MountInv(c, s, p);
    }
  }

  lemma LosesFinalizer(c: Config, s: State, a: Action, k: Key)
    requires k in s.local && Enabled(c, s, a) && LocalInv(c, k, s.local[k])
    requires Held(s.local[k]) && !Held(Apply(c, s, a).local[k])
    ensures a == Work(k) && s.local[k].pc.RemoveFinalizer? && s.local[k].server.obj.value.deleting
  {
    if !a.Work? {
      EnvironmentKeepsLocal(c, s, a, k);
    }
  }
}
