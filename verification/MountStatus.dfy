/** The published status is sound over whole runs: "ready" is never shown without the mount behind it. */
module MountStatus {
  import opened Basics
  import opened MountProtocol
  import opened MountSafety

  /** No other object of the same tenant derives the same mount name. */
  ghost predicate UnsharedName(c: Config, s: State, k: Key) {
    forall other :: other in s.local && other != k && other.ns == k.ns ==> MountName(c, other) != MountName(c, k)
  }

  /** Ready, phase and URL say the same thing. */
  predicate Consistent(c: Config, k: Key, st: Status) {
    && (st.ready <==> st.phase == "Ready") && (st.ready <==> st.url != "")
    && (st.ready ==> st.url == MountURL(c, k)) && st.mount == MountName(c, k)
  }

  predicate Live(l: Local) {
    l.server.obj.Some? && !l.server.obj.value.deleting
  }

  predicate Away(slot: Slot) {
    slot.obj.None? || slot.obj.value.deleting
  }

  /** The object was away in the version that the informer has seen last, or in one it has still to see. */
  predicate AwayAhead(l: Local) {
    Away(l.cache) || exists i :: 0 <= i < |l.news| && Away(l.news[i])
  }

  predicate ShowsReady(l: Local) {
    l.cluster.Some? && l.cluster.value.annotation.Some? && l.cluster.value.annotation.value.ready
  }

  /** The mount is where it belongs and refers to the tenant's object, unless somebody else touched that place. */
  ghost predicate Backed(c: Config, s: State, k: Key) {
    exists ws :: Home(c, k, ws) && BackedAt(c, s, k, Place(ws, MountName(c, k)))
  }

  predicate BackedAt(c: Config, s: State, k: Key, p: Place) {
    p in s.meddled || (p in s.mounts && s.mounts[p].ref == Some(Remote(c, k)))
  }

  predicate PcConsistent(c: Config, k: Key, pc: Pc) {
    && (pc.GetSecret? || pc.ApplyCalico? || pc.ListNodes? || pc.UpdateNode? ==> pc.up || pc.phase != "Ready")
    && (pc.CompareStatus? || pc.PatchStatus? ==> Consistent(c, k, pc.st))
  }

  ghost predicate LocalStatus(c: Config, k: Key, l: Local) {
    && PcConsistent(c, k, l.pc)
    && (l.cluster.Some? && l.cluster.value.annotation.Some? ==> Consistent(c, k, l.cluster.value.annotation.value))
    && (ShowsReady(l) && OnDeletePath(l.pc) ==> !Live(l))
    && ((ShowsReady(l) || OnMainPath(l.pc) || OursAhead(l)) && AwayAhead(l) ==> !Live(l))
  }

  predicate Claims(l: Local) {
    (ShowsReady(l) && Live(l)) || ((l.pc.CompareStatus? || l.pc.PatchStatus?) && l.pc.st.ready)
  }

  ghost predicate StatusInv(c: Config, s: State, k: Key)
    requires k in s.local
  {
    var l := s.local[k];
    && LocalStatus(c, k, l)
    && (Claims(l) ==> Backed(c, s, k))
    && (l.pc.CreateMount? && Place(l.pc.ws, MountName(c, k)) in s.mounts ==>
          Place(l.pc.ws, MountName(c, k)) in s.meddled)
  }

  lemma ReadyIsConsistent(c: Config, k: Key)
    ensures Consistent(c, k, ReadyStatus(c, k))
  {
    assert |MountURL(c, k)| >= |"/mounts/"|;
  }

  lemma CallKeepsLocalStatus(c: Config, k: Key, l: Local, s: State)
    requires LocalInv(c, k, l) && LocalStatus(c, k, l)
    ensures LocalStatus(c, k, CallLocal(c, k, l, s))
  {
    CallKeepsPc(c, k, l, s);
    if l.pc.AddFinalizer? || l.pc.RemoveFinalizer? {
      WriteKeepsLocalStatus(c, k, l, s);
    } else {
      ReadMovesOn(c, k, l, s);
      var l' := CallLocal(c, k, l, s);
      assert l'.server == l.server && l'.cache == l.cache;
      assert l'.cluster == l.cluster ||
        (l.pc.PatchStatus? && l'.pc.Returned? && l'.cluster.Some? && l'.cluster.value.annotation == Some(l.pc.st));
      assert l.pc.PatchStatus? ==> Consistent(c, k, l.pc.st);
      hide CallLocal, Consistent, PcConsistent, LocalInv;
      SameObject(l, l');
    }
  }

  lemma WriteKeepsLocalStatus(c: Config, k: Key, l: Local, s: State)
    requires LocalInv(c, k, l) && LocalStatus(c, k, l) && PcConsistent(c, k, CallLocal(c, k, l, s).pc)
    requires l.pc.AddFinalizer? || l.pc.RemoveFinalizer?
    ensures LocalStatus(c, k, CallLocal(c, k, l, s))
  {
    hide Consistent, PcConsistent, Home;
    var l' := CallLocal(c, k, l, s);
    if l'.server != l.server {
      assert l.news == [] && l'.news == [l'.server];
    }
  }

  lemma CallKeepsPc(c: Config, k: Key, l: Local, s: State)
    requires PcConsistent(c, k, l.pc)
    ensures PcConsistent(c, k, CallLocal(c, k, l, s).pc)
  {
    hide MountName, Remote, FirstMatch, Serves, Settle, Allows;
    if l.pc.GetMount? || l.pc.CreateMount? {
      ReadyIsConsistent(c, k);
    } else if l.pc.GetSecret? || l.pc.UpdateNode? {
      hide MountURL, ReadyStatus;
    } else {
      hide MountURL, ReadyStatus, Consistent;
    }
  }

  lemma EnvironmentKeepsLocalStatus(c: Config, s: State, a: Action, k: Key)
    requires k in s.local && Enabled(c, s, a) && !a.Work?
    requires LocalInv(c, k, s.local[k]) && LocalStatus(c, k, s.local[k])
    ensures LocalStatus(c, k, Apply(c, s, a).local[k])
    ensures Claims(Apply(c, s, a).local[k]) ==> Claims(s.local[k])
  {
    hide Consistent;
  }

  /** Only the object's own deletion takes the mount from behind its status. */
  lemma BackedStep(c: Config, s: State, a: Action, k: Key)
    requires Listable(c, s.consumers) && Enabled(c, s, a) && k in s.local && UnsharedName(c, s, k)
    requires a.Work? ==> LocalInv(c, a.k, s.local[a.k])
    requires Backed(c, s, k) && !(a == Work(k) && s.local[k].pc.DeleteMount?)
    ensures Backed(c, Apply(c, s, a), k)
  {
    var ws :| Home(c, k, ws) && BackedAt(c, s, k, Place(ws, MountName(c, k)));
    var p := Place(ws, MountName(c, k));
    assert BackedAt(c, Apply(c, s, a), k, p);
  }

  /** Nobody but outsiders can put something at the place the reconcile has found empty. */
  lemma PlaceStep(c: Config, s: State, a: Action, k: Key)
    requires Enabled(c, s, a) && k in s.local && UnsharedName(c, s, k) && a != Work(k)
    requires LocalInv(c, k, s.local[k]) && (a.Work? ==> LocalInv(c, a.k, s.local[a.k]))
    requires s.local[k].pc.CreateMount?
    requires var p := Place(s.local[k].pc.ws, MountName(c, k)); p in s.mounts ==> p in s.meddled
    ensures var p := Place(s.local[k].pc.ws, MountName(c, k));
            p in Apply(c, s, a).mounts ==> p in Apply(c, s, a).meddled
  {
    if a.Work? && s.local[a.k].pc.CreateMount? {
      var ws := s.local[a.k].pc.ws;
      assert Home(c, a.k, ws) && Home(c, k, s.local[k].pc.ws);
    }
  }

  lemma OwnCall(c: Config, s: State, k: Key)
    requires Listable(c, s.consumers) && k in s.local && UnsharedName(c, s, k)
    requires LocalInv(c, k, s.local[k]) && StatusInv(c, s, k)
    ensures StatusInv(c, Call(c, s, k), k)
  {
    var l, t := s.local[k], Call(c, s, k);
    CallKeepsLocalStatus(c, k, l, s);
    if Claims(t.local[k]) {
      if l.pc.GetMount? || l.pc.CreateMount? {
        OwnMountCall(c, s, k);
      } else {
        OwnClaim(c, s, k);
        hide LocalStatus, LocalInv, Listable, Backed, Claims;
        BackedStep(c, s, Work(k), k);
      }
    }
    hide LocalStatus, LocalInv, Listable, Backed, Claims;
    assert t.local[k].pc.CreateMount? ==> Place(t.local[k].pc.ws, MountName(c, k)) !in t.mounts;
  }

  /** A reconcile that goes on from one of the two mount calls has its mount there. */
  lemma OwnMountCall(c: Config, s: State, k: Key)
    requires Listable(c, s.consumers) && k in s.local && UnsharedName(c, s, k)
    requires LocalInv(c, k, s.local[k]) && StatusInv(c, s, k)
    requires s.local[k].pc.GetMount? || s.local[k].pc.CreateMount?
    requires Claims(Call(c, s, k).local[k])
    ensures Backed(c, Call(c, s, k), k)
  {
    hide LocalStatus, Listable, UnsharedName;
    var l, t := s.local[k], Call(c, s, k);
    if t.local[k].pc.CompareStatus? {
      assert BackedAt(c, t, k, Place(l.pc.ws, MountName(c, k)));
      assert Home(c, k, l.pc.ws);
    } else {
      assert Claims(l);
      hide Backed;
      BackedStep(c, s, Work(k), k);
    }
  }

  /** Away from the two mount calls, a reconcile claims nothing it did not claim before. */
  lemma OwnClaim(c: Config, s: State, k: Key)
    requires k in s.local && LocalInv(c, k, s.local[k]) && LocalStatus(c, k, s.local[k])
    requires Claims(Call(c, s, k).local[k]) && !s.local[k].pc.GetMount? && !s.local[k].pc.CreateMount?
    ensures Claims(s.local[k]) && !s.local[k].pc.DeleteMount?
  {
    hide Consistent, MountName, Remote, MountURL, FirstMatch, Serves, Allows, ClusterPhase, Home;
  }

  lemma {:induction false} StatusStep(c: Config, s: State, a: Action, k: Key)
    requires c.pinned && Inv(c, s) && Enabled(c, s, a) && k in s.local && UnsharedName(c, s, k)
    requires StatusInv(c, s, k)
    ensures StatusInv(c, Apply(c, s, a), k)
  {
    var t := Apply(c, s, a);
    if a == Work(k) {
      OwnCall(c, s, k);
    } else {
      if a.Work? {
        assert t.local[k] == s.local[k];
      } else {
        EnvironmentKeepsLocalStatus(c, s, a, k);
        EnvironmentKeepsLocal(c, s, a, k);
      }
      hide LocalStatus;
      if Claims(t.local[k]) {
        BackedStep(c, s, a, k);
      }
      if t.local[k].pc.CreateMount? {
        PlaceStep(c, s, a, k);
      }
    }
  }

  lemma {:induction false} StatusRun(c: Config, s: State, acts: seq<Action>, k: Key)
    requires c.pinned && Inv(c, s) && Valid(c, s, acts) && k in s.local && UnsharedName(c, s, k)
    requires StatusInv(c, s, k)
    ensures k in Run(c, s, acts).local && StatusInv(c, Run(c, s, acts), k)
    decreases |acts|
  {
    if acts != [] {
      InvStep(c, s, acts[0]);
      StatusStep(c, s, acts[0], k);
      StatusRun(c, Apply(c, s, acts[0]), acts[1..], k);
    }
  }

  /** An annotation, said outright: ready, phase and URL say the same, and the mount is named. */
  predicate SaysOutright(c: Config, k: Key, st: Status) {
    && (st.ready <==> st.phase == "Ready") && (st.ready <==> st.url != "")
    && (st.ready ==> IsMountURL(c, k, st.url)) && IsMountName(c, k, st.mount)
  }

  /** The mount with the object's reference is in place, or others have touched the place since. */
  ghost predicate StandsAt(c: Config, s: State, k: Key, p: Place) {
    && Home(c, k, p.ws) && IsMountName(c, k, p.name)
    && (p in s.meddled || (p in s.mounts && s.mounts[p].ref.Some? && IsReference(c, k, s.mounts[p].ref.value)))
  }

  lemma SaidOutright(c: Config, s: State, k: Key)
    ensures forall st :: Consistent(c, k, st) <==> SaysOutright(c, k, st)
    ensures Backed(c, s, k) <==> exists p :: StandsAt(c, s, k, p)
  {
    NamesAgree(c, k);
    hide IsMountName, IsReference, IsMountURL, MountName, Remote, MountURL, Home;
    if Backed(c, s, k) {
      var ws :| Home(c, k, ws) && BackedAt(c, s, k, Place(ws, MountName(c, k)));
      assert StandsAt(c, s, k, Place(ws, MountName(c, k)));
    }
    if p :| StandsAt(c, s, k, p) {
      assert BackedAt(c, s, k, Place(p.ws, MountName(c, k)));
    }
  }

  lemma ReachedStatus(c: Config, s: State, acts: seq<Action>, k: Key)
    requires c.pinned && Init(s) && Valid(c, s, acts) && k in s.local && UnsharedName(c, s, k)
    ensures k in Run(c, s, acts).local && StatusInv(c, Run(c, s, acts), k)
  {
    assert Inv(c, s) && StatusInv(c, s, k);
    hide *;
    StatusRun(c, s, acts, k);
  }

  /**
   * In every reachable state, an annotation has ready exactly when its phase is "Ready" and exactly when its URL
   * is not empty; and a ready annotation of an object that is not being deleted has its mount behind it.
   */
  lemma PublishedStatusIsSound(c: Config, s: State, acts: seq<Action>, k: Key)
    requires c.pinned && Init(s) && Valid(c, s, acts) && k in s.local && UnsharedName(c, s, k)
    ensures var t := Run(c, s, acts);
            && k in t.local
            && (t.local[k].cluster.Some? && t.local[k].cluster.value.annotation.Some? ==>
                  SaysOutright(c, k, t.local[k].cluster.value.annotation.value))
            && (ShowsReady(t.local[k]) && Live(t.local[k]) ==> exists p :: StandsAt(c, t, k, p))
  {
    hide Init, Valid, Run, Consistent, Backed, UnsharedName, SaysOutright, StandsAt;
    ReachedStatus(c, s, acts, k);
    SaidOutright(c, Run(c, s, acts), k);
  }
}
