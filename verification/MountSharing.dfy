/** The hypothesis of MountStatus on mount names, which the code needs: deletion goes by the name alone. */
module MountSharing {
  import opened Basics
  import opened MountProtocol
  import opened MountSafety
  import opened MountStatus
  import opened MountWitness

  /** Another object of the tenant derives the same mount name. */
  ghost predicate NameIsShared(c: Config, keys: set<Key>, k: Key) {
    exists other :: other in keys && other != k && other.ns == k.ns && MountName(c, other) == MountName(c, k)
  }

  /** Some workspace can stand for the tenant. */
  ghost predicate HasHome(c: Config, k: Key) {
    exists ws :: Home(c, k, ws)
  }

  ghost predicate ReadyIsTrue(c: Config, s: State, k: Key) {
    k in s.local && ShowsReady(s.local[k]) && Live(s.local[k]) ==> Backed(c, s, k)
  }

  /******* A run with a shared name *******/

  function Fresh(keys: set<Key>): State {
    State(map k | k in keys :: NEW, [], map[], {})
  }

  /** An object that is being deleted, as its informer knows. */
  function Leaving(pc: Pc): Local {
    var slot := Slot(3, Object(true, true));
    NEW.(server := slot, cache := slot, pc := pc)
  }

  lemma Leaves(c: Config, s: State, w: State, k: Key)
    requires Reaches(c, s, With(w, k, NEW)) && w.meddled == {}
    ensures Reaches(c, s, With(w, k, Leaving(Returned(false))))
  {
    hide Reaches;
    TakesFinalizer(c, s, w, k, None);
    Learns(c, s, w, k, Owned(None));
    var l0 := Owned(None).(cache := Owned(None).server, news := []);
    var l1 := l0.(pc := Returned(false));
    Happens(c, s, w, k, l0, l1, Stop(k));
    var l2 := Put(l1, Slot(3, Object(true, true)));
    Happens(c, s, w, k, l1, l2, DeleteObject(k));
    Learns(c, s, w, k, l2);
    assert l2.(cache := l2.server, news := []) == Leaving(Returned(false));
  }

  /** The object's mount is made, and its status is published. */
  function Published(c: Config, k: Key): Local {
    var cluster := Some(Cluster(true, "", Some(ReadyStatus(c, k))));
    Running(Returned(true)).(cluster := cluster, clusterNews := [cluster])
  }

  function WithMount(c: Config, w: State, k: Key, ws: string): State {
    w.(mounts := map[Place(ws, MountName(c, k)) := Mount(Some(Remote(c, k)), Some(k))])
  }

  lemma Publishes(c: Config, s: State, w: State, k: Key, ws: string)
    requires Reaches(c, s, With(w, k, NEW)) && w.meddled == {} && w.mounts == map[]
    requires FirstMatch(w.consumers, k.ns) == Some(ws) && Serves(w.consumers, ws)
    ensures Reaches(c, s, With(WithMount(c, w, k, ws), k, Published(c, k)))
  {
    hide Reaches, FirstMatch, Serves, MountName, Remote, ReadyStatus;
    FindsPlaceEmpty(c, s, w, k, ws);
    ReachesCall(c, s, With(w, k, Running(CreateMount(ws))), k);
    Creates(c, w, k, ws);
    var w', st := WithMount(c, w, k, ws), ReadyStatus(c, k);
    Calls(c, s, w', k, Running(CompareStatus(st)), Running(PatchStatus(st)));
    Calls(c, s, w', k, Running(PatchStatus(st)), Published(c, k));
  }

  lemma Creates(c: Config, w: State, k: Key, ws: string)
    requires w.meddled == {} && w.mounts == map[] && Serves(w.consumers, ws)
    ensures Call(c, With(w, k, Running(CreateMount(ws))), k)
         == With(WithMount(c, w, k, ws), k, Running(CompareStatus(ReadyStatus(c, k))))
  {
    hide FirstMatch, Serves, MountName, Remote, ReadyStatus;
    var l, l' := Running(CreateMount(ws)), Running(CompareStatus(ReadyStatus(c, k)));
    WithAgain(w, k, l, l');
    assert CallLocal(c, k, l, With(w, k, l)) == l';
  }

  /** The deletion of the other object takes what is at the place of the name. */
  lemma Removes(c: Config, s: State, w: State, k: Key, ws: string)
    requires Reaches(c, s, With(w, k, Leaving(Returned(false)))) && w.meddled == {}
    requires FirstMatch(w.consumers, k.ns) == Some(ws)
    ensures var w' := w.(mounts := w.mounts - {Place(ws, MountName(c, k))});
            Reaches(c, s, With(w', k, Leaving(RemoveFinalizer(Slot(3, Object(true, true))))))
  {
    hide Reaches, FirstMatch, MountName, Remote;
    var slot := Slot(3, Object(true, true));
    Calls(c, s, w, k, Leaving(Returned(false)), Leaving(ListForDelete(slot)));
    Calls(c, s, w, k, Leaving(ListForDelete(slot)), Leaving(DeleteMount(slot, ws)));
    ReachesCall(c, s, With(w, k, Leaving(DeleteMount(slot, ws))), k);
    WithAgain(w, k, Leaving(DeleteMount(slot, ws)), Leaving(RemoveFinalizer(slot)));
  }

  /** The world at the end: ready is shown, and nothing is there. */
  lemma ReachesUnbacked(c: Config, keys: set<Key>, k: Key, other: Key, ws: string) returns (t: State)
    requires c.pinned && k in keys && k.ns != "" && Home(c, k, ws)
    requires other in keys && other != k && other.ns == k.ns && MountName(c, other) == MountName(c, k)
    ensures Reaches(c, Fresh(keys), t) && !ReadyIsTrue(c, t, k)
  {
    hide Reaches, MountName, Remote;
    var s, items := Fresh(keys), [Item(ws, k.ns, "")];
    ReachesSelf(c, s);
    assert With(s, other, NEW) == s;
    Leaves(c, s, s, other);
    var w1 := With(s, other, Leaving(Returned(false)));
    assert ItemId(items[0]) == k.ns;
    Relists(c, s, w1, items);
    var w2 := w1.(consumers := items);
    assert Serves(items, ws);
    assert With(w2, k, NEW) == w2;
    Publishes(c, s, w2, k, ws);
    var w3 := With(WithMount(c, w2, k, ws), k, Published(c, k));
    assert With(w3, other, Leaving(Returned(false))) == w3;
    Removes(c, s, w3, other, ws);
    var w4 := w3.(mounts := w3.mounts - {Place(ws, MountName(c, other))});
    t := With(w4, other, Leaving(RemoveFinalizer(Slot(3, Object(true, true)))));
    assert t.mounts == map[] && t.local[k] == Published(c, k);
  }

  /******* Without a workspace for the tenant *******/

  /** Nothing is ever claimed for a tenant that no workspace can stand for. */
  lemma {:induction false} NeverClaims(c: Config, s: State, acts: seq<Action>, k: Key)
    requires c.pinned && Inv(c, s) && Valid(c, s, acts) && k in s.local && !HasHome(c, k)
    requires LocalStatus(c, k, s.local[k]) && !Claims(s.local[k])
    ensures k in Run(c, s, acts).local && !Claims(Run(c, s, acts).local[k])
    decreases |acts|
  {
    if acts != [] {
      InvStep(c, s, acts[0]);
      ClaimsNothing(c, s, acts[0], k);
      hide Inv, LocalStatus, Claims, Enabled;
      NeverClaims(c, Apply(c, s, acts[0]), acts[1..], k);
    }
  }

  lemma ClaimsNothing(c: Config, s: State, a: Action, k: Key)
    requires c.pinned && Inv(c, s) && Enabled(c, s, a) && k in s.local && !HasHome(c, k)
    requires LocalStatus(c, k, s.local[k]) && !Claims(s.local[k])
    ensures LocalStatus(c, k, Apply(c, s, a).local[k]) && !Claims(Apply(c, s, a).local[k])
  {
    if a == Work(k) {
      assert LocalInv(c, k, s.local[k]);
      CallKeepsLocalStatus(c, k, s.local[k], s);
      if Claims(Apply(c, s, a).local[k]) && !s.local[k].pc.GetMount? && !s.local[k].pc.CreateMount? {
        OwnClaim(c, s, k);
      }
    } else if !a.Work? {
      EnvironmentKeepsLocalStatus(c, s, a, k);
    }
  }

  lemma SoundUnshared(c: Config, s: State, acts: seq<Action>, k: Key)
    requires c.pinned && k in s.local && Init(s) && Valid(c, s, acts) && !NameIsShared(c, s.local.Keys, k)
    ensures ReadyIsTrue(c, Run(c, s, acts), k)
  {
    assert UnsharedName(c, s, k);
    hide Init, Valid, Run, UnsharedName, NameIsShared, Backed, Consistent, SaysOutright, StandsAt;
    PublishedStatusIsSound(c, s, acts, k);
    SaidOutright(c, Run(c, s, acts), k);
  }

  lemma SoundUnlisted(c: Config, s: State, acts: seq<Action>, k: Key)
    requires c.pinned && k in s.local && Init(s) && Valid(c, s, acts) && !HasHome(c, k)
    ensures ReadyIsTrue(c, Run(c, s, acts), k)
  {
    hide Init, Valid, Run, LocalStatus, Inv, HasHome, Backed;
    NothingClaimed(c, s, k);
    NeverClaims(c, s, acts, k);
  }

  lemma NothingClaimed(c: Config, s: State, k: Key)
    requires k in s.local && Init(s)
    ensures Inv(c, s) && LocalStatus(c, k, s.local[k]) && !Claims(s.local[k])
  {
    hide Consistent, Home;
  }

  lemma SoundOtherwise(c: Config, s: State, t: State, k: Key)
    requires c.pinned && k in s.local && Init(s) && Reaches(c, s, t)
    requires !NameIsShared(c, s.local.Keys, k) || !HasHome(c, k)
    ensures ReadyIsTrue(c, t, k)
  {
    var acts :| Valid(c, s, acts) && Run(c, s, acts) == t;
    hide *;
    if HasHome(c, k) {
      SoundUnshared(c, s, acts, k);
    } else {
      SoundUnlisted(c, s, acts, k);
    }
  }

  /**
   * Ready is never shown without the mount behind it, in any run over these objects, exactly when no other object of
   * the tenant shares the mount name or no workspace can stand for the tenant at all.
   */
  lemma SoundExactlyWhenUnshared(c: Config, keys: set<Key>, k: Key)
    requires c.pinned && k in keys && forall key :: key in keys ==> key.ns != ""
    ensures (forall s, t :: Init(s) && s.local.Keys == keys && Reaches(c, s, t) ==> ReadyIsTrue(c, t, k))
            <==> !NameIsShared(c, keys, k) || !HasHome(c, k)
  {
    if NameIsShared(c, keys, k) && HasHome(c, k) {
      var other :| other in keys && other != k && other.ns == k.ns && MountName(c, other) == MountName(c, k);
      var ws :| Home(c, k, ws);
      var t := ReachesUnbacked(c, keys, k, other, ws);
      assert Init(Fresh(keys)) && Fresh(keys).local.Keys == keys;
    } else {
      hide Init, Reaches, ReadyIsTrue, NameIsShared, HasHome;
      forall s, t | Init(s) && s.local.Keys == keys && Reaches(c, s, t) ensures ReadyIsTrue(c, t, k) {
        SoundOtherwise(c, s, t, k);
      }
    }
  }
}
