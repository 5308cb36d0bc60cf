/** The one hypothesis of MountSafety that the controller itself does not establish, and that it needs. */
module NameReuse {
  import opened Basics
  import opened MountProtocol
  import opened MountSafety
  import opened MountWitness

  /** No child workspace is left, but the object's mount in another tenant's workspace. */
  function Strayed(c: Config, k: Key): State {
    Empty([Item("t", "not " + k.ns, "")])
      .(mounts := map[Place("t", MountName(c, k)) := Mount(Some(Remote(c, k)), Some(k))])
  }

  /** The reconcile has listed workspace "t" for the object's cluster and is about to create the mount there. */
  lemma ReachesCreate(c: Config, k: Key)
    requires k.ns != "" && !c.pinned
    ensures Reaches(c, With(Empty([]), k, NEW), With(Empty([Item("t", k.ns, "")]), k, Running(CreateMount("t"))))
  {
    hide Reaches;
    var s, items := With(Empty([]), k, NEW), [Item("t", k.ns, "")];
    ReachesSelf(c, s);
    Relists(c, s, s, items);
    assert s.(consumers := items) == With(Empty(items), k, NEW);
    FindsPlaceEmpty(c, s, Empty(items), k, "t");
  }

  /** Meanwhile the name "t" goes to another cluster. */
  lemma ReachesForeignMount(c: Config, k: Key)
    requires k.ns != "" && !c.pinned
    ensures Reaches(c, With(Empty([]), k, NEW), With(Strayed(c, k), k, Running(CompareStatus(ReadyStatus(c, k)))))
  {
    hide Reaches;
    ReachesCreate(c, k);
    var s, l, items := With(Empty([]), k, NEW), Running(CreateMount("t")), [Item("t", "not " + k.ns, "")];
    Relists(c, s, With(Empty([Item("t", k.ns, "")]), k, l), []);
    Relists(c, s, With(Empty([]), k, l), items);
    hide Listable, KeepsIds;
    assert items[0].name == "t" && ItemId(items[0]) == "not " + k.ns;
    assert Serves(items, "t");
    hide Serves, FirstMatch;
    ReachesCall(c, s, With(Empty(items), k, l), k);
    CreatesForeignMount(c, k, items);
  }

  lemma CreatesForeignMount(c: Config, k: Key, items: seq<Item>)
    requires items == [Item("t", "not " + k.ns, "")] && Serves(items, "t")
    ensures Call(c, With(Empty(items), k, Running(CreateMount("t"))), k)
         == With(Strayed(c, k), k, Running(CompareStatus(ReadyStatus(c, k))))
  {
    hide Serves, FirstMatch, MountName, Remote, ReadyStatus;
    var l := Running(CreateMount("t"));
    var l' := CallLocal(c, k, l, With(Empty(items), k, l));
    assert l' == Running(CompareStatus(ReadyStatus(c, k)));
    WithAgain(Empty(items), k, l, l');
  }

  lemma ReachesOrphan(c: Config, k: Key) returns (l: Local)
    requires k.ns != "" && !c.pinned
    ensures Reaches(c, With(Empty([]), k, NEW), With(Strayed(c, k), k, l)) && l.server.obj.None?
  {
    hide Reaches, MountName, Remote;
    ReachesForeignMount(c, k);
    var s, w := With(Empty([]), k, NEW), Strayed(c, k);
    var l0 := Running(CompareStatus(ReadyStatus(c, k)));
    l := Put(l0, Slot(3, Object(true, true)));
    Happens(c, s, w, k, l0, l, DeleteObject(k));
    Happens(c, s, w, k, l, l.(pc := Returned(false)), Stop(k));
    l := l.(pc := Returned(false));
    var l' := l.(cache := l.server, news := []);
    assert l.news[1] == l.server && l.news[2..] == [];
    Happens(c, s, w, k, l, l', SyncObject(k, 1));
    l := ReachesRelease(c, s, w, k, l');
  }

  /** No workspace is listed for the object's cluster, so its finalizer is taken off at once. */
  lemma ReachesRelease(c: Config, s: State, w: State, k: Key, l0: Local) returns (l: Local)
    requires l0.server == l0.cache == Slot(3, Object(true, true)) && l0.pc.Returned? && k.ns != ""
    requires w == Strayed(c, k) && Reaches(c, s, With(w, k, l0))
    ensures Reaches(c, s, With(w, k, l)) && l.server.obj.None?
  {
    hide Reaches, MountName, Remote, ReadyStatus;
    assert |"not " + k.ns| > |k.ns| && FirstMatch(w.consumers[1..], k.ns) == None;
    assert FirstMatch(w.consumers, k.ns) == None;
    hide FirstMatch;
    Calls(c, s, w, k, l0, l0.(pc := ListForDelete(l0.cache)));
    Calls(c, s, w, k, l0.(pc := ListForDelete(l0.cache)), l0.(pc := RemoveFinalizer(l0.cache)));
    l := Put(l0, Slot(4, None)).(pc := Returned(true));
    Calls(c, s, w, k, l0.(pc := RemoveFinalizer(l0.cache)), l);
  }

  /** Mounts are never orphaned in any run exactly when no workspace name is given to a second cluster. */
  lemma NoOrphansExactlyWhenPinned(c: Config)
    ensures c.pinned <==> forall s, t :: Init(s) && Reaches(c, s, t) ==> NoOrphans(t)
  {
    if c.pinned {
      forall s, t | Init(s) && Reaches(c, s, t) ensures NoOrphans(t) {
        var acts :| Valid(c, s, acts) && Run(c, s, acts) == t;
        NoOrphanedMount(c, s, acts);
      }
    } else {
      var k := Key("tenant", "object");
      var l := ReachesOrphan(c, k);
      var t := With(Strayed(c, k), k, l);
      assert Place("t", MountName(c, k)) in t.mounts;
      assert Init(With(Empty([]), k, NEW)) && !NoOrphans(t);
    }
  }
}
