/**
 * The Kubernetes mount controller as a state machine. Every API call of a reconcile is one atomic
 * step; between any two steps other reconciles, tenants and the cluster may act, any call may fail,
 * and the process may stop.
 */
module MountProtocol {
  import opened Basics
  import opened MountNames
  import opened Taints

  /******* What the controller is configured with and what never changes *******/

  /** A Kubernetes object on the physical cluster; the namespace is the tenant's cluster ID. */
  datatype Key = Key(ns: string, name: string)

  /** Where the tenant sees the object. */
  datatype Ref = Ref(name: string, ns: string)

  /**
   * annotations: the sync agent's coordinates (an empty field is a missing annotation).
   * clusterOf: the cluster ID a consumer workspace name stands for.
   * pinned: whether a workspace name is never given to another cluster.
   */
  datatype Config = Config(annotations: map<Key, Ref>, digest: string -> Digest, proxyBase: string,
                           clusterOf: map<string, string>, pinned: bool)

  function Remote(c: Config, k: Key): Ref {
    var found := if k in c.annotations then c.annotations[k] else Ref("", "");
    Ref(FirstNonEmpty(found.name, k.name), FirstNonEmpty(found.ns, "default"))
  }

  function MountName(c: Config, k: Key): string {
    DeriveMountedWorkspaceName(c.digest, Remote(c, k).name, Remote(c, k).ns)
  }

  function MountURL(c: Config, k: Key): string {
    TrimSuffix(c.proxyBase, "/") + "/mounts/" + k.ns + "/" + k.name
  }

  /**
   * The reference to the tenant's object, said outright: each coordinate is the sync agent's if it has left one, and
   * else the object's own name or "default".
   */
  predicate IsReference(c: Config, k: Key, ref: Ref) {
    && ref.name == (if k in c.annotations && c.annotations[k].name != "" then c.annotations[k].name else k.name)
    && ref.ns == (if k in c.annotations && c.annotations[k].ns != "" then c.annotations[k].ns else "default")
  }

  /** The name of the mount, said outright: the tenant's name, with a digest outside the default namespace. */
  predicate IsMountName(c: Config, k: Key, name: string) {
    var n := if k in c.annotations && c.annotations[k].name != "" then c.annotations[k].name else k.name;
    var ns := if k in c.annotations && c.annotations[k].ns != "" then c.annotations[k].ns else "default";
    name == if ns == "default" then n else n + "-" + c.digest(ns + "/" + n)
  }

  /** The published URL, said outright: below the base URL without its slash. */
  predicate IsMountURL(c: Config, k: Key, url: string) {
    var base := c.proxyBase;
    var front := if base != "" && base[|base| - 1] == '/' then base[..|base| - 1] else base;
    url == front + "/mounts/" + k.ns + "/" + k.name
  }

  lemma NamesAgree(c: Config, k: Key)
    ensures forall ref :: IsReference(c, k, ref) <==> ref == Remote(c, k)
    ensures forall name :: IsMountName(c, k, name) <==> name == MountName(c, k)
    ensures forall url :: IsMountURL(c, k, url) <==> url == MountURL(c, k)
  {
  }

  /******* State *******/

  datatype Obj = Obj(deleting: bool, ours: bool, others: bool, allow: Option<bool>)

  /** One version of an object: its resource version, and nothing when the object does not exist. */
  datatype Slot = Slot(rv: nat, obj: Option<Obj>)

  datatype Status = Status(phase: string, ready: bool, url: string, mount: string)

  datatype Cluster = Cluster(available: bool, phase: string, annotation: Option<Status>)

  /** Where the reconcile of one object stands: the API call it makes next, with its local variables. */
  datatype Pc =
    | Returned(ok: bool)
    | AddFinalizer(snap: Slot)
    | GetCluster(allow: bool)
    | GetSecret(allow: bool, up: bool, phase: string)
    | ApplyCalico(allow: bool, up: bool, phase: string)
    | ListNodes(allow: bool, up: bool, phase: string)
    | UpdateNode(allow: bool, up: bool, phase: string, listed: seq<seq<Taint>>, i: nat)
    | ListForEnsure
    | GetMount(ws: string)
    | CreateMount(ws: string)
    | CompareStatus(st: Status)
    | PatchStatus(st: Status)
    | ListForDelete(snap: Slot)
    | DeleteMount(snap: Slot, ws: string)
    | RemoveFinalizer(snap: Slot)

  /**
   * Everything that concerns one object. The caches are the controller's own, lagging copies; news and clusterNews are
   * the later versions, in order, that the informer has still to see.
   */
  datatype Local = Local(server: Slot, cache: Slot, news: seq<Slot>,
                         cluster: Option<Cluster>, clusterCache: Option<Cluster>, clusterNews: seq<Option<Cluster>>,
                         secret: bool, nodes: seq<seq<Taint>>, pc: Pc)

  /** The server stores a new version of the object. */
  function Put(l: Local, slot: Slot): Local {
    l.(server := slot, news := l.news + [slot])
  }

  function PutCluster(l: Local, cluster: Option<Cluster>): Local {
    l.(cluster := cluster, clusterNews := l.clusterNews + [cluster])
  }

  /** A consumer workspace as listed. */
  datatype Item = Item(name: string, cluster: string, annotation: string)

  datatype Place = Place(ws: string, name: string)

  /** A child workspace; creator is the object the controller created it for, if it did. */
  datatype Mount = Mount(ref: Option<Ref>, creator: Option<Key>)

  /**
   * meddled records the places where somebody else has created or removed a child workspace since a reconcile
   * last found or made its own there; no step depends on it.
   */
  datatype State = State(local: map<Key, Local>, consumers: seq<Item>,
                         mounts: map<Place, Mount>, meddled: set<Place>)

  function ItemId(i: Item): string {
    FirstNonEmpty(i.cluster, i.annotation)
  }

  /** The first listed consumer workspace with the cluster ID in either of the two fields. */
  function FirstMatch(items: seq<Item>, id: string): Option<string> {
    if items == [] then None
    else if items[0].cluster == id || items[0].annotation == id then Some(items[0].name)
    else FirstMatch(items[1..], id)
  }

  /** Only a workspace that was given a cluster can be reached. */
  predicate Serves(items: seq<Item>, ws: string) {
    exists i :: 0 <= i < |items| && items[i].name == ws && ItemId(items[i]) != ""
  }

  /******* One API call of a reconcile, when it does not fail *******/

  function AfterNodes(c: Config, k: Key, up: bool, phase: string): Pc {
    if up then ListForEnsure else CompareStatus(Status(phase, false, "", MountName(c, k)))
  }

  function ReadyStatus(c: Config, k: Key): Status {
    Status("Ready", true, MountURL(c, k), MountName(c, k))
  }

  function Allows(o: Obj): bool {
    if o.allow.Some? then o.allow.value else true
  }

  function Begin(cache: Slot): Pc {
    match cache.obj
    case None => Returned(true)
    case Some(o) =>
      if o.deleting then (if o.ours then ListForDelete(cache) else Returned(true))
      else if o.ours then GetCluster(Allows(o))
      else AddFinalizer(cache)
  }

  /** The server drops an object that is being deleted once nobody holds it. */
  function Settle(rv: nat, o: Obj): Slot {
    if o.deleting && !o.ours && !o.others then Slot(rv, None) else Slot(rv, Some(o))
  }

  function ClusterPhase(cluster: Option<Cluster>): (bool, string) {
    match cluster
    case None => (false, "Initializing")
    case Some(cl) =>
      if cl.available then (true, "Ready")
      else if cl.phase != "" then (false, "Connecting")
      else (false, "Initializing")
  }

  /** Calls that touch only the state of this object and the consumer listing. */
  function CallLocal(c: Config, k: Key, l: Local, s: State): Local {
    match l.pc
    case Returned(_) => l.(pc := Begin(l.cache))
    case AddFinalizer(snap) =>
      if snap.rv == l.server.rv && snap.obj.Some? then
        Put(l, Slot(snap.rv + 1, Some(snap.obj.value.(ours := true)))).(pc := GetCluster(Allows(snap.obj.value)))
      else l.(pc := Returned(false))
    case GetCluster(allow) =>
      var (up, phase) := ClusterPhase(l.clusterCache);
      l.(pc := GetSecret(allow, up, phase))
    case GetSecret(allow, up, phase) =>
      l.(pc := if l.secret then ApplyCalico(allow, up, phase)
               else AfterNodes(c, k, false, if up then "Connecting" else phase))
    case ApplyCalico(allow, up, phase) =>
      l.(pc := if l.secret then ListNodes(allow, up, phase) else Returned(false))
    case ListNodes(allow, up, phase) =>
      l.(pc := if l.secret then UpdateNode(allow, up, phase, l.nodes, 0) else Returned(false))
    case UpdateNode(allow, up, phase, listed, i) =>
      if i >= |listed| then l.(pc := AfterNodes(c, k, up, phase))
      else if Desired(listed[i], allow) == listed[i] then l.(pc := UpdateNode(allow, up, phase, listed, i + 1))
      else if i < |l.nodes| && l.nodes[i] == listed[i] then
        l.(nodes := l.nodes[i := Desired(listed[i], allow)], pc := UpdateNode(allow, up, phase, listed, i + 1))
      else l.(pc := Returned(false))
    case ListForEnsure =>
      l.(pc := match FirstMatch(s.consumers, k.ns) case None => Returned(false) case Some(ws) => GetMount(ws))
    case GetMount(ws) =>
      var p := Place(ws, MountName(c, k));
      l.(pc := if p !in s.mounts then CreateMount(ws)
               else if s.mounts[p].ref == Some(Remote(c, k)) then CompareStatus(ReadyStatus(c, k))
               else Returned(false))
    case CreateMount(ws) =>
      l.(pc := if Serves(s.consumers, ws) then CompareStatus(ReadyStatus(c, k)) else Returned(false))
    case CompareStatus(st) =>
      l.(pc := match l.clusterCache
               case None => Returned(true)
               case Some(cl) => if cl.annotation == Some(st) then Returned(true) else PatchStatus(st))
    case PatchStatus(st) =>
      (match l.cluster
       case None => l.(pc := Returned(false))
       case Some(cl) => PutCluster(l, Some(cl.(annotation := Some(st)))).(pc := Returned(true)))
    case ListForDelete(snap) =>
      l.(pc := match FirstMatch(s.consumers, k.ns)
               case None => RemoveFinalizer(snap)
               case Some(ws) => DeleteMount(snap, ws))
    case DeleteMount(snap, ws) => l.(pc := RemoveFinalizer(snap))
    case RemoveFinalizer(snap) =>
      if snap.rv == l.server.rv && snap.obj.Some? then
        Put(l, Settle(snap.rv + 1, snap.obj.value.(ours := false))).(pc := Returned(true))
      else l.(pc := Returned(false))
  }

  /** What a call asks of the servers, with its arguments. */
  datatype Request =
    | NoRequest
    | ReadObject
    | WriteObject(rv: nat, obj: Obj)
    | ReadCluster
    | ReadSecret
    | ApplyManifest
    | ReadNodes
    | WriteNode(i: nat, was: seq<Taint>, taints: seq<Taint>)
    | ListWorkspaces
    | ReadWorkspace(p: Place)
    | CreateWorkspace(p: Place, ref: Ref)
    | PatchAnnotation(st: Status)
    | DeleteWorkspace(p: Place)

  function RequestOf(c: Config, k: Key, pc: Pc): Request {
    match pc
    case Returned(_) => ReadObject
    case AddFinalizer(snap) =>
      if snap.obj.Some? then WriteObject(snap.rv, snap.obj.value.(ours := true)) else NoRequest
    case GetCluster(_) => ReadCluster
    case GetSecret(_, _, _) => ReadSecret
    case ApplyCalico(_, _, _) => ApplyManifest
    case ListNodes(_, _, _) => ReadNodes
    case UpdateNode(allow, _, _, listed, i) =>
      if i < |listed| && Desired(listed[i], allow) != listed[i] then WriteNode(i, listed[i], Desired(listed[i], allow))
      else NoRequest
    case ListForEnsure => ListWorkspaces
    case GetMount(ws) => ReadWorkspace(Place(ws, MountName(c, k)))
    case CreateMount(ws) => CreateWorkspace(Place(ws, MountName(c, k)), Remote(c, k))
    case CompareStatus(_) => ReadCluster
    case PatchStatus(st) => PatchAnnotation(st)
    case ListForDelete(_) => ListWorkspaces
    case DeleteMount(_, ws) => DeleteWorkspace(Place(ws, MountName(c, k)))
    case RemoveFinalizer(snap) =>
      if snap.obj.Some? then WriteObject(snap.rv, snap.obj.value.(ours := false)) else NoRequest
  }

  /** Everything but the manifest of the network plugin, which is applied in every reconcile. */
  predicate IsWrite(r: Request) {
    r.WriteObject? || r.WriteNode? || r.CreateWorkspace? || r.PatchAnnotation? || r.DeleteWorkspace?
  }

  /** What the call does to the child workspaces. */
  function CallMounts(c: Config, k: Key, l: Local, s: State): map<Place, Mount> {
    match RequestOf(c, k, l.pc)
    case CreateWorkspace(p, ref) =>
      if Serves(s.consumers, p.ws) && p !in s.mounts then s.mounts[p := Mount(Some(ref), Some(k))] else s.mounts
    case DeleteWorkspace(p) => s.mounts - {p}
    case _ => s.mounts
  }

  function CallMeddled(c: Config, k: Key, l: Local, s: State): set<Place> {
    match RequestOf(c, k, l.pc)
    case ReadWorkspace(p) =>
      if p in s.mounts && s.mounts[p].ref == Some(Remote(c, k)) then s.meddled - {p} else s.meddled
    case CreateWorkspace(p, _) => if Serves(s.consumers, p.ws) && p !in s.mounts then s.meddled - {p} else s.meddled
    case _ => s.meddled
  }

  function Call(c: Config, s: State, k: Key): State
    requires k in s.local
  {
    var l := s.local[k];
    s.(local := s.local[k := CallLocal(c, k, l, s)], mounts := CallMounts(c, k, l, s),
       meddled := CallMeddled(c, k, l, s))
  }

  /******* Everything that can happen *******/

  datatype Action =
    | Work(k: Key)                                              // the reconcile of k makes its next call
    | Stop(k: Key)                                              // the call fails, or the process dies
    | CreateObject(k: Key, others: bool, allow: Option<bool>)
    | UpdateObject(k: Key, others: bool, allow: Option<bool>)
    | DeleteObject(k: Key)
    | SyncObject(k: Key, n: nat)                                // the informer moves on, n versions further at once
    | SyncCluster(k: Key, n: nat)
    | SetCluster(k: Key, available: bool, phase: string)
    | DropCluster(k: Key)
    | SetSecret(k: Key, present: bool)
    | SetNodes(k: Key, nodes: seq<seq<Taint>>)
    | SetConsumers(items: seq<Item>)
    | OutsiderPut(p: Place, ref: Option<Ref>)
    | OutsiderDelete(p: Place)

  predicate Listable(c: Config, items: seq<Item>) {
    && (forall i :: 0 <= i < |items| ==>
          && (items[i].cluster == "" || items[i].annotation == "" || items[i].cluster == items[i].annotation)
          && (c.pinned && ItemId(items[i]) != "" ==>
                items[i].name in c.clusterOf && c.clusterOf[items[i].name] == ItemId(items[i])))
    && (forall i, j :: 0 <= i < j < |items| ==>
          items[i].name != items[j].name && (ItemId(items[i]) != "" ==> ItemId(items[i]) != ItemId(items[j])))
  }

  /** A workspace that stays in the listing keeps the cluster ID it was given. */
  predicate KeepsIds(was: seq<Item>, now: seq<Item>) {
    forall i, j :: 0 <= i < |was| && 0 <= j < |now| && was[i].name == now[j].name && ItemId(was[i]) != "" ==>
      ItemId(now[j]) == ItemId(was[i])
  }

  predicate Enabled(c: Config, s: State, a: Action) {
    match a
    case Work(k) => k in s.local
    case Stop(k) => k in s.local
    case CreateObject(k, _, _) => k in s.local && s.local[k].server.obj.None? && s.local[k].cluster.None?
    case UpdateObject(k, others, _) =>
      k in s.local && s.local[k].server.obj.Some? &&
      (s.local[k].server.obj.value.deleting && others ==> s.local[k].server.obj.value.others)
    case DeleteObject(k) =>
      k in s.local && s.local[k].server.obj.Some? && !s.local[k].server.obj.value.deleting
    case SyncObject(k, n) => k in s.local && n < |s.local[k].news|
    case SyncCluster(k, n) => k in s.local && n < |s.local[k].clusterNews|
    case SetCluster(k, _, _) => k in s.local
    case DropCluster(k) => k in s.local
    case SetSecret(k, _) => k in s.local
    case SetNodes(k, _) => k in s.local
    case SetConsumers(items) => Listable(c, items) && KeepsIds(s.consumers, items)
    case OutsiderPut(p, _) => p !in s.mounts && Serves(s.consumers, p.ws)
    case OutsiderDelete(p) => p in s.mounts
  }

  function With(s: State, k: Key, l: Local): State {
    s.(local := s.local[k := l])
  }

  function Apply(c: Config, s: State, a: Action): (t: State)
    requires Enabled(c, s, a)
    ensures t.local.Keys == s.local.Keys
  {
    match a
    case Work(k) => Call(c, s, k)
    case Stop(k) => With(s, k, s.local[k].(pc := Returned(false)))
    case CreateObject(k, others, allow) =>
      var l := s.local[k];
      With(s, k, Put(l, Slot(l.server.rv + 1, Some(Obj(false, false, others, allow)))))
    case UpdateObject(k, others, allow) =>
      var l := s.local[k];
      With(s, k, Put(l, Settle(l.server.rv + 1, l.server.obj.value.(others := others, allow := allow))))
    case DeleteObject(k) =>
      var l := s.local[k];
      With(s, k, Put(l, Settle(l.server.rv + 1, l.server.obj.value.(deleting := true))))
    case SyncObject(k, n) =>
      var l := s.local[k];
      With(s, k, l.(cache := l.news[n], news := l.news[n + 1..]))
    case SyncCluster(k, n) =>
      var l := s.local[k];
      With(s, k, l.(clusterCache := l.clusterNews[n], clusterNews := l.clusterNews[n + 1..]))
    case SetCluster(k, available, phase) =>
      var l := s.local[k];
      var annotation := if l.cluster.Some? then l.cluster.value.annotation else None;
      With(s, k, PutCluster(l, Some(Cluster(available, phase, annotation))))
    case DropCluster(k) => With(s, k, PutCluster(s.local[k], None))
    case SetSecret(k, present) => With(s, k, s.local[k].(secret := present))
    case SetNodes(k, nodes) => With(s, k, s.local[k].(nodes := nodes))
    case SetConsumers(items) =>
      s.(consumers := items,
         mounts := map p | p in s.mounts && Serves(items, p.ws) :: s.mounts[p],
         meddled := s.meddled + set p | p in s.mounts && !Serves(items, p.ws))
    case OutsiderPut(p, ref) => s.(mounts := s.mounts[p := Mount(ref, None)], meddled := s.meddled + {p})
    case OutsiderDelete(p) => s.(mounts := s.mounts - {p}, meddled := s.meddled + {p})
  }

  predicate Fresh(l: Local) {
    && l.server == l.cache == Slot(0, None) && l.cluster == l.clusterCache == None
    && l.news == [] && l.clusterNews == [] && l.pc.Returned?
  }

  predicate Init(s: State) {
    && (forall k :: k in s.local ==> k.ns != "" && Fresh(s.local[k]))
    && s.consumers == [] && s.mounts == map[] && s.meddled == {}
  }

  predicate Valid(c: Config, s: State, acts: seq<Action>)
    decreases |acts|
  {
    acts != [] ==> Enabled(c, s, acts[0]) && Valid(c, Apply(c, s, acts[0]), acts[1..])
  }

  function Run(c: Config, s: State, acts: seq<Action>): State
    requires Valid(c, s, acts)
    decreases |acts|
  {
    if acts == [] then s else Run(c, Apply(c, s, acts[0]), acts[1..])
  }

  /** t can come after s, through any interleaving of steps. */
  ghost predicate Reaches(c: Config, s: State, t: State) {
    exists acts :: Valid(c, s, acts) && Run(c, s, acts) == t
  }

  lemma {:induction false} RunAppend(c: Config, s: State, acts: seq<Action>, a: Action)
    requires Valid(c, s, acts) && Enabled(c, Run(c, s, acts), a)
    ensures Valid(c, s, acts + [a]) && Run(c, s, acts + [a]) == Apply(c, Run(c, s, acts), a)
    decreases |acts|
  {
    if acts == [] {
      assert acts + [a] == [a];
      assert Run(c, Apply(c, s, a), []) == Apply(c, s, a);
    } else {
      RunAppend(c, Apply(c, s, acts[0]), acts[1..], a);
      assert (acts + [a])[1..] == acts[1..] + [a];
    }
  }

  lemma ReachesSelf(c: Config, s: State)
    ensures Reaches(c, s, s)
  {
    assert Valid(c, s, []) && Run(c, s, []) == s;
  }

  lemma ReachesStep(c: Config, s: State, t: State, a: Action)
    requires Reaches(c, s, t) && Enabled(c, t, a)
    ensures Reaches(c, s, Apply(c, t, a))
  {
    var acts :| Valid(c, s, acts) && Run(c, s, acts) == t;
    RunAppend(c, s, acts, a);
  }

  lemma ReachesCall(c: Config, s: State, t: State, k: Key)
    requires Reaches(c, s, t) && k in t.local
    ensures Reaches(c, s, Call(c, t, k))
  {
    hide Reaches, Call;
    ReachesStep(c, s, t, Work(k));
  }
}
