/** One sync of the Headlamp kubeconfig: what it computes, and the loops that compute it. */
module Headlamp {
  import opened Basics
  import opened Text

  datatype Cluster = Cluster(server: string, insecure: bool, ca: string)

  datatype AuthInfo = AuthInfo(token: string, certData: string, keyData: string, certFile: string, keyFile: string)

  datatype Context = Context(cluster: string, user: string, ns: string)

  /** current stands for everything in the file that a sync carries over as it is. */
  datatype Kubeconfig = Kubeconfig(clusters: map<string, Cluster>, users: map<string, AuthInfo>,
                                   contexts: map<string, Context>, current: string)

  const EMPTY := Kubeconfig(map[], map[], map[], "")

  /** The bytes of the Secret, as far as the kubeconfig loader can tell. */
  datatype Raw = Missing | Garbage | Parsed(cfg: Kubeconfig)

  function Load(raw: Raw): Kubeconfig {
    if raw.Parsed? then raw.cfg else EMPTY
  }

  /** mark is the scoped-credentials annotation. */
  datatype Workspace = Workspace(name: string, deleting: bool, mark: Option<string>)

  datatype Admin = Admin(insecure: bool, ca: string, bearer: string, certData: string, keyData: string,
                         certFile: string, keyFile: string)

  datatype Settings = Settings(consumers: string, admin: Admin)

  /** What a sync is asked for and what it reads besides the Secret; tokens holds the readable ones. */
  datatype Inputs = Inputs(listing: seq<Workspace>, wsName: string, add: bool, got: Option<Workspace>,
                           tokens: map<string, string>)

  /******* Entries *******/

  function ManagedPrefix(st: Settings): string {
    "/clusters/" + st.consumers + ":"
  }

  predicate Managed(st: Settings, cluster: Cluster) {
    Contains(cluster.server, ManagedPrefix(st))
  }

  function FreshCluster(st: Settings, name: string): Cluster {
    Cluster("https://kcp-front-proxy.kcp.svc.cluster.local:8443" + ManagedPrefix(st) + name,
            st.admin.insecure, if st.admin.insecure then "" else st.admin.ca)
  }

  function AdminAuth(a: Admin): AuthInfo {
    if a.bearer != "" then AuthInfo(a.bearer, "", "", "", "")
    else if a.certData != "" then AuthInfo("", a.certData, a.keyData, "", "")
    else AuthInfo("", "", "", a.certFile, a.keyFile)
  }

  /** The credentials for a workspace, or nothing when its token cannot be read. */
  function Credentials(st: Settings, tokens: map<string, string>, name: string, ws: Workspace): Option<AuthInfo> {
    if ws.mark != Some("true") then Some(AdminAuth(st.admin))
    else if name in tokens then Some(AuthInfo(tokens[name], "", "", "", ""))
    else None
  }

  /******* The workspaces a sync is about *******/

  function Listed(listing: seq<Workspace>): map<string, Workspace> {
    if listing == [] then map[]
    else
      var last := listing[|listing| - 1];
      var before := Listed(listing[..|listing| - 1]);
      if last.deleting then before else before[last.name := last]
  }

  function Desired(x: Inputs): map<string, Workspace> {
    var listed := Listed(x.listing);
    if x.wsName == "" then listed
    else if !x.add then listed - {x.wsName}
    else if x.got.Some? && !x.got.value.deleting then listed[x.wsName := x.got.value]
    else listed
  }

  /******* What becomes of each name *******/

  datatype Fate = Refreshed(auth: AuthInfo) | Removed | Kept

  function FateOf(st: Settings, cfg: Kubeconfig, x: Inputs, n: string): Fate {
    if n in Desired(x) && Credentials(st, x.tokens, n, Desired(x)[n]).Some? then
      Refreshed(Credentials(st, x.tokens, n, Desired(x)[n]).value)
    else if n in cfg.clusters && Managed(st, cfg.clusters[n]) && n !in Listed(x.listing) then Removed
    else Kept
  }

  /** The three entries of a name. */
  datatype Entry = Entry(cluster: Option<Cluster>, user: Option<AuthInfo>, context: Option<Context>)

  function Get<T>(m: map<string, T>, n: string): Option<T> {
    if n in m then Some(m[n]) else None
  }

  function EntryOf(cfg: Kubeconfig, n: string): Entry {
    Entry(Get(cfg.clusters, n), Get(cfg.users, n), Get(cfg.contexts, n))
  }

  function FreshEntry(st: Settings, n: string, auth: AuthInfo): Entry {
    Entry(Some(FreshCluster(st, n)), Some(auth), Some(Context(n, n, "")))
  }

  function EntryAfter(st: Settings, cfg: Kubeconfig, x: Inputs, n: string): Entry {
    match FateOf(st, cfg, x, n)
    case Refreshed(auth) => FreshEntry(st, n, auth)
    case Removed => Entry(None, None, None)
    case Kept => EntryOf(cfg, n)
  }

  /** The whole file after a sync, name by name; no order of iteration is involved. */
  function Synced(st: Settings, cfg: Kubeconfig, x: Inputs): Kubeconfig {
    var names := cfg.clusters.Keys + cfg.users.Keys + cfg.contexts.Keys + Desired(x).Keys;
    Kubeconfig(
      map n | n in names && EntryAfter(st, cfg, x, n).cluster.Some? :: EntryAfter(st, cfg, x, n).cluster.value,
      map n | n in names && EntryAfter(st, cfg, x, n).user.Some? :: EntryAfter(st, cfg, x, n).user.value,
      map n | n in names && EntryAfter(st, cfg, x, n).context.Some? :: EntryAfter(st, cfg, x, n).context.value,
      cfg.current)
  }

  lemma SyncedEntry(st: Settings, cfg: Kubeconfig, x: Inputs, n: string)
    ensures EntryOf(Synced(st, cfg, x), n) == EntryAfter(st, cfg, x, n)
  {
  }

  lemma ByCases(st: Settings, cfg: Kubeconfig, x: Inputs, n: string)
    ensures EntryAfter(st, cfg, x, n) ==
            if n in Desired(x) && Credentials(st, x.tokens, n, Desired(x)[n]).Some? then
              FreshEntry(st, n, Credentials(st, x.tokens, n, Desired(x)[n]).value)
            else if n in cfg.clusters && Managed(st, cfg.clusters[n]) && n !in Listed(x.listing) then
              Entry(None, None, None)
            else EntryOf(cfg, n)
  {
  }

  lemma SameEntries(a: Kubeconfig, b: Kubeconfig)
    requires a.current == b.current && forall n :: EntryOf(a, n) == EntryOf(b, n)
    ensures a == b
  {
    forall n ensures n in a.clusters <==> n in b.clusters
      ensures n in a.users <==> n in b.users
      ensures n in a.contexts <==> n in b.contexts
      ensures n in a.clusters ==> a.clusters[n] == b.clusters[n]
      ensures n in a.users ==> a.users[n] == b.users[n]
      ensures n in a.contexts ==> a.contexts[n] == b.contexts[n]
    {
      assert EntryOf(a, n) == EntryOf(b, n);
    }
    assert a.clusters == b.clusters && a.users == b.users && a.contexts == b.contexts;
  }

  lemma FreshIsManaged(st: Settings, n: string)
    ensures Managed(st, FreshCluster(st, n))
    ensures FreshCluster(st, n).insecure ==> FreshCluster(st, n).ca == ""   // clients refuse both together
  {
    var front := "https://kcp-front-proxy.kcp.svc.cluster.local:8443";
    var server := FreshCluster(st, n).server;
    assert OccursAt(server, ManagedPrefix(st), |front|);
  }

  function Without(cfg: Kubeconfig, gone: set<string>): Kubeconfig {
    Kubeconfig(cfg.clusters - gone, cfg.users - gone, cfg.contexts - gone, cfg.current)
  }

  lemma WithoutNone(cfg: Kubeconfig)
    ensures Without(cfg, {}) == cfg
  {
  }

  lemma WithoutOneMore(cfg: Kubeconfig, gone: set<string>, name: string)
    ensures Without(Without(cfg, gone), {name}) == Without(cfg, gone + {name})
  {
    assert cfg.clusters - gone - {name} == cfg.clusters - (gone + {name});
    assert cfg.users - gone - {name} == cfg.users - (gone + {name});
    assert cfg.contexts - gone - {name} == cfg.contexts - (gone + {name});
  }

  lemma WithoutEntry(cfg: Kubeconfig, gone: set<string>, n: string)
    ensures EntryOf(Without(cfg, gone), n) == if n in gone then Entry(None, None, None) else EntryOf(cfg, n)
  {
  }

  /******* The loops *******/

  /** The file while a sync works on it; its three maps are changed in place. */
  class Config {
    var clusters: map<string, Cluster>
    var users: map<string, AuthInfo>
    var contexts: map<string, Context>
    const current: string

    constructor (cfg: Kubeconfig)
      ensures View() == cfg
    {
      clusters, users, contexts, current := cfg.clusters, cfg.users, cfg.contexts, cfg.current;
    }

    function View(): Kubeconfig
      reads this
    {
      Kubeconfig(clusters, users, contexts, current)
    }

    /** Takes a name out of all three maps. */
    method Drop(name: string)
      modifies this
      ensures View() == Without(old(View()), {name}) && clusters == old(clusters) - {name}
    {
      clusters, users, contexts := clusters - {name}, users - {name}, contexts - {name};
    }

    /** Visits the cluster entries in any order. */
    method RemoveStale(st: Settings, desired: map<string, Workspace>)
      modifies this
      ensures forall n :: EntryOf(View(), n) ==
                if n in old(clusters) && Managed(st, old(clusters)[n]) && n !in desired then Entry(None, None, None)
                else old(EntryOf(View(), n))
    {
      hide Managed, Without;
      var todo := clusters.Keys;
      ghost var gone: set<string> := {};
      WithoutNone(View());
      while todo != {}
        invariant View() == Without(old(View()), gone)
        invariant forall n :: n in todo ==> n in clusters && n in old(clusters) && clusters[n] == old(clusters)[n]
        invariant forall n :: n in gone <==>
                    n in old(clusters) && n !in todo && Managed(st, old(clusters)[n]) && n !in desired
        decreases |todo|
      {
        var name :| name in todo;
        todo := todo - {name};
        if Managed(st, clusters[name]) && name !in desired {
          WithoutOneMore(old(View()), gone, name);
          Drop(name);
          gone := gone + {name};
        }
      }
      forall n ensures EntryOf(View(), n) == if n in gone then Entry(None, None, None) else old(EntryOf(View(), n)) {
        WithoutEntry(old(View()), gone, n);
      }
    }

    /** Gives a name its three entries. */
    method Put(st: Settings, name: string, auth: AuthInfo)
      modifies this
      ensures EntryOf(View(), name) == FreshEntry(st, name, auth)
      ensures forall n :: n != name ==> EntryOf(View(), n) == old(EntryOf(View(), n))
    {
      clusters := clusters[name := FreshCluster(st, name)];
      users := users[name := auth];
      contexts := contexts[name := Context(name, name, "")];
    }

    /** Visits the wanted workspaces in any order and skips those whose token cannot be read. */
    method Refresh(st: Settings, desired: map<string, Workspace>, tokens: map<string, string>)
      modifies this
      ensures forall n :: EntryOf(View(), n) ==
                if n in desired && Credentials(st, tokens, n, desired[n]).Some? then
                  FreshEntry(st, n, Credentials(st, tokens, n, desired[n]).value)
                else old(EntryOf(View(), n))
    {
      hide Credentials, FreshEntry, EntryOf;
      var todo := desired.Keys;
      while todo != {}
        invariant todo <= desired.Keys
        invariant forall n :: EntryOf(View(), n) ==
                    if n in desired && n !in todo && Credentials(st, tokens, n, desired[n]).Some? then
                      FreshEntry(st, n, Credentials(st, tokens, n, desired[n]).value)
                    else old(EntryOf(View(), n))
        decreases |todo|
      {
        var name :| name in todo;
        todo := todo - {name};
        var auth := Credentials(st, tokens, name, desired[name]);
        if auth.None? { continue; }
        Put(st, name, auth.value);
      }
    }
  }

  method ListedWorkspaces(listing: seq<Workspace>) returns (desired: map<string, Workspace>)
    ensures desired == Listed(listing)
  {
    desired := map[];
    for i := 0 to |listing|
      invariant desired == Listed(listing[..i])
    {
      assert listing[..i + 1][..i] == listing[..i];
      if !listing[i].deleting {
        desired := desired[listing[i].name := listing[i]];
      }
    }
    assert listing[..|listing|] == listing;
  }

  /** What a sync makes of the content it has read. */
  method Recomputed(st: Settings, raw: Raw, x: Inputs) returns (next: Kubeconfig)
    ensures next == Synced(st, Load(raw), x)
  {
    var cfg := new Config(Load(raw));
    var desired := ListedWorkspaces(x.listing);
    cfg.RemoveStale(st, desired);
    if x.add && x.wsName != "" {
      if x.got.Some? && !x.got.value.deleting {
        desired := desired[x.wsName := x.got.value];
      }
    } else if x.wsName != "" {
      desired := desired - {x.wsName};
    }
    assert desired == Desired(x);
    cfg.Refresh(st, desired, x.tokens);
    next := cfg.View();
    hide Synced, Desired, Listed, Managed, EntryOf, EntryAfter, Credentials, FreshEntry;
    forall n ensures EntryOf(next, n) == EntryOf(Synced(st, Load(raw), x), n) {
      SyncedEntry(st, Load(raw), x, n);
      ByCases(st, Load(raw), x, n);
    }
    SameEntries(next, Synced(st, Load(raw), x));
  }
}
