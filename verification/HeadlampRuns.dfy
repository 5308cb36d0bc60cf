/** Many syncs of one Secret: what a single sync establishes for good, and what no interleaving can lose. */
module HeadlampRuns {
  import opened Basics
  import opened Headlamp
  import opened Text

  /******* Convergence *******/

  predicate Periodic(x: Inputs) {
    x.wsName == ""
  }

  predicate Readable(st: Settings, x: Inputs, n: string) {
    n in Desired(x) ==> Credentials(st, x.tokens, n, Desired(x)[n]).Some?
  }

  function ManagedNames(st: Settings, cfg: Kubeconfig): set<string> {
    set n | n in cfg.clusters && Managed(st, cfg.clusters[n])
  }

  /** A user of the name, and a context that points at exactly the cluster and the user of the name. */
  predicate AlignedAt(cfg: Kubeconfig, n: string) {
    n in cfg.users && n in cfg.contexts && cfg.contexts[n].cluster == n && cfg.contexts[n].user == n
  }

  predicate Aligned(st: Settings, cfg: Kubeconfig) {
    forall n :: n in ManagedNames(st, cfg) ==> AlignedAt(cfg, n)
  }

  predicate LiveIn(listing: seq<Workspace>, n: string) {
    exists i :: 0 <= i < |listing| && listing[i].name == n && !listing[i].deleting
  }

  lemma {:induction false} ListedIsLive(listing: seq<Workspace>, n: string)
    ensures n in Listed(listing) <==> LiveIn(listing, n)
  {
    if listing != [] {
      var k := |listing| - 1;
      var before := listing[..k];
      ListedIsLive(before, n);
      if LiveIn(before, n) {
        var i :| 0 <= i < |before| && before[i].name == n && !before[i].deleting;
        assert listing[i] == before[i];
      }
      if LiveIn(listing, n) {
        var i :| 0 <= i < |listing| && listing[i].name == n && !listing[i].deleting;
        assert i < k ==> before[i] == listing[i];
      }
    }
  }

  /******* What a sync leaves, said outright *******/

  /** The last entry of a name in the listing that is not terminating. */
  predicate LastLive(listing: seq<Workspace>, n: string, i: nat) {
    && i < |listing| && listing[i].name == n && !listing[i].deleting
    && forall j :: i < j < |listing| && listing[j].name == n ==> listing[j].deleting
  }

  /** A cluster whose server is below the path of the consumer workspaces. */
  predicate BelowConsumers(st: Settings, cfg: Kubeconfig, n: string) {
    n in cfg.clusters &&
    var server, path := cfg.clusters[n].server, "/clusters/" + st.consumers + ":";
    exists i :: 0 <= i <= |server| && OccursAt(server, path, i)
  }

  /** The user is the workspace's own token, or the administrator by the first kind of credential there is. */
  predicate UserFits(st: Settings, tokens: map<string, string>, w: Workspace, n: string, u: AuthInfo) {
    var admin := st.admin;
    if w.mark == Some("true") then
      n in tokens && u.token == tokens[n] && u.certData == u.keyData == u.certFile == u.keyFile == ""
    else if admin.bearer != "" then
      u.token == admin.bearer && u.certData == u.keyData == u.certFile == u.keyFile == ""
    else if admin.certData != "" then
      u.certData == admin.certData && u.keyData == admin.keyData && u.token == u.certFile == u.keyFile == ""
    else
      u.certFile == admin.certFile && u.keyFile == admin.keyFile && u.token == u.certData == u.keyData == ""
  }

  /** The three entries of a name lead to its workspace. */
  predicate LeadsTo(st: Settings, tokens: map<string, string>, w: Workspace, cfg: Kubeconfig, n: string) {
    && n in cfg.clusters && n in cfg.users && n in cfg.contexts
    && cfg.clusters[n].server
         == "https://kcp-front-proxy.kcp.svc.cluster.local:8443/clusters/" + st.consumers + ":" + n
    && cfg.clusters[n].insecure == st.admin.insecure
    && cfg.clusters[n].ca == (if st.admin.insecure then "" else st.admin.ca)
    && UserFits(st, tokens, w, n, cfg.users[n])
    && cfg.contexts[n].cluster == n && cfg.contexts[n].user == n && cfg.contexts[n].ns == ""
  }

  predicate SameAt(was: Kubeconfig, now: Kubeconfig, n: string) {
    && (n in now.clusters <==> n in was.clusters) && (n in now.clusters ==> now.clusters[n] == was.clusters[n])
    && (n in now.users <==> n in was.users) && (n in now.users ==> now.users[n] == was.users[n])
    && (n in now.contexts <==> n in was.contexts) && (n in now.contexts ==> now.contexts[n] == was.contexts[n])
  }

  predicate GoneAt(now: Kubeconfig, n: string) {
    n !in now.clusters && n !in now.users && n !in now.contexts
  }

  /** Not refreshed: a managed name that the listing does not have goes, any other name stays as it was. */
  predicate NotRefreshed(st: Settings, listing: seq<Workspace>, was: Kubeconfig, now: Kubeconfig, n: string) {
    if BelowConsumers(st, was, n) && !LiveIn(listing, n) then GoneAt(now, n) else SameAt(was, now, n)
  }

  /** What becomes of a name when its workspace is w: its token may be needed and not be readable. */
  predicate ByWorkspace(st: Settings, x: Inputs, was: Kubeconfig, now: Kubeconfig, n: string, w: Workspace) {
    if w.mark == Some("true") && n !in x.tokens then NotRefreshed(st, x.listing, was, now, n)
    else LeadsTo(st, x.tokens, w, now, n)
  }

  /**
   * A workspace that is added is refreshed by what was got for it, if that is live; one that is removed is not
   * refreshed; and every other name goes by its last live entry in the listing, if it has one.
   */
  predicate SyncedAt(st: Settings, x: Inputs, was: Kubeconfig, now: Kubeconfig, n: string) {
    if n == x.wsName != "" && x.add && x.got.Some? && !x.got.value.deleting then
      ByWorkspace(st, x, was, now, n, x.got.value)
    else if n == x.wsName != "" && !x.add then NotRefreshed(st, x.listing, was, now, n)
    else
      && (forall i :: 0 <= i < |x.listing| && LastLive(x.listing, n, i) ==>
            ByWorkspace(st, x, was, now, n, x.listing[i]))
      && (!LiveIn(x.listing, n) ==> NotRefreshed(st, x.listing, was, now, n))
  }

  lemma {:induction false} ListedLast(listing: seq<Workspace>, n: string, i: nat)
    requires LastLive(listing, n, i)
    ensures n in Listed(listing) && Listed(listing)[n] == listing[i]
  {
    var k := |listing| - 1;
    if i < k {
      assert LastLive(listing[..k], n, i);
      ListedLast(listing[..k], n, i);
    }
  }

  lemma FreshLeads(st: Settings, x: Inputs, now: Kubeconfig, n: string, w: Workspace)
    requires Credentials(st, x.tokens, n, w).Some?
    requires EntryOf(now, n) == FreshEntry(st, n, Credentials(st, x.tokens, n, w).value)
    ensures LeadsTo(st, x.tokens, w, now, n)
  {
    assert "https://kcp-front-proxy.kcp.svc.cluster.local:8443" + ("/clusters/" + st.consumers + ":") + n
        == "https://kcp-front-proxy.kcp.svc.cluster.local:8443/clusters/" + st.consumers + ":" + n;
    assert EntryOf(now, n).cluster.Some? && EntryOf(now, n).user.Some? && EntryOf(now, n).context.Some?;
  }

  lemma ManagedOutright(st: Settings, cfg: Kubeconfig, n: string)
    ensures BelowConsumers(st, cfg, n) <==> n in cfg.clusters && Managed(st, cfg.clusters[n])
  {
  }

  lemma KeptOrGone(st: Settings, x: Inputs, was: Kubeconfig, now: Kubeconfig, n: string)
    requires EntryOf(now, n) == if n in was.clusters && Managed(st, was.clusters[n]) && n !in Listed(x.listing) then
                                  Entry(None, None, None)
                                else EntryOf(was, n)
    ensures NotRefreshed(st, x.listing, was, now, n)
  {
    hide Managed, BelowConsumers, LiveIn, Listed;
    ManagedOutright(st, was, n);
    ListedIsLive(x.listing, n);
    assert EntryOf(now, n).cluster == Get(now.clusters, n) && EntryOf(was, n).cluster == Get(was.clusters, n);
  }

  /** Every sync, periodic or for a named workspace, leaves this. */
  lemma SyncedOutright(st: Settings, cfg: Kubeconfig, x: Inputs, n: string)
    ensures SyncedAt(st, x, cfg, Synced(st, cfg, x), n)
    ensures Synced(st, cfg, x).current == cfg.current
  {
    hide Managed, Credentials, FreshEntry, EntryOf, EntryAfter, LeadsTo, NotRefreshed, Listed, LiveIn, LastLive;
    var now := Synced(st, cfg, x);
    SyncedEntry(st, cfg, x, n);
    ByCases(st, cfg, x, n);
    assert now.current == cfg.current;
    hide Synced;
    ListedIsLive(x.listing, n);
    if n in Desired(x) && Credentials(st, x.tokens, n, Desired(x)[n]).Some? {
      FreshLeads(st, x, now, n, Desired(x)[n]);
    } else {
      KeptOrGone(st, x, cfg, now, n);
    }
    if n in Desired(x) {
      CredentialsMissing(st, x.tokens, n, Desired(x)[n]);
    }
    forall i | 0 <= i < |x.listing| && LastLive(x.listing, n, i)
      ensures n in Listed(x.listing) && Listed(x.listing)[n] == x.listing[i]
    {
      ListedLast(x.listing, n, i);
    }
  }

  lemma CredentialsMissing(st: Settings, tokens: map<string, string>, n: string, w: Workspace)
    ensures Credentials(st, tokens, n, w).None? <==> w.mark == Some("true") && n !in tokens
  {
  }

  /******* Convergence of periodic syncs *******/

  /**
   * Whatever came before, one periodic sync leaves exactly the live workspaces managed, but for those whose token it
   * could not read: each of them stays as it was. The others it leaves aligned.
   */
  lemma {:induction false} Converges(st: Settings, cfg: Kubeconfig, x: Inputs)
    requires Periodic(x)
    ensures forall n :: n in ManagedNames(st, Synced(st, cfg, x)) <==>
              LiveIn(x.listing, n) && (Readable(st, x, n) || n in ManagedNames(st, cfg))
    ensures forall n :: LiveIn(x.listing, n) && !Readable(st, x, n) ==>
              EntryOf(Synced(st, cfg, x), n) == EntryOf(cfg, n)
    ensures forall n :: n in ManagedNames(st, Synced(st, cfg, x)) && Readable(st, x, n) ==>
              AlignedAt(Synced(st, cfg, x), n)
  {
    forall n
      ensures n in ManagedNames(st, Synced(st, cfg, x)) <==>
                LiveIn(x.listing, n) && (Readable(st, x, n) || n in ManagedNames(st, cfg))
      ensures LiveIn(x.listing, n) && !Readable(st, x, n) ==> EntryOf(Synced(st, cfg, x), n) == EntryOf(cfg, n)
      ensures n in ManagedNames(st, Synced(st, cfg, x)) && Readable(st, x, n) ==> AlignedAt(Synced(st, cfg, x), n)
    {
      ConvergesAt(st, cfg, x, n);
    }
  }

  lemma ConvergesAt(st: Settings, cfg: Kubeconfig, x: Inputs, n: string)
    requires Periodic(x)
    ensures n in ManagedNames(st, Synced(st, cfg, x)) <==>
              LiveIn(x.listing, n) && (Readable(st, x, n) || n in ManagedNames(st, cfg))
    ensures LiveIn(x.listing, n) && !Readable(st, x, n) ==> EntryOf(Synced(st, cfg, x), n) == EntryOf(cfg, n)
    ensures n in ManagedNames(st, Synced(st, cfg, x)) && Readable(st, x, n) ==> AlignedAt(Synced(st, cfg, x), n)
  {
    var after := Synced(st, cfg, x);
    SyncedEntry(st, cfg, x, n);
    FreshIsManaged(st, n);
    ListedIsLive(x.listing, n);
    hide Managed, Synced;
    if n in after.clusters {
      assert EntryOf(after, n).cluster == Some(after.clusters[n]);
    }
    if n in cfg.clusters {
      assert EntryOf(cfg, n).cluster == Some(cfg.clusters[n]);
    }
  }

  /** Repeating a sync of any kind with the same answers changes nothing. */
  lemma {:induction false} SyncTwice(st: Settings, cfg: Kubeconfig, x: Inputs)
    ensures Synced(st, Synced(st, cfg, x), x) == Synced(st, cfg, x)
  {
    var once := Synced(st, cfg, x);
    forall n ensures EntryOf(Synced(st, once, x), n) == EntryOf(once, n) {
      SyncedEntry(st, cfg, x, n);
      SyncedEntry(st, once, x, n);
      hide Synced;
      SameFate(st, cfg, once, x, n);
    }
    hide EntryOf;
    SameEntries(Synced(st, once, x), once);
  }

  lemma SameFate(st: Settings, cfg: Kubeconfig, once: Kubeconfig, x: Inputs, n: string)
    requires EntryOf(once, n) == EntryAfter(st, cfg, x, n)
    ensures EntryAfter(st, once, x, n) == EntryOf(once, n)
  {
    if n in once.clusters {
      assert EntryOf(once, n).cluster == Some(once.clusters[n]);
    }
    if n in cfg.clusters {
      assert EntryOf(cfg, n).cluster == Some(cfg.clusters[n]);
    }
  }

  /** A sync never breaks the alignment of the three maps. */
  lemma {:induction false} StaysAligned(st: Settings, cfg: Kubeconfig, x: Inputs)
    requires Aligned(st, cfg)
    ensures Aligned(st, Synced(st, cfg, x))
  {
    var after := Synced(st, cfg, x);
    forall n | n in ManagedNames(st, after)
      ensures AlignedAt(after, n)
    {
      SyncedEntry(st, cfg, x, n);
      assert EntryOf(after, n).cluster == Some(after.clusters[n]);
      if FateOf(st, cfg, x, n).Kept? {
        assert EntryOf(cfg, n) == EntryOf(after, n);
        assert n in ManagedNames(st, cfg);
      }
    }
  }

  /******* Concurrent syncs *******/

  /** A process is between reading the Secret and writing it back, or not. */
  datatype Proc = Idle | Holding(rv: nat, raw: Raw)

  datatype State = State(rv: nat, raw: Raw, procs: map<nat, Proc>)

  datatype Action =
    | Read(p: nat)
    | Write(p: nat, x: Inputs)     // computes from what p holds; refused when the version has moved on
    | GiveUp(p: nat)
    | Edit(raw: Raw)               // somebody else writes the Secret

  predicate Enabled(s: State, a: Action) {
    match a
    case Read(p) => p in s.procs
    case Write(p, _) => p in s.procs && s.procs[p].Holding?
    case GiveUp(p) => p in s.procs
    case Edit(_) => true
  }

  predicate Succeeds(s: State, a: Action)
    requires Enabled(s, a)
  {
    a.Write? && s.procs[a.p].rv == s.rv
  }

  function Apply(st: Settings, s: State, a: Action): State
    requires Enabled(s, a)
  {
    match a
    case Read(p) => s.(procs := s.procs[p := Holding(s.rv, s.raw)])
    case Write(p, x) =>
      var done := s.(procs := s.procs[p := Idle]);
      if s.procs[p].rv == s.rv then done.(rv := s.rv + 1, raw := Parsed(Synced(st, Load(s.procs[p].raw), x)))
      else done
    case GiveUp(p) => s.(procs := s.procs[p := Idle])
    case Edit(raw) => s.(rv := s.rv + 1, raw := raw)
  }

  predicate Valid(st: Settings, s: State, acts: seq<Action>)
    decreases |acts|
  {
    acts != [] ==> Enabled(s, acts[0]) && Valid(st, Apply(st, s, acts[0]), acts[1..])
  }

  function Run(st: Settings, s: State, acts: seq<Action>): State
    requires Valid(st, s, acts)
    decreases |acts|
  {
    if acts == [] then s else Run(st, Apply(st, s, acts[0]), acts[1..])
  }

  lemma {:induction false} RunAppend(st: Settings, s: State, acts: seq<Action>, a: Action)
    requires Valid(st, s, acts) && Enabled(Run(st, s, acts), a)
    ensures Valid(st, s, acts + [a]) && Run(st, s, acts + [a]) == Apply(st, Run(st, s, acts), a)
    decreases |acts|
  {
    hide Enabled, Apply;
    if acts == [] {
      assert acts + [a] == [a];
      assert Run(st, Apply(st, s, a), []) == Apply(st, s, a);
    } else {
      RunAppend(st, Apply(st, s, acts[0]), acts[1..], a);
      assert (acts + [a])[1..] == acts[1..] + [a];
    }
  }

  predicate Init(s: State) {
    forall p :: p in s.procs ==> s.procs[p].Idle?
  }

  /** A version number names one content. */
  predicate Versioned(s: State) {
    forall p :: p in s.procs && s.procs[p].Holding? ==>
      s.procs[p].rv <= s.rv && (s.procs[p].rv == s.rv ==> s.procs[p].raw == s.raw)
  }

  lemma {:induction false} RunVersioned(st: Settings, s: State, acts: seq<Action>)
    requires Versioned(s) && Valid(st, s, acts)
    ensures Versioned(Run(st, s, acts))
    decreases |acts|
  {
    if acts != [] {
      var t := Apply(st, s, acts[0]);
      assert Versioned(t) by { hide Synced; }
      RunVersioned(st, t, acts[1..]);
    }
  }

  /** In every run, each write that goes through is computed from exactly the content it replaces. */
  lemma NoLostUpdate(st: Settings, s: State, acts: seq<Action>, a: Action)
    requires Init(s) && Valid(st, s, acts) && Enabled(Run(st, s, acts), a) && Succeeds(Run(st, s, acts), a)
    ensures var t := Run(st, s, acts); Apply(st, t, a).raw == Parsed(Synced(st, Load(t.raw), a.x))
  {
    RunVersioned(st, s, acts);
  }

  /** The steps keep away from a name: it is no workspace, and no outside edit touches its entries. */
  predicate Spares(a: Action, n: string, e: Entry) {
    match a
    case Write(_, x) => n !in Desired(x)
    case Edit(raw) => raw.Parsed? && EntryOf(raw.cfg, n) == e
    case _ => true
  }

  predicate Foreign(st: Settings, e: Entry) {
    e.cluster.Some? ==> !Managed(st, e.cluster.value)
  }

  /**
   * Entries that are not managed and whose name is never a workspace survive every interleaving, unchanged in
   * all three maps, as long as what the Secret held at first could be parsed.
   */
  lemma {:induction false} ForeignEntrySurvives(st: Settings, s: State, acts: seq<Action>, n: string, e: Entry)
    requires Versioned(s) && Valid(st, s, acts) && s.raw.Parsed? && EntryOf(s.raw.cfg, n) == e && Foreign(st, e)
    requires forall i :: 0 <= i < |acts| ==> Spares(acts[i], n, e)
    ensures Run(st, s, acts).raw.Parsed? && EntryOf(Run(st, s, acts).raw.cfg, n) == e
    decreases |acts|
  {
    if acts != [] {
      var t := Apply(st, s, acts[0]);
      assert Spares(acts[0], n, e);
      RunVersioned(st, s, [acts[0]]);
      assert Run(st, t, []) == t;
      if acts[0].Write? {
        SyncedEntry(st, Load(s.procs[acts[0].p].raw), acts[0].x, n);
      }
      hide Synced, Desired;
      ForeignEntrySurvives(st, t, acts[1..], n, e);
    }
  }

  /** Content that cannot be parsed is lost with the next write that goes through: what that write refreshes is all. */
  lemma GarbageIsDropped(st: Settings, s: State, acts: seq<Action>, a: Action, n: string)
    requires Init(s) && Valid(st, s, acts) && !Run(st, s, acts).raw.Parsed?
    requires Enabled(Run(st, s, acts), a) && Succeeds(Run(st, s, acts), a)
    ensures EntryOf(Load(Apply(st, Run(st, s, acts), a).raw), n)
         == if n in Desired(a.x) && Readable(st, a.x, n) then
              FreshEntry(st, n, Credentials(st, a.x.tokens, n, Desired(a.x)[n]).value)
            else Entry(None, None, None)
  {
    NoLostUpdate(st, s, acts, a);
    SyncedEntry(st, EMPTY, a.x, n);
    ByCases(st, EMPTY, a.x, n);
  }

  /** The maps stay aligned in every interleaving in which nobody else breaks them. */
  lemma {:induction false} AlwaysAligned(st: Settings, s: State, acts: seq<Action>)
    requires Versioned(s) && Valid(st, s, acts) && Aligned(st, Load(s.raw))
    requires forall i :: 0 <= i < |acts| && acts[i].Edit? ==> Aligned(st, Load(acts[i].raw))
    ensures Aligned(st, Load(Run(st, s, acts).raw))
    decreases |acts|
  {
    if acts != [] {
      var t := Apply(st, s, acts[0]);
      RunVersioned(st, s, [acts[0]]);
      assert Run(st, t, []) == t;
      if Succeeds(s, acts[0]) {
        StaysAligned(st, Load(s.raw), acts[0].x);
      }
      hide Synced, Aligned;
      assert Aligned(st, Load(t.raw));
      AlwaysAligned(st, t, acts[1..]);
    }
  }
}
