/** What the setup's commit rule is for: a Headlamp sync can read the credentials of every workspace it wants. */
module SetupMeetsHeadlamp {
  import opened Basics
  import opened WorkspaceSetup
  import SetupRuns
  import Headlamp
  import HeadlampRuns

  /** Contents that setup attempts lead to. */
  ghost predicate Reachable(st: Settings, w: Contents) {
    exists s, acts :: SetupRuns.Init(st, s) && SetupRuns.Valid(st, s, acts) && SetupRuns.Run(st, s, acts).w == w
  }

  /**
   * A sync sees the annotation of a workspace when it lists it, and reads the token later, after more setup steps.
   * Each workspace has its own settings and its own token; failed are those whose token request gets no answer.
   */
  ghost predicate SeenBy(sts: map<string, Settings>, x: Headlamp.Inputs, listed: map<string, Contents>,
                         read: map<string, Contents>, failed: set<string>)
  {
    forall n :: n in Headlamp.Desired(x) ==>
      && n in sts && n in listed && n in read && Reachable(sts[n], listed[n]) && Grows(listed[n], read[n])
      && Headlamp.Desired(x)[n].mark == listed[n].mark
      && (n in x.tokens <==> n !in failed && read[n].secret.Some? && read[n].secret.value != "")
      && (n in x.tokens ==> read[n].secret == Some(x.tokens[n]))
  }

  lemma CommittedWhenReachable(st: Settings, w: Contents)
    requires Reachable(st, w)
    ensures Committed(st, w)
  {
    var s, acts :| SetupRuns.Init(st, s) && SetupRuns.Valid(st, s, acts) && SetupRuns.Run(st, s, acts).w == w;
    if w.mark == MARK {
      SetupRuns.AnnotationCommits(st, s, acts);
    }
  }

  /** Credentials are missing exactly when the request for a token that the annotation asks for has failed. */
  lemma CredentialsAreReadable(sts: map<string, Settings>, h: Headlamp.Settings, x: Headlamp.Inputs,
                               listed: map<string, Contents>, read: map<string, Contents>, failed: set<string>)
    requires SeenBy(sts, x, listed, read, failed)
    ensures forall n :: !HeadlampRuns.Readable(h, x, n) <==>
              n in Headlamp.Desired(x) && n in failed && Headlamp.Desired(x)[n].mark == Some("true")
  {
    hide Reachable, Complete;
    forall n | n in Headlamp.Desired(x)
      ensures listed[n].mark == Some("true") ==> read[n].secret.Some? && read[n].secret.value != ""
    {
      CommittedWhenReachable(sts[n], listed[n]);
      TokenStays(sts[n], listed[n], read[n]);
    }
  }

  lemma TokenStays(st: Settings, w: Contents, later: Contents)
    requires Committed(st, w) && Grows(w, later)
    ensures w.mark == Some("true") ==> w.secret.Some? && w.secret.value != "" && later.secret == w.secret
  {
  }

  /** What a workspace's user is given: the token the workspace had when it was listed, or the administrator's. */
  function UserOf(h: Headlamp.Settings, w: Contents): Headlamp.AuthInfo {
    if w.mark == Some("true") && w.secret.Some? then Headlamp.AuthInfo(w.secret.value, "", "", "", "")
    else Headlamp.AdminAuth(h.admin)
  }

  /** The credentials a sync has for a workspace are the workspace's own. */
  lemma CredentialsAreOwn(sts: map<string, Settings>, h: Headlamp.Settings, x: Headlamp.Inputs,
                          listed: map<string, Contents>, read: map<string, Contents>, failed: set<string>, n: string)
    requires SeenBy(sts, x, listed, read, failed) && n in Headlamp.Desired(x) && n !in failed
    ensures Headlamp.Credentials(h, x.tokens, n, Headlamp.Desired(x)[n]) == Some(UserOf(h, listed[n]))
    ensures listed[n].mark == Some("true") ==> listed[n].secret.Some? && listed[n].secret.value != ""
  {
    hide Reachable, Complete;
    CommittedWhenReachable(sts[n], listed[n]);
    TokenStays(sts[n], listed[n], read[n]);
  }

  /**
   * So one periodic sync leaves exactly the live workspaces managed, aligned and each with its own credentials,
   * whatever the Secret held before, but for those whose token request has failed.
   */
  lemma SyncConvergesAfterSetup(sts: map<string, Settings>, h: Headlamp.Settings, cfg: Headlamp.Kubeconfig,
                                x: Headlamp.Inputs, listed: map<string, Contents>, read: map<string, Contents>,
                                failed: set<string>)
    requires SeenBy(sts, x, listed, read, failed) && HeadlampRuns.Periodic(x)
    ensures var after := Headlamp.Synced(h, cfg, x);
            forall n :: n !in failed ==>
              && (n in HeadlampRuns.ManagedNames(h, after) <==> HeadlampRuns.LiveIn(x.listing, n))
              && (HeadlampRuns.LiveIn(x.listing, n) ==>
                    n in listed && Headlamp.EntryOf(after, n) == Headlamp.FreshEntry(h, n, UserOf(h, listed[n])))
  {
    hide Headlamp.Synced, HeadlampRuns.Readable, HeadlampRuns.LiveIn, Headlamp.Credentials, Reachable, Grows;
    CredentialsAreReadable(sts, h, x, listed, read, failed);
    HeadlampRuns.Converges(h, cfg, x);
    var after := Headlamp.Synced(h, cfg, x);
    forall n | n !in failed && HeadlampRuns.LiveIn(x.listing, n)
      ensures n in listed && Headlamp.EntryOf(after, n) == Headlamp.FreshEntry(h, n, UserOf(h, listed[n]))
    {
      HeadlampRuns.ListedIsLive(x.listing, n);
      Headlamp.SyncedEntry(h, cfg, x, n);
      CredentialsAreOwn(sts, h, x, listed, read, failed, n);
    }
  }
}
