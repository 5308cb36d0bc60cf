/** Any number of setup attempts on one workspace at once, each of which may be cut off after any API call. */
module SetupRuns {
  import opened Basics
  import opened WorkspaceSetup

  /** The API call an attempt makes next. */
  datatype Pc =
    | Idle
    | Returned(ok: bool)
    | GetBinding(i: nat) | CreateBinding(i: nat)
    | GetNamespace | CreateNamespace
    | GetAccount | CreateAccount
    | GetSecret | CreateSecret
    | GetAdmin | CreateAdmin | UpdateAdmin(seen: ClusterRoleBinding)
    | ReadToken
    | GetWorkspace | Annotate

  datatype State = State(w: Contents, attempts: map<nat, Pc>)

  datatype Action = Start(p: nat) | Step(p: nat) | Cut(p: nat) | IssueToken

  /** Where an attempt goes once the first i bindings are there. */
  function NextBinding(st: Settings, i: nat): Pc {
    if i < |st.bindings| then GetBinding(i) else GetNamespace
  }

  /** An update needs the version that was read, and the server never changes the role of a binding. */
  predicate Updates(w: Contents, seen: ClusterRoleBinding) {
    w.admin == Some(seen) && seen.role == ADMIN.role
  }

  function CallPc(st: Settings, w: Contents, pc: Pc): Pc {
    match pc
    case Idle => Idle
    case Returned(ok) => Returned(ok)
    case GetBinding(i) =>
      if i >= |st.bindings| then GetNamespace
      else if st.bindings[i].name in w.bindings then NextBinding(st, i + 1) else CreateBinding(i)
    case CreateBinding(i) =>
      if i >= |st.bindings| || st.bindings[i].name in w.bindings then Returned(false) else NextBinding(st, i + 1)
    case GetNamespace => if w.namespace then GetAccount else CreateNamespace
    case CreateNamespace => GetAccount
    case GetAccount => if w.account then GetSecret else CreateAccount
    case CreateAccount => GetSecret
    case GetSecret => if w.secret.Some? then GetAdmin else CreateSecret
    case CreateSecret => GetAdmin
    case GetAdmin =>
      (match w.admin
       case None => CreateAdmin
       case Some(a) => if a == ADMIN then ReadToken else UpdateAdmin(a))
    case CreateAdmin => ReadToken
    case UpdateAdmin(seen) => if Updates(w, seen) then ReadToken else Returned(false)
    case ReadToken => if w.secret.Some? && w.secret.value != "" then GetWorkspace else Returned(false)
    case GetWorkspace => Annotate
    case Annotate => Returned(true)
  }

  function CallContents(st: Settings, w: Contents, pc: Pc): Contents {
    match pc
    case CreateBinding(i) =>
      if i >= |st.bindings| || st.bindings[i].name in w.bindings then w
      else w.(bindings := w.bindings[st.bindings[i].name := DesiredBinding(st, st.bindings[i])])
    case CreateNamespace => w.(namespace := true)
    case CreateAccount => w.(account := true)
    case CreateSecret => if w.secret.None? then w.(secret := Some("")) else w
    case CreateAdmin => if w.admin.None? then w.(admin := Some(ADMIN)) else w
    case UpdateAdmin(seen) => if Updates(w, seen) then w.(admin := Some(ADMIN)) else w
    case Annotate => w.(mark := MARK)
    case _ => w
  }

  predicate Enabled(s: State, a: Action) {
    match a
    case Start(p) => p in s.attempts && (s.attempts[p].Idle? || s.attempts[p].Returned?)
    case Step(p) => p in s.attempts
    case Cut(p) => p in s.attempts
    case IssueToken => s.w.secret == Some("")
  }

  function Apply(st: Settings, s: State, a: Action): State
    requires Enabled(s, a)
  {
    match a
    case Start(p) => s.(attempts := s.attempts[p := NextBinding(st, 0)])
    case Step(p) => State(CallContents(st, s.w, s.attempts[p]),
                          s.attempts[p := CallPc(st, s.w, s.attempts[p])])
    case Cut(p) => s.(attempts := s.attempts[p := Returned(false)])
    case IssueToken => s.(w := s.w.(secret := Some(st.issued)))
  }

  predicate Valid(st: Settings, s: State, acts: seq<Action>)
    decreases |acts|
  {
    acts != [] ==> Enabled(s, acts[0]) && Valid(st, Apply(st, s, acts[0]), acts[1..])
  }

  function Run(st: Settings, s: State, acts: seq<Action>): State
    requires Valid(st, s, acts)
    decreases |acts|
  {
    if acts == [] then s else Run(st, Apply(st, s, acts[0]), acts[1..])
  }

  /** No attempt under way, and otherwise anything at all, if it is not annotated or complete. */
  predicate Init(st: Settings, s: State) {
    Committed(st, s.w) && forall p :: p in s.attempts ==> s.attempts[p].Idle?
  }

  lemma {:induction false} RunAppend(st: Settings, s: State, acts: seq<Action>, a: Action)
    requires Valid(st, s, acts) && Enabled(Run(st, s, acts), a)
    ensures Valid(st, s, acts + [a]) && Run(st, s, acts + [a]) == Apply(st, Run(st, s, acts), a)
    decreases |acts|
  {
    hide Enabled, Apply;
    if acts == [] {
      assert acts + [a] == [a];
      assert Run(st, Apply(st, s, a), []) == Apply(st, s, a);
    } else {
      RunAppend(st, Apply(st, s, acts[0]), acts[1..], a);
      assert (acts + [a])[1..] == acts[1..] + [a];
    }
  }

  /******* Invariants *******/

  predicate Bound(st: Settings, w: Contents, n: nat) {
    forall i :: 0 <= i < n && i < |st.bindings| ==> st.bindings[i].name in w.bindings
  }

  /** What an attempt has seen to be there by the time it makes its next call. */
  predicate Passed(st: Settings, w: Contents, pc: Pc) {
    && (pc.GetBinding? || pc.CreateBinding? ==> Bound(st, w, pc.i))
    && (!pc.Idle? && !pc.Returned? && !pc.GetBinding? && !pc.CreateBinding? ==> Bound(st, w, |st.bindings|))
    && (pc.GetAccount? || pc.CreateAccount? || PastAccount(pc) ==> w.namespace)
    && (PastAccount(pc) ==> w.account)
    && (PastSecret(pc) ==> w.secret.Some?)
    && (pc.CreateAdmin? ==> w.admin.None? || w.admin == Some(ADMIN))
    && (pc.ReadToken? || pc.GetWorkspace? || pc.Annotate? ==> w.admin == Some(ADMIN))
    && (pc.GetWorkspace? || pc.Annotate? ==> Complete(st, w))
    && (pc == Returned(true) ==> Complete(st, w) && w.mark == MARK)
  }

  predicate PastSecret(pc: Pc) {
    pc.GetAdmin? || pc.CreateAdmin? || pc.UpdateAdmin? || pc.ReadToken? || pc.GetWorkspace? || pc.Annotate?
  }

  predicate PastAccount(pc: Pc) {
    pc.GetSecret? || pc.CreateSecret? || PastSecret(pc)
  }

  predicate Inv(st: Settings, s: State) {
    Committed(st, s.w) && forall p :: p in s.attempts ==> Passed(st, s.w, s.attempts[p])
  }

  /** Whatever an attempt has seen stays true, whoever acts next. */
  lemma PassedStays(st: Settings, w: Contents, w': Contents, pc: Pc)
    requires Passed(st, w, pc) && Grows(w, w')
    ensures Passed(st, w', pc)
  {
  }

  lemma CallPasses(st: Settings, w: Contents, pc: Pc)
    requires Passed(st, w, pc) && Committed(st, w)
    ensures Grows(w, CallContents(st, w, pc)) && Passed(st, CallContents(st, w, pc), CallPc(st, w, pc))
    ensures Committed(st, CallContents(st, w, pc))
  {
  }

  lemma CallKeepsFinal(st: Settings, w: Contents, pc: Pc)
    requires Passed(st, w, pc)
    ensures Final(st, CallContents(st, w, pc)) == Final(st, w)
  {
    if pc.CreateBinding? && pc.i < |st.bindings| && st.bindings[pc.i].name !in w.bindings {
      BindingStep(st, w.bindings, pc.i, |st.bindings|);
    }
  }

  lemma InvStep(st: Settings, s: State, a: Action)
    requires Inv(st, s) && Enabled(s, a)
    ensures Inv(st, Apply(st, s, a)) && Grows(s.w, Apply(st, s, a).w)
    ensures Final(st, Apply(st, s, a).w) == Final(st, s.w)
  {
    var t := Apply(st, s, a);
    if a.Step? {
      CallPasses(st, s.w, s.attempts[a.p]);
      CallKeepsFinal(st, s.w, s.attempts[a.p]);
    }
    hide CallContents, CallPc;
    assert Grows(s.w, t.w);
    forall p | p in t.attempts ensures Passed(st, t.w, t.attempts[p]) {
      if t.attempts[p] == s.attempts[p] {
        PassedStays(st, s.w, t.w, s.attempts[p]);
      }
    }
  }

  lemma {:induction false} InvRun(st: Settings, s: State, acts: seq<Action>)
    requires Inv(st, s) && Valid(st, s, acts)
    ensures Inv(st, Run(st, s, acts)) && Grows(s.w, Run(st, s, acts).w)
    ensures Final(st, Run(st, s, acts).w) == Final(st, s.w)
    decreases |acts|
  {
    if acts != [] {
      var t := Apply(st, s, acts[0]);
      InvStep(st, s, acts[0]);
      InvRun(st, t, acts[1..]);
      hide Grows;
      GrowsAgain(s.w, t.w, Run(st, s, acts).w);
    }
  }

  /******* Results *******/

  /** In every reachable state an annotated workspace has everything. */
  lemma AnnotationCommits(st: Settings, s: State, acts: seq<Action>)
    requires Init(st, s) && Valid(st, s, acts) && Run(st, s, acts).w.mark == Some("true")
    ensures var w := Run(st, s, acts).w;
            && (forall i :: 0 <= i < |st.bindings| ==> st.bindings[i].name in w.bindings)
            && w.namespace && w.account && w.secret.Some? && w.secret.value != ""
            && w.admin.Some? && w.admin.value.role == "cluster-admin"
            && w.admin.value.subjects == ["ServiceAccount default/workspace-admin"]
  {
    InvRun(st, s, acts);
  }

  /** The first configured binding of its name. */
  predicate IsFirst(st: Settings, i: nat) {
    i < |st.bindings| && forall j :: 0 <= j < i ==> st.bindings[j].name != st.bindings[i].name
  }

  /** The binding is bound to what the first configured one of its name says, in the provider's workspace. */
  predicate AsConfigured(st: Settings, n: string, b: Binding) {
    exists i :: 0 <= i < |st.bindings| && st.bindings[i].name == n && IsFirst(st, i) && BindsTo(st, i, b)
  }

  predicate BindsTo(st: Settings, i: nat, b: Binding)
    requires i < |st.bindings|
  {
    b.exportName == st.bindings[i].exportName && b.path == st.provider && b.claims == st.bindings[i].claims
  }

  ghost predicate MadeAsConfigured(st: Settings, first: Contents, w: Contents) {
    && (forall n :: n in first.bindings ==> n in w.bindings)
    && (forall n :: n in w.bindings ==>
          if n in first.bindings then w.bindings[n] == first.bindings[n] else AsConfigured(st, n, w.bindings[n]))
  }

  lemma {:induction false} MadeRun(st: Settings, first: Contents, s: State, acts: seq<Action>)
    requires Inv(st, s) && Valid(st, s, acts) && MadeAsConfigured(st, first, s.w)
    ensures MadeAsConfigured(st, first, Run(st, s, acts).w)
    decreases |acts|
  {
    hide Inv, MadeAsConfigured, Apply, Enabled;
    if acts != [] {
      InvStep(st, s, acts[0]);
      MadeStep(st, first, s, acts[0]);
      MadeRun(st, first, Apply(st, s, acts[0]), acts[1..]);
    }
  }

  lemma MadeStep(st: Settings, first: Contents, s: State, a: Action)
    requires Inv(st, s) && Enabled(s, a) && MadeAsConfigured(st, first, s.w)
    ensures MadeAsConfigured(st, first, Apply(st, s, a).w)
  {
    hide CallPc, Committed, Complete;
    if a.Step? && s.attempts[a.p].CreateBinding? {
      var i := s.attempts[a.p].i;
      if i < |st.bindings| && st.bindings[i].name !in s.w.bindings {
        assert Bound(st, s.w, i);
        assert IsFirst(st, i) && BindsTo(st, i, DesiredBinding(st, st.bindings[i]));
        assert AsConfigured(st, st.bindings[i].name, DesiredBinding(st, st.bindings[i]));
      }
    }
  }

  lemma MadeSinceStart(st: Settings, s: State, acts: seq<Action>)
    requires Init(st, s) && Valid(st, s, acts)
    ensures MadeAsConfigured(st, s.w, Run(st, s, acts).w)
  {
    hide Run, Valid;
    MadeRun(st, s.w, s, acts);
  }

  /**
   * In every run, a binding that was not there at the start refers to the export and has the claims that the first
   * configured binding of its name gives, at the provider's path; one that was there is as it was.
   */
  lemma BindingsAreConfigured(st: Settings, s: State, acts: seq<Action>, n: string)
    requires Init(st, s) && Valid(st, s, acts) && n in Run(st, s, acts).w.bindings
    ensures var b := Run(st, s, acts).w.bindings[n];
            if n in s.w.bindings then b == s.w.bindings[n] else AsConfigured(st, n, b)
  {
    MadeRun(st, s.w, s, acts);
  }

  /** What a setup that has succeeded leaves, said outright. */
  ghost predicate SetUp(st: Settings, first: Contents, w: Contents) {
    && (forall i :: 0 <= i < |st.bindings| ==> st.bindings[i].name in w.bindings)
    && MadeAsConfigured(st, first, w)
    && w.namespace && w.account
    && w.secret == (if first.secret.Some? && first.secret.value != "" then first.secret else Some(st.issued))
    && w.admin.Some? && w.admin.value.role == "cluster-admin"
    && w.admin.value.subjects == ["ServiceAccount default/workspace-admin"]
    && w.mark == Some("true")
  }

  lemma SuccessOutright(st: Settings, s: State, acts: seq<Action>, p: nat)
    requires Init(st, s) && Valid(st, s, acts)
    requires p in Run(st, s, acts).attempts && Run(st, s, acts).attempts[p] == Returned(true)
    ensures SetUp(st, s.w, Run(st, s, acts).w)
  {
    hide Run, Valid, Init, MadeAsConfigured;
    AnyRestartEndsTheSame(st, s, acts, p);
    MadeSinceStart(st, s, acts);
    WithBindingsHas(st, s.w.bindings, |st.bindings|);
  }

  /**
   * Whatever attempts were cut off where, the first one that succeeds leaves exactly what one clean attempt
   * leaves. On the way no binding changes and the count of missing objects never grows.
   */
  lemma AnyRestartEndsTheSame(st: Settings, s: State, acts: seq<Action>, p: nat)
    requires Init(st, s) && Valid(st, s, acts)
    requires p in Run(st, s, acts).attempts && Run(st, s, acts).attempts[p] == Returned(true)
    ensures Run(st, s, acts).w == Final(st, s.w)
  {
    InvRun(st, s, acts);
    FinalIsComplete(st, Run(st, s, acts).w);
  }

  lemma NeverLosesGround(st: Settings, s: State, acts: seq<Action>, a: Action)
    requires Init(st, s) && Valid(st, s, acts) && Enabled(Run(st, s, acts), a)
    ensures var t := Run(st, s, acts);
            && (forall n :: n in s.w.bindings ==> n in t.w.bindings && t.w.bindings[n] == s.w.bindings[n])
            && (t.w.namespace ==> Apply(st, t, a).w.namespace) && (t.w.account ==> Apply(st, t, a).w.account)
            && (t.w.secret.Some? ==> Apply(st, t, a).w.secret.Some?)
            && (t.w.admin.Some? ==> Apply(st, t, a).w.admin.Some?)
            && Missing(st, Apply(st, t, a).w) <= Missing(st, t.w)
  {
    InvRun(st, s, acts);
    InvStep(st, Run(st, s, acts), a);
    GrowthFillsUp(st, Run(st, s, acts).w, Apply(st, Run(st, s, acts), a).w);
  }

  /******* A clean attempt *******/

  function Rank(st: Settings, pc: Pc): nat {
    match pc
    case Idle => 0
    case Returned(_) => 0
    case Annotate => 1
    case GetWorkspace => 2
    case ReadToken => 3
    case UpdateAdmin(_) => 4
    case CreateAdmin => 4
    case GetAdmin => 5
    case CreateSecret => 6
    case GetSecret => 7
    case CreateAccount => 8
    case GetAccount => 9
    case CreateNamespace => 10
    case GetNamespace => 11
    case CreateBinding(i) => if i < |st.bindings| then 12 + 2 * (|st.bindings| - i) else 12
    case GetBinding(i) => if i < |st.bindings| then 13 + 2 * (|st.bindings| - i) else 13
  }

  /** The rest of an attempt that nothing disturbs. */
  function Finish(st: Settings, w: Contents, pc: Pc): (Contents, Pc)
    decreases Rank(st, pc)
  {
    if pc.Idle? || pc.Returned? then (w, pc)
    else Finish(st, CallContents(st, w, pc), CallPc(st, w, pc))
  }

  /** Nobody else has acted since this attempt last looked, and the server has issued the token. */
  predicate Undisturbed(st: Settings, w: Contents, pc: Pc) {
    && (pc.CreateBinding? ==> pc.i < |st.bindings| && st.bindings[pc.i].name !in w.bindings)
    && (pc.UpdateAdmin? ==> w.admin == Some(pc.seen))
    && w.secret.Some? && w.secret.value != ""
    && !pc.Idle? && pc != Returned(false)
  }

  /** There is no role binding yet, or one with the role that is wanted. */
  predicate RoleFits(w: Contents) {
    w.admin.Some? ==> w.admin.value.role == ADMIN.role
  }

  lemma {:induction false} FinishSucceeds(st: Settings, w: Contents, pc: Pc)
    requires Passed(st, w, pc) && Committed(st, w) && Undisturbed(st, w, pc)
    ensures Finish(st, w, pc) == (Final(st, w), Returned(true)) <==> RoleFits(w)
    ensures !RoleFits(w) ==> Finish(st, w, pc).1 == Returned(false)
    decreases Rank(st, pc)
  {
    if pc.Returned? {
      FinalIsComplete(st, w);
    } else if CallPc(st, w, pc) == Returned(false) {
      assert pc.UpdateAdmin?;
    } else {
      CallPasses(st, w, pc);
      CallKeepsFinal(st, w, pc);
      FinishSucceeds(st, CallContents(st, w, pc), CallPc(st, w, pc));
    }
  }

  /**
   * Once the token has been issued, an undisturbed attempt succeeds exactly when no role binding with another role
   * is in its way; otherwise it fails.
   */
  lemma CleanAttempt(st: Settings, w: Contents)
    requires Committed(st, w) && w.secret.Some? && w.secret.value != ""
    ensures Finish(st, w, NextBinding(st, 0)) == (Final(st, w), Returned(true)) <==> RoleFits(w)
    ensures !RoleFits(w) ==> Finish(st, w, NextBinding(st, 0)).1 == Returned(false)
  {
    FinishSucceeds(st, w, NextBinding(st, 0));
  }

  lemma {:induction false} WrongRoleStays(st: Settings, s: State, acts: seq<Action>)
    requires Valid(st, s, acts) && !RoleFits(s.w)
    ensures Run(st, s, acts).w.admin == s.w.admin
    decreases |acts|
  {
    if acts != [] {
      assert Apply(st, s, acts[0]).w.admin == s.w.admin;
      WrongRoleStays(st, Apply(st, s, acts[0]), acts[1..]);
    }
  }

  /** With such a binding in the way no attempt ever succeeds, in any run, and the workspace is never annotated. */
  lemma WrongRoleBlocks(st: Settings, s: State, acts: seq<Action>)
    requires Init(st, s) && Valid(st, s, acts) && !RoleFits(s.w)
    ensures Run(st, s, acts).w.mark != MARK
    ensures forall p :: p in Run(st, s, acts).attempts ==> Run(st, s, acts).attempts[p] != Returned(true)
  {
    InvRun(st, s, acts);
    WrongRoleStays(st, s, acts);
  }
}
