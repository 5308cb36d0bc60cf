/** Setting up a consumer workspace: what the steps aim at. */
module WorkspaceSetup {
  import opened Basics

  /******* What a workspace holds, and what it should hold *******/

  datatype Binding = Binding(exportName: string, path: string, claims: string)

  datatype ClusterRoleBinding = ClusterRoleBinding(role: string, subjects: seq<string>)

  /** secret is the token in the token secret, empty until the server has issued one. */
  datatype Contents = Contents(bindings: map<string, Binding>, namespace: bool, account: bool,
                               secret: Option<string>, admin: Option<ClusterRoleBinding>, mark: Option<string>)

  datatype WorkspaceBinding = WorkspaceBinding(name: string, exportName: string, claims: string)

  type Token = t: string | t != "" witness "t"

  /** issued is the token the server gives out for the workspace. */
  datatype Settings = Settings(bindings: seq<WorkspaceBinding>, provider: string, issued: Token)

  const ADMIN := ClusterRoleBinding("cluster-admin", ["ServiceAccount default/workspace-admin"])
  const MARK := Some("true")

  function DesiredBinding(st: Settings, b: WorkspaceBinding): Binding {
    Binding(b.exportName, st.provider, b.claims)
  }

  /** Every object the setup is responsible for is there, and the service account's token too. */
  predicate Complete(st: Settings, w: Contents) {
    && (forall i :: 0 <= i < |st.bindings| ==> st.bindings[i].name in w.bindings)
    && w.namespace && w.account
    && w.secret.Some? && w.secret.value != ""
    && w.admin == Some(ADMIN)
  }

  /** The annotation commits: it is only there when everything else is. */
  predicate Committed(st: Settings, w: Contents) {
    w.mark == MARK ==> Complete(st, w)
  }

  /** Nothing that is there goes away, and no binding changes. */
  predicate Grows(w: Contents, w': Contents) {
    && (forall n :: n in w.bindings ==> n in w'.bindings && w'.bindings[n] == w.bindings[n])
    && (w.namespace ==> w'.namespace) && (w.account ==> w'.account)
    && (w.secret.Some? ==> w'.secret.Some? && (w.secret.value != "" ==> w'.secret == w.secret))
    && (w'.admin == w.admin || w'.admin == Some(ADMIN))
    && (w.mark == MARK ==> w'.mark == MARK)
  }

  function WithBindings(st: Settings, have: map<string, Binding>, n: nat): map<string, Binding>
    requires n <= |st.bindings|
  {
    if n == 0 then have
    else
      var before, b := WithBindings(st, have, n - 1), st.bindings[n - 1];
      if b.name in before then before else before[b.name := DesiredBinding(st, b)]
  }

  /** Where setup leads from here. */
  function Final(st: Settings, w: Contents): Contents {
    Contents(WithBindings(st, w.bindings, |st.bindings|), true, true,
             if w.secret.Some? && w.secret.value != "" then w.secret else Some(st.issued),
             Some(ADMIN), MARK)
  }

  /** How many of the objects are not there. */
  function Missing(st: Settings, w: Contents): nat {
    MissingBindings(st, w, |st.bindings|)
    + (if w.namespace then 0 else 1) + (if w.account then 0 else 1)
    + (if w.secret.Some? then 0 else 1) + (if w.admin.Some? then 0 else 1)
  }

  function MissingBindings(st: Settings, w: Contents, n: nat): nat
    requires n <= |st.bindings|
  {
    if n == 0 then 0
    else MissingBindings(st, w, n - 1) + if st.bindings[n - 1].name in w.bindings then 0 else 1
  }

  /******* Facts about these *******/

  lemma GrowsAgain(a: Contents, b: Contents, c: Contents)
    requires Grows(a, b) && Grows(b, c)
    ensures Grows(a, c)
  {
    forall n | n in a.bindings ensures n in c.bindings && c.bindings[n] == a.bindings[n] {
      assert n in b.bindings;
    }
  }

  /** The count of missing objects never grows. */
  lemma {:induction false} GrowthFillsUp(st: Settings, w: Contents, w': Contents)
    requires Grows(w, w')
    ensures Missing(st, w') <= Missing(st, w)
  {
    MissingBindingsShrink(st, w, w', |st.bindings|);
  }

  lemma {:induction false} MissingBindingsShrink(st: Settings, w: Contents, w': Contents, n: nat)
    requires Grows(w, w') && n <= |st.bindings|
    ensures MissingBindings(st, w', n) <= MissingBindings(st, w, n)
  {
    if n > 0 {
      MissingBindingsShrink(st, w, w', n - 1);
    }
  }

  lemma {:induction false} WithBindingsHas(st: Settings, have: map<string, Binding>, n: nat)
    requires n <= |st.bindings|
    ensures forall i :: 0 <= i < n ==> st.bindings[i].name in WithBindings(st, have, n)
    ensures forall m :: m in have ==> m in WithBindings(st, have, n) && WithBindings(st, have, n)[m] == have[m]
    ensures (forall i :: 0 <= i < n ==> st.bindings[i].name in have) ==> WithBindings(st, have, n) == have
  {
    if n > 0 {
      WithBindingsHas(st, have, n - 1);
    }
  }

  /** Setup leads to a complete workspace, and from a finished one nowhere else. */
  lemma FinalIsComplete(st: Settings, w: Contents)
    ensures Complete(st, Final(st, w)) && Grows(w, Final(st, w))
    ensures Complete(st, w) && w.mark == MARK <==> Final(st, w) == w
  {
    WithBindingsHas(st, w.bindings, |st.bindings|);
  }

  /** Nothing that can be added to the final contents changes them. */
  lemma FinalStays(st: Settings, first: Contents, w: Contents)
    requires Grows(Final(st, first), w) && Final(st, w) == Final(st, first)
    ensures w == Final(st, first)
  {
    FinalIsComplete(st, first);
    FinalIsComplete(st, w);
  }

  /** Creating the first binding that is missing does not change where setup leads. */
  lemma {:induction false} BindingStep(st: Settings, have: map<string, Binding>, i: nat, n: nat)
    requires i < n <= |st.bindings| && st.bindings[i].name !in have
    requires forall j :: 0 <= j < i ==> st.bindings[j].name in have
    ensures WithBindings(st, have[st.bindings[i].name := DesiredBinding(st, st.bindings[i])], n)
            == WithBindings(st, have, n)
  {
    var b := st.bindings[i];
    var more := have[b.name := DesiredBinding(st, b)];
    if n == i + 1 {
      WithBindingsHas(st, have, i);
      WithBindingsHas(st, more, n);
    } else {
      BindingStep(st, have, i, n - 1);
    }
  }
}
