/** The setup code itself, call by call; whatever others do between its calls, it stays a run of SetupRuns. */
module SetupAttempt {
  import opened Basics
  import opened WorkspaceSetup
  import opened SetupRuns

  predicate IsOwn(p: nat, a: Action) {
    a == Step(p) || a == Cut(p)
  }

  /** The calls one process makes in a run, failed ones included. */
  ghost function CallsOf(st: Settings, s: State, acts: seq<Action>, p: nat): seq<Pc>
    requires Valid(st, s, acts)
    decreases |acts|
  {
    if acts == [] then []
    else (if IsOwn(p, acts[0]) then [s.attempts[p]] else []) + CallsOf(st, Apply(st, s, acts[0]), acts[1..], p)
  }

  lemma {:induction false} CallsAppend(st: Settings, s: State, acts: seq<Action>, a: Action, p: nat)
    requires Valid(st, s, acts) && Enabled(Run(st, s, acts), a)
    ensures Valid(st, s, acts + [a])
    ensures CallsOf(st, s, acts + [a], p)
         == CallsOf(st, s, acts, p) + if IsOwn(p, a) then [Run(st, s, acts).attempts[p]] else []
    decreases |acts|
  {
    hide Apply;
    RunAppend(st, s, acts, a);
    if acts == [] {
      assert acts + [a] == [a];
      assert CallsOf(st, Apply(st, s, a), [], p) == [];
    } else {
      CallsAppend(st, Apply(st, s, acts[0]), acts[1..], a, p);
      assert (acts + [a])[1..] == acts[1..] + [a];
    }
  }

  /** One call has been added, or two. */
  predicate GetsAndWrites(was: seq<Pc>, now: seq<Pc>, get: Pc, write: Pc) {
    was < now && (now == was + [get] || now == was + [get, write])
  }

  /** How often a process has started an attempt. */
  ghost function Starts(acts: seq<Action>, p: nat): nat {
    multiset(acts)[Start(p)]
  }

  /** One workspace, with all the attempts to set it up. */
  class Workspace {
    const st: Settings
    ghost const origin: State
    var s: State
    ghost var trace: seq<Action>

    /** The workspace is the one the steps so far lead to. */
    ghost predicate Valid()
      reads this
    {
      Init(st, origin) && SetupRuns.Valid(st, origin, trace) && Run(st, origin, trace) == s
    }

    /** All calls that process p has made. */
    ghost function Calls(p: nat): seq<Pc>
      requires Valid()
      reads this
    {
      CallsOf(st, origin, trace, p)
    }

    predicate At(p: nat, pc: Pc)
      reads this
    {
      p in s.attempts && s.attempts[p] == pc
    }

    /** Process p has no attempt under way. */
    predicate Free(p: nat)
      reads this
    {
      p in s.attempts && (s.attempts[p].Idle? || s.attempts[p].Returned?)
    }

    constructor (st: Settings, s: State)
      requires Init(st, s)
      ensures Valid() && this.st == st && this.s == s && trace == []
    {
      this.st, this.s, this.origin, this.trace := st, s, s, [];
    }

    /** One step that is possible now. */
    method Take(a: Action, ghost p: nat)
      requires Valid() && Enabled(s, a)
      modifies `s, `trace
      ensures Valid() && trace == old(trace) + [a] && s == Apply(st, old(s), a) && Grows(old(s).w, s.w)
      ensures Calls(p) == old(Calls(p)) + if IsOwn(p, a) then [old(s).attempts[p]] else []
    {
      StepGrows(a);
      hide Enabled, Apply, Init, Run, SetupRuns.Valid, CallsOf, Grows;
      RunAppend(st, origin, trace, a);
      CallsAppend(st, origin, trace, a, p);
      s, trace := Apply(st, s, a), trace + [a];
    }

    lemma StepGrows(a: Action)
      requires Valid() && Enabled(s, a)
      ensures Grows(s.w, Apply(st, s, a).w)
    {
      InvRun(st, origin, trace);
      InvStep(st, s, a);
    }

    /** Any number of steps by other attempts, and the server may issue the token. */
    method Others(p: nat)
      requires Valid() && p in s.attempts
      modifies `s, `trace
      ensures Valid() && old(trace) <= trace && At(p, old(s).attempts[p]) && Grows(old(s).w, s.w)
      ensures Calls(p) == old(Calls(p)) && Starts(trace, p) == old(Starts(trace, p))
    {
      var batch: seq<Action> := *;
      for i := 0 to |batch|
        invariant Valid() && old(trace) <= trace && At(p, old(s).attempts[p]) && Grows(old(s).w, s.w)
        invariant Calls(p) == old(Calls(p)) && Starts(trace, p) == old(Starts(trace, p))
      {
        var a := batch[i];
        if Enabled(s, a) && !IsOwn(p, a) && a != Start(p) {
          ghost var before := s.w;
          Take(a, p);
          GrowsAgain(old(s).w, before, s.w);
        }
      }
    }

    /** One API call. It meets the workspace as it is then, and may fail without effect. */
    method Do(p: nat) returns (ok: bool, seen: Contents)
      requires Valid() && p in s.attempts
      modifies `s, `trace
      ensures Valid() && old(trace) < trace && Grows(old(s).w, s.w)
      ensures At(p, if ok then CallPc(st, seen, old(s).attempts[p]) else Returned(false))
      ensures s.w == if ok then CallContents(st, seen, old(s).attempts[p]) else seen
      ensures Calls(p) == old(Calls(p)) + [old(s).attempts[p]] && Starts(trace, p) == old(Starts(trace, p))
    {
      hide Valid, Calls, CallPc, CallContents, Grows;
      Others(p);
      ghost var before := s.w;
      seen := s.w;
      ok := *;
      Take(if ok then Step(p) else Cut(p), p);
      GrowsAgain(old(s).w, before, s.w);
    }

    /** In any state the code has reached, the annotation stands for everything it promises. */
    lemma MarkMeansComplete()
      requires Valid() && s.w.mark == Some("true")
      ensures Complete(st, s.w)
    {
      AnnotationCommits(st, origin, trace);
    }

    lemma SuccessIsFinal(p: nat)
      requires Valid() && At(p, Returned(true))
      ensures s.w == Final(st, origin.w) && SetUp(st, origin.w, s.w)
    {
      hide SetUp;
      AnyRestartEndsTheSame(st, origin, trace, p);
      SuccessOutright(st, origin, trace, p);
    }

    /** What the attempt of p has seen by now is there. */
    lemma PassedHere(p: nat)
      requires Valid() && p in s.attempts
      ensures Passed(st, s.w, s.attempts[p]) && Committed(st, s.w) && Final(st, s.w) == Final(st, origin.w)
    {
      InvRun(st, origin, trace);
    }

    /**
     * One attempt, from its first call to its last, with anything happening in between. It takes nothing away, leaves
     * a finished workspace as it is, and has finished it when it succeeds, with the annotation as its last call.
     */
    method EnsureWorkspaceSetup(p: nat) returns (ok: bool)
      requires Valid() && Free(p)
      modifies `s, `trace
      ensures Valid() && At(p, Returned(ok)) && old(trace) < trace && Grows(old(s).w, s.w)
      ensures Starts(trace, p) == old(Starts(trace, p)) + 1
      ensures old(Calls(p)) < Calls(p) && (ok ==> Calls(p)[|Calls(p)| - 1] == Annotate)
      ensures ok ==> s.w == Final(st, origin.w) && SetUp(st, origin.w, s.w)
      ensures old(s).w == Final(st, origin.w) ==> s.w == old(s).w
    {
      hide SetUp, Calls, Passed, Committed, Complete, Starts, Final, Grows, Valid;
      StartsMore(trace, p);
      Take(Start(p), p);
      ghost var w0 := s.w;
      ok := EnsureWorkspaceBindings(p);
      if ok {
        ghost var w1 := s.w;
        ok := EnsureScopedWorkspaceCredentials(p);
        GrowsAgain(w0, w1, s.w);
        if ok {
          ghost var w2 := s.w;
          ok := MarkWorkspaceScopedCredentials(p);
          GrowsAgain(w0, w2, s.w);
        }
      }
      GrowsAgain(old(s).w, w0, s.w);
      PassedHere(p);
      if old(s).w == Final(st, origin.w) {
        FinalStays(st, origin.w, s.w);
      }
    }

    /** Creates what is missing, binding by binding. */
    method EnsureWorkspaceBindings(p: nat) returns (ok: bool)
      requires Valid() && At(p, NextBinding(st, 0))
      modifies `s, `trace
      ensures Valid() && old(trace) <= trace && Grows(old(s).w, s.w) && Starts(trace, p) == old(Starts(trace, p))
      ensures At(p, if ok then GetNamespace else Returned(false)) && (ok ==> Bound(st, s.w, |st.bindings|))
      ensures MadeAsConfigured(st, origin.w, s.w)
      ensures old(Calls(p)) <= Calls(p) && (!ok ==> old(Calls(p)) < Calls(p))
    {
      hide Valid, Calls, Starts, Passed, MadeAsConfigured;
      MadeHere();
      var i := 0;
      while i < |st.bindings|
        invariant i <= |st.bindings| && Valid() && At(p, NextBinding(st, i)) && old(trace) <= trace
        invariant Grows(old(s).w, s.w) && Starts(trace, p) == old(Starts(trace, p)) && old(Calls(p)) <= Calls(p)
        invariant MadeAsConfigured(st, origin.w, s.w)
      {
        ghost var before := s.w;
        var there := EnsureBinding(p, i);
        GrowsAgain(old(s).w, before, s.w);
        MadeHere();
        if !there { return false; }
        i := i + 1;
      }
      ok := true;
      BoundHere(p);
    }

    /** Whatever bindings have been made refer to what is configured. */
    lemma MadeHere()
      requires Valid()
      ensures MadeAsConfigured(st, origin.w, s.w)
    {
      MadeSinceStart(st, origin, trace);
    }

    lemma BoundHere(p: nat)
      requires Valid() && At(p, GetNamespace)
      ensures Bound(st, s.w, |st.bindings|)
    {
      PassedHere(p);
    }

    /** A binding that another attempt creates between the two calls is an error. */
    method EnsureBinding(p: nat, i: nat) returns (ok: bool)
      requires Valid() && i < |st.bindings| && At(p, GetBinding(i))
      modifies `s, `trace
      ensures Valid() && old(trace) < trace && Grows(old(s).w, s.w) && Starts(trace, p) == old(Starts(trace, p))
      ensures At(p, if ok then NextBinding(st, i + 1) else Returned(false))
      ensures GetsAndWrites(old(Calls(p)), Calls(p), GetBinding(i), CreateBinding(i))
      ensures ok ==> st.bindings[i].name in s.w.bindings
    {
      hide Valid, Calls, DesiredBinding, Starts;
      var b := st.bindings[i];
      var got, seen := Do(p);
      if !got { return false; }
      if b.name in seen.bindings { return true; }
      ghost var before := s.w;
      var created, at := Do(p);
      GrowsAgain(old(s).w, before, s.w);
      ok := created && b.name !in at.bindings;
    }

    /** Success means that everything is there that the annotation promises. */
    method EnsureScopedWorkspaceCredentials(p: nat) returns (ok: bool)
      requires Valid() && At(p, GetNamespace)
      modifies `s, `trace
      ensures Valid() && old(trace) < trace && Grows(old(s).w, s.w) && Starts(trace, p) == old(Starts(trace, p))
      ensures At(p, if ok then GetWorkspace else Returned(false)) && (ok ==> Complete(st, s.w))
      ensures old(Calls(p)) < Calls(p)
    {
      hide Valid, Calls, Starts, Passed, Complete, Grows;
      ok := EnsureNamespace(p);
      if !ok { return false; }
      ghost var w1 := s.w;
      ok := EnsureServiceAccount(p);
      GrowsAgain(old(s).w, w1, s.w);
      if !ok { return false; }
      ghost var w2 := s.w;
      ok := EnsureTokenSecret(p);
      GrowsAgain(old(s).w, w2, s.w);
      if !ok { return false; }
      ghost var w3 := s.w;
      ok := EnsureAdminClusterRoleBinding(p);
      GrowsAgain(old(s).w, w3, s.w);
      if !ok { return false; }
      ghost var w4 := s.w;
      ok := ReadServiceAccountToken(p);
      GrowsAgain(old(s).w, w4, s.w);
    }

    method EnsureNamespace(p: nat) returns (ok: bool)
      requires Valid() && At(p, GetNamespace)
      modifies `s, `trace
      ensures Valid() && old(trace) < trace && Grows(old(s).w, s.w) && Starts(trace, p) == old(Starts(trace, p))
      ensures At(p, if ok then GetAccount else Returned(false)) && (ok ==> s.w.namespace)
      ensures GetsAndWrites(old(Calls(p)), Calls(p), GetNamespace, CreateNamespace)
    {
      hide Valid, Calls, Starts;
      var got, seen := Do(p);
      if !got { return false; }
      if seen.namespace { return true; }
      ghost var before := s.w;
      ok, seen := Do(p);
      GrowsAgain(old(s).w, before, s.w);
    }

    method EnsureServiceAccount(p: nat) returns (ok: bool)
      requires Valid() && At(p, GetAccount)
      modifies `s, `trace
      ensures Valid() && old(trace) < trace && Grows(old(s).w, s.w) && Starts(trace, p) == old(Starts(trace, p))
      ensures At(p, if ok then GetSecret else Returned(false)) && (ok ==> s.w.account)
      ensures GetsAndWrites(old(Calls(p)), Calls(p), GetAccount, CreateAccount)
    {
      hide Valid, Calls, Starts;
      var got, seen := Do(p);
      if !got { return false; }
      if seen.account { return true; }
      ghost var before := s.w;
      ok, seen := Do(p);
      GrowsAgain(old(s).w, before, s.w);
    }

    method EnsureTokenSecret(p: nat) returns (ok: bool)
      requires Valid() && At(p, GetSecret)
      modifies `s, `trace
      ensures Valid() && old(trace) < trace && Grows(old(s).w, s.w) && Starts(trace, p) == old(Starts(trace, p))
      ensures At(p, if ok then GetAdmin else Returned(false)) && (ok ==> s.w.secret.Some?)
      ensures GetsAndWrites(old(Calls(p)), Calls(p), GetSecret, CreateSecret)
    {
      hide Valid, Calls, Starts;
      var got, seen := Do(p);
      if !got { return false; }
      if seen.secret.Some? { return true; }
      ghost var before := s.w;
      ok, seen := Do(p);
      GrowsAgain(old(s).w, before, s.w);
    }

    /** A binding with another role cannot be updated; one with other subjects can, if nobody has changed it since. */
    method EnsureAdminClusterRoleBinding(p: nat) returns (ok: bool)
      requires Valid() && At(p, GetAdmin)
      modifies `s, `trace
      ensures Valid() && old(trace) < trace && Grows(old(s).w, s.w) && Starts(trace, p) == old(Starts(trace, p))
      ensures At(p, if ok then ReadToken else Returned(false)) && (ok ==> s.w.admin == Some(ADMIN))
      ensures GetsAndWrites(old(Calls(p)), Calls(p), GetAdmin, CreateAdmin)
           || exists a :: a != ADMIN && GetsAndWrites(old(Calls(p)), Calls(p), GetAdmin, UpdateAdmin(a))
    {
      hide Valid, Calls, Starts, Passed;
      var got, seen := Do(p);
      if !got { return false; }
      ghost var before := s.w;
      if seen.admin.None? {
        ok, seen := Do(p);
        GrowsAgain(old(s).w, before, s.w);
        if ok {
          AdminHere(p);
        }
        return;
      }
      var existing := seen.admin.value;
      if |existing.subjects| == 1 && existing.subjects[0] == ADMIN.subjects[0] && existing.role == ADMIN.role {
        assert existing.subjects == ADMIN.subjects;
        return true;
      }
      var sent, at := Do(p);
      GrowsAgain(old(s).w, before, s.w);
      ok := sent && Updates(at, existing);
    }

    lemma AdminHere(p: nat)
      requires Valid() && At(p, ReadToken)
      ensures s.w.admin == Some(ADMIN)
    {
      PassedHere(p);
    }

    /** A token that the server has not issued yet is an error. */
    method ReadServiceAccountToken(p: nat) returns (ok: bool)
      requires Valid() && At(p, ReadToken)
      modifies `s, `trace
      ensures Valid() && old(trace) < trace && Grows(old(s).w, s.w) && Starts(trace, p) == old(Starts(trace, p))
      ensures At(p, if ok then GetWorkspace else Returned(false)) && (ok ==> Complete(st, s.w))
      ensures Calls(p) == old(Calls(p)) + [ReadToken]
    {
      hide Valid, Calls, Starts, Passed;
      var got, seen := Do(p);
      ok := got && seen.secret.Some? && seen.secret.value != "";
      if ok {
        CompleteHere(p);
      }
    }

    lemma CompleteHere(p: nat)
      requires Valid() && At(p, GetWorkspace)
      ensures Complete(st, s.w)
    {
      PassedHere(p);
    }

    method MarkWorkspaceScopedCredentials(p: nat) returns (ok: bool)
      requires Valid() && At(p, GetWorkspace)
      modifies `s, `trace
      ensures Valid() && old(trace) < trace && Grows(old(s).w, s.w) && Starts(trace, p) == old(Starts(trace, p))
      ensures At(p, Returned(ok)) && (ok ==> s.w == Final(st, origin.w) && SetUp(st, origin.w, s.w))
      ensures GetsAndWrites(old(Calls(p)), Calls(p), GetWorkspace, Annotate)
      ensures ok ==> Calls(p) == old(Calls(p)) + [GetWorkspace, Annotate]
    {
      hide Valid, Calls, Starts, Final, SetUp;
      var got, seen := Do(p);
      if !got { return false; }
      ghost var before := s.w;
      ok, seen := Do(p);
      GrowsAgain(old(s).w, before, s.w);
      if ok {
        SuccessIsFinal(p);
      }
    }
  }

  lemma StartsMore(acts: seq<Action>, p: nat)
    ensures Starts(acts + [Start(p)], p) == Starts(acts, p) + 1
  {
  }

  /******* A pass over the listing *******/


  predicate IsTransientPhase(phase: string) {
    phase != "Ready" && phase != ""
  }

  datatype Item = Item(name: string, deleting: bool, phase: string)

  /** Settled, one way or the other: ready, or without a phase yet, and not on its way out. */
  predicate Eligible(item: Item) {
    !item.deleting && (item.phase == "Ready" || item.phase == "")
  }

  /** The workspaces a pass over the listing starts a setup for, in order. */
  function EligibleNames(items: seq<Item>): seq<string> {
    if items == [] then []
    else
      EligibleNames(items[..|items| - 1]) +
      if Eligible(items[|items| - 1]) then [items[|items| - 1].name] else []
  }

  ghost predicate Alone(store: map<string, Workspace>, n: string)
    requires n in store
  {
    forall m :: m in store && m != n ==> store[m] != store[n]
  }

  ghost predicate Finished(store: map<string, Workspace>, n: string)
    reads set m | m in store :: store[m]
  {
    n in store && store[n].s.w == Final(store[n].st, store[n].origin.w)
  }

  /** One listed workspace more: it is among the names unless it terminates or has another phase than these two. */
  lemma EligibleStep(items: seq<Item>, k: nat)
    requires k < |items|
    ensures EligibleNames(items[..k + 1])
         == EligibleNames(items[..k])
          + if !items[k].deleting && (items[k].phase == "Ready" || items[k].phase == "") then [items[k].name] else []
    ensures EligibleNames([]) == []
  {
    assert items[..k + 1][..k] == items[..k];
  }

  /**
   * Process p has tried the setups of these names since it had tried each this often and each was in this state; a
   * workspace that it has not tried is as it was.
   */
  ghost predicate Tried(store: map<string, Workspace>, p: nat, names: seq<string>, tries: map<string, nat>,
                        held: map<string, State>)
    reads set n | n in store :: store[n]
  {
    forall n :: n in store && Alone(store, n) ==>
      && n in tries && Starts(store[n].trace, p) == tries[n] + multiset(names)[n]
      && n in held && (n !in names ==> store[n].s == held[n])
  }

  /** attempts holds one outcome for each name, in order, and those that worked are finished. */
  ghost predicate Reported(store: map<string, Workspace>, names: seq<string>, attempts: seq<(string, bool)>)
    reads set n | n in store :: store[n]
  {
    && |attempts| == |names|
    && forall i :: 0 <= i < |names| ==> attempts[i].0 == names[i] && (attempts[i].1 ==> Finished(store, names[i]))
  }

  ghost predicate AllValid(store: map<string, Workspace>, p: nat)
    reads set n | n in store :: store[n]
  {
    forall n :: n in store ==> store[n].Valid() && store[n].Free(p)
  }

  /** One attempt in a pass, after those so far; a workspace that cannot be reached fails. */
  method Attempt(store: map<string, Workspace>, p: nat, name: string, ghost names: seq<string>,
                 ghost attempts: seq<(string, bool)>, ghost tries: map<string, nat>, ghost held: map<string, State>)
    returns (ok: bool)
    requires AllValid(store, p) && Tried(store, p, names, tries, held) && Reported(store, names, attempts)
    modifies set n | n in store :: store[n]
    ensures AllValid(store, p) && Tried(store, p, names + [name], tries, held)
    ensures Reported(store, names + [name], attempts + [(name, ok)])
  {
    hide Final, Committed, Grows, Starts, Workspace.Valid, Workspace.Calls;
    ok := false;
    if name in store {
      ok := store[name].EnsureWorkspaceSetup(p);
    }
  }

  /**
   * One pass over a listing. It starts a setup for exactly the workspaces the listing shows as settled,
   * whether the setups before them worked or not; a workspace whose attempt succeeded is finished at the end.
   */
  method ReconcileWorkspaceBindings(items: seq<Item>, store: map<string, Workspace>, p: nat)
    returns (attempts: seq<(string, bool)>)
    requires AllValid(store, p)
    modifies set n | n in store :: store[n]
    ensures AllValid(store, p) && Reported(store, EligibleNames(items), attempts)
    ensures Tried(store, p, EligibleNames(items), map n | n in store :: old(Starts(store[n].trace, p)),
                  map n | n in store :: old(store[n].s))
  {
    attempts := [];
    ghost var names := [];
    ghost var tries := map n | n in store :: Starts(store[n].trace, p);
    ghost var held := map n | n in store :: store[n].s;
    var k := 0;
    assert names == EligibleNames(items[..0]) && Tried(store, p, names, tries, held);
    hide AllValid, Tried, Reported, EligibleNames;
    while k < |items|
      invariant k <= |items| && names == EligibleNames(items[..k]) && AllValid(store, p)
      invariant Tried(store, p, names, tries, held) && Reported(store, names, attempts)
    {
      var item := items[k];
      EligibleStep(items, k);
      k := k + 1;
      if item.deleting || IsTransientPhase(item.phase) { continue; }
      var ok := Attempt(store, p, item.name, names, attempts, tries, held);
      names := names + [item.name];
      attempts := attempts + [(item.name, ok)];
    }
    assert items[..|items|] == items;
  }
}
