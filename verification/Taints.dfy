/** The control-plane scheduling policy: the taint list of one node, and the loop over all nodes. */
module Taints {
  import opened Sorting

  datatype Taint = Taint(key: string, value: string, effect: string)

  const CONTROL_PLANE_KEY := "node-role.kubernetes.io/control-plane"
  const NO_SCHEDULE := "NoSchedule"
  const CONTROL_PLANE_TAINT := Taint(CONTROL_PLANE_KEY, "", NO_SCHEDULE)

  predicate BlocksControlPlane(t: Taint) {
    t.key == CONTROL_PLANE_KEY && t.effect == NO_SCHEDULE
  }

  /** All taints but the blocking ones, in order. */
  function Others(taints: seq<Taint>): seq<Taint> {
    if taints == [] then []
    else
      var t := taints[|taints| - 1];
      Others(taints[..|taints| - 1]) + if BlocksControlPlane(t) then [] else [t]
  }

  predicate Blocked(taints: seq<Taint>) {
    exists i :: 0 <= i < |taints| && BlocksControlPlane(taints[i])
  }

  /** What the policy asks of a node: a blocking taint is present exactly when scheduling is not allowed. */
  predicate Satisfies(taints: seq<Taint>, allowScheduling: bool) {
    Blocked(taints) <==> !allowScheduling
  }

  /** The taint list the controller wants a node to have. */
  function Desired(taints: seq<Taint>, allowScheduling: bool): seq<Taint> {
    if allowScheduling then Others(taints)
    else if Blocked(taints) then taints
    else taints + [CONTROL_PLANE_TAINT]
  }

  predicate Stays(t: Taint) {
    !(t.key == "node-role.kubernetes.io/control-plane" && t.effect == "NoSchedule")
  }

  /**
   * What becomes of one node's taints, said outright. The taint that blocks scheduling on the control plane is there
   * exactly when scheduling is not allowed; every other taint stays, as often as it was and in the same order; and
   * unless scheduling is allowed, at most the blocking taint is added, at the end.
   */
  ghost predicate FollowsPolicy(taints: seq<Taint>, allowScheduling: bool, updated: seq<Taint>) {
    && ((exists i :: 0 <= i < |updated| && !Stays(updated[i])) <==> !allowScheduling)
    && Filter(updated, Stays) == Filter(taints, Stays)
    && (forall t :: Stays(t) ==> multiset(updated)[t] == multiset(taints)[t])
    && (!allowScheduling ==>
          updated == if exists i :: 0 <= i < |taints| && !Stays(taints[i]) then taints
                     else taints + [Taint("node-role.kubernetes.io/control-plane", "", "NoSchedule")])
  }

  method DesiredControlPlaneTaints(taints: seq<Taint>, allowScheduling: bool)
    returns (updated: seq<Taint>, changed: bool)
    ensures updated == Desired(taints, allowScheduling)
    ensures changed <==> updated != taints
    ensures FollowsPolicy(taints, allowScheduling, updated)
  {
    hide FollowsPolicy, Blocked;
    updated, changed := [], false;
    var found := false;
    NoneBlocked();
    assert taints[..0] == [];
    for i := 0 to |taints|
      invariant found <==> Blocked(taints[..i])
      invariant updated == if allowScheduling then Others(taints[..i]) else taints[..i]
      invariant changed <==> (allowScheduling && found)
    {
      var taint := taints[i];
      assert taints[..i + 1] == taints[..i] + [taint] && taints[..i + 1][..i] == taints[..i];
      BlockedMore(taints[..i], taint);
      if BlocksControlPlane(taint) {
        found := true;
        if allowScheduling {
          changed := true;
          continue;
        }
      }
      updated := updated + [taint];
    }
    assert taints[..|taints|] == taints;
    if !allowScheduling && !found {
      updated := updated + [CONTROL_PLANE_TAINT];
      changed := true;
    }
    PolicyHolds(taints, allowScheduling);
    FixedByPolicy(taints, allowScheduling);
  }

  lemma NoneBlocked()
    ensures !Blocked([])
  {
  }

  lemma BlockedMore(taints: seq<Taint>, t: Taint)
    ensures Blocked(taints + [t]) <==> Blocked(taints) || BlocksControlPlane(t)
  {
    var more := taints + [t];
    assert more[|taints|] == t && forall i :: 0 <= i < |taints| ==> more[i] == taints[i];
  }

  lemma {:induction false} OthersUnblocked(taints: seq<Taint>)
    ensures !Blocked(Others(taints))
    ensures !Blocked(taints) ==> Others(taints) == taints
  {
    if taints != [] {
      var init, last := taints[..|taints| - 1], taints[|taints| - 1];
      assert taints == init + [last];
      BlockedMore(init, last);
      BlockedMore(Others(init), last);
      hide Blocked;
      OthersUnblocked(init);
    }
  }

  lemma {:induction false} OthersStay(taints: seq<Taint>)
    ensures Others(taints) == Filter(taints, Stays)
  {
    if taints != [] {
      OthersStay(taints[..|taints| - 1]);
    }
  }

  lemma {:induction false} CountStays(taints: seq<Taint>, t: Taint)
    requires Stays(t)
    ensures multiset(Others(taints))[t] == multiset(taints)[t]
  {
    if taints != [] {
      var init, last := taints[..|taints| - 1], taints[|taints| - 1];
      assert taints == init + [last];
      CountStays(init, t);
    }
  }

  /** The wanted list follows the policy. */
  lemma PolicyHolds(taints: seq<Taint>, allowScheduling: bool)
    ensures FollowsPolicy(taints, allowScheduling, Desired(taints, allowScheduling))
    ensures Satisfies(Desired(taints, allowScheduling), allowScheduling)
  {
    hide Blocked, Filter, Others;
    BlockedOutright(taints);
    BlockedOutright(Desired(taints, allowScheduling));
    OthersUnblocked(taints);
    OthersUnblocked(Others(taints));
    OthersStay(taints);
    OthersStay(Others(taints));
    BlockedMore(taints, CONTROL_PLANE_TAINT);
    FilterMore(taints, CONTROL_PLANE_TAINT, Stays);
    forall t | Stays(t) ensures multiset(Desired(taints, allowScheduling))[t] == multiset(taints)[t] {
      CountStays(taints, t);
    }
  }

  lemma BlockedOutright(taints: seq<Taint>)
    ensures Blocked(taints) <==> exists i :: 0 <= i < |taints| && !Stays(taints[i])
  {
    if i :| 0 <= i < |taints| && BlocksControlPlane(taints[i]) {
      assert !Stays(taints[i]);
    }
    if i :| 0 <= i < |taints| && !Stays(taints[i]) {
      assert BlocksControlPlane(taints[i]);
    }
  }

  /**
   * A list that already follows the policy is a fixed point, so a second pass changes nothing; and forbidding and
   * then allowing again is the same as allowing straight away.
   */
  lemma FixedByPolicy(taints: seq<Taint>, allowScheduling: bool)
    ensures Satisfies(taints, allowScheduling) <==> Desired(taints, allowScheduling) == taints
    ensures Desired(Desired(taints, allowScheduling), allowScheduling) == Desired(taints, allowScheduling)
    ensures Desired(Desired(taints, false), true) == Desired(taints, true)
  {
    hide FollowsPolicy, Blocked;
    PolicyHolds(taints, allowScheduling);
    PolicyHolds(taints, false);
    OthersUnblocked(taints);
    OthersUnblocked(Others(taints));
    assert (taints + [CONTROL_PLANE_TAINT])[..|taints|] == taints;
  }

  /** The loop over the control-plane nodes of one workload cluster; any node update may be refused. */
  method ReconcileNodes(nodes: array<seq<Taint>>, allowScheduling: bool) returns (ok: bool, done: nat)
    modifies nodes
    ensures done <= nodes.Length && (ok <==> done == nodes.Length)
    ensures forall i :: 0 <= i < done ==>
              FollowsPolicy(old(nodes[i]), allowScheduling, nodes[i])
    ensures forall i :: done <= i < nodes.Length ==> nodes[i] == old(nodes[i])
  {
    hide FollowsPolicy, Desired;
    done := 0;
    while done < nodes.Length
      invariant done <= nodes.Length
      invariant forall i :: 0 <= i < done ==>
                  FollowsPolicy(old(nodes[i]), allowScheduling, nodes[i])
      invariant forall i :: done <= i < nodes.Length ==> nodes[i] == old(nodes[i])
    {
      var updated, changed := DesiredControlPlaneTaints(nodes[done], allowScheduling);
      if changed {
        var refused: bool := *;
        if refused {
          return false, done;
        }
        nodes[done] := updated;
      }
      done := done + 1;
    }
    ok := true;
  }
}
