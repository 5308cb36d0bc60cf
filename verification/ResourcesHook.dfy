/** The asynchronous load behind the resource list, with responses arriving in any order. */
module ResourcesHook {
  import opened Basics
  import opened ResourceIndex
  import Sorting

  /** Where one run of the effect stands. */
  datatype Phase =
    | Fetching
    | Refining(base: seq<Meta>)
    | Done(shown: Option<seq<Meta>>, refined: bool)

  datatype EffectRun = EffectRun(cancelled: bool, phase: Phase)

  /** What the component shows, and all runs of its effect so far; the last one may be cleaned up already. */
  datatype View = View(resources: seq<Meta>, error: Option<string>, loading: bool, runs: seq<EffectRun>)

  datatype Event =
    | Begin                                          // mount or cluster change: clean up, then run the effect
    | Unmount
    | Fetched(r: nat, base: seq<Meta>)               // the bindings of run r arrived and were indexed
    | FetchFailed(r: nat, message: string)           // the request failed, or indexing threw
    | RefinedBy(r: nat, next: seq<Meta>)
    | RefineFailed(r: nat)

  const BLANK := View([], None, true, [])

  predicate Enabled(v: View, e: Event) {
    match e
    case Begin => true
    case Unmount => true
    case Fetched(r, _) => r < |v.runs| && v.runs[r].phase.Fetching?
    case FetchFailed(r, _) => r < |v.runs| && v.runs[r].phase.Fetching?
    case RefinedBy(r, _) => r < |v.runs| && v.runs[r].phase.Refining?
    case RefineFailed(r) => r < |v.runs| && v.runs[r].phase.Refining?
  }

  function CleanedUp(runs: seq<EffectRun>): seq<EffectRun> {
    if runs == [] then [] else runs[|runs| - 1 := runs[|runs| - 1].(cancelled := true)]
  }

  function Advance(v: View, r: nat, phase: Phase): View
    requires r < |v.runs|
  {
    v.(runs := v.runs[r := v.runs[r].(phase := phase)])
  }

  function Apply(v: View, e: Event): View
    requires Enabled(v, e)
  {
    match e
    case Begin => v.(loading := true, error := None, runs := CleanedUp(v.runs) + [EffectRun(false, Fetching)])
    case Unmount => v.(runs := CleanedUp(v.runs))
    case Fetched(r, base) =>
      if v.runs[r].cancelled then Advance(v, r, Done(None, false))
      else Advance(v, r, Refining(base)).(resources := base, loading := false)
    case FetchFailed(r, message) =>
      var done := Advance(v, r, Done(None, false));
      if v.runs[r].cancelled then done else done.(error := Some(message), loading := false)
    case RefinedBy(r, next) =>
      if v.runs[r].cancelled then Advance(v, r, Done(None, false))
      else Advance(v, r, Done(Some(next), true)).(resources := next)
    case RefineFailed(r) => Advance(v, r, Done(Some(v.runs[r].phase.base), false))
  }

  predicate Valid(v: View, es: seq<Event>)
    decreases |es|
  {
    es != [] ==> Enabled(v, es[0]) && Valid(Apply(v, es[0]), es[1..])
  }

  function Run(v: View, es: seq<Event>): View
    requires Valid(v, es)
    decreases |es|
  {
    if es == [] then v else Run(Apply(v, es[0]), es[1..])
  }

  /** The list a run has to offer, if it got that far. */
  function Offered(run: EffectRun): Option<seq<Meta>> {
    match run.phase
    case Fetching => None
    case Refining(base) => Some(base)
    case Done(shown, _) => shown
  }

  /** Only the last run can be live; while one is, what the component shows is that run's. */
  predicate Inv(v: View) {
    && (forall r :: 0 <= r < |v.runs| - 1 ==> v.runs[r].cancelled)
    && (v.runs == [] ==> v.loading)
    && (v.runs != [] && !v.runs[|v.runs| - 1].cancelled ==>
          var run := v.runs[|v.runs| - 1];
          && (run.phase.Fetching? <==> v.loading)
          && (!v.loading && v.error.None? ==> Offered(run) == Some(v.resources))
          && (v.error.Some? ==> run.phase == Done(None, false)))
  }

  lemma InvStep(v: View, e: Event)
    requires Inv(v) && Enabled(v, e)
    ensures Inv(Apply(v, e))
  {
  }

  lemma {:induction false} InvRun(v: View, es: seq<Event>)
    requires Inv(v) && Valid(v, es)
    ensures Inv(Run(v, es))
    decreases |es|
  {
    if es != [] {
      InvStep(v, es[0]);
      InvRun(Apply(v, es[0]), es[1..]);
    }
  }

  predicate IsResponse(e: Event) {
    !e.Begin? && !e.Unmount?
  }

  /** In every run: a response to a cleaned-up effect run changes nothing that is shown. */
  lemma StaleResponsesChangeNothing(es: seq<Event>, e: Event)
    requires Valid(BLANK, es) && Enabled(Run(BLANK, es), e) && IsResponse(e)
    ensures var v := Run(BLANK, es);
            // every response but one to the newest run is stale
            && (e.r < |v.runs| - 1 ==> v.runs[e.r].cancelled)
            && (v.runs[e.r].cancelled ==>
                  Apply(v, e).resources == v.resources && Apply(v, e).error == v.error
                  && Apply(v, e).loading == v.loading)
  {
    InvRun(BLANK, es);
  }

  /** Once a run has started, a list that is shown without an error is that run's base or refined list. */
  lemma ShownIsCurrent(es: seq<Event>)
    requires Valid(BLANK, es)
    ensures var v := Run(BLANK, es);
            v.runs != [] && !v.runs[|v.runs| - 1].cancelled && !v.loading && v.error.None? ==>
              Offered(v.runs[|v.runs| - 1]) == Some(v.resources)
  {
    InvRun(BLANK, es);
  }

  /******* Which answer is shown, by the events alone *******/

  /** The run got its resources refined to this list, or got this list and nothing further. */
  ghost predicate Answers(es: seq<Event>, r: nat, list: seq<Meta>) {
    RefinedBy(r, list) in es || (Fetched(r, list) in es && Unrefined(es, r))
  }

  predicate Unrefined(es: seq<Event>, r: nat) {
    forall i :: 0 <= i < |es| && es[i].RefinedBy? ==> es[i].r != r
  }

  function Begins(es: seq<Event>): nat {
    if es == [] then 0 else Begins(es[..|es| - 1]) + if es[|es| - 1].Begin? then 1 else 0
  }

  /** The effect has begun and has not been cleaned up since. */
  predicate Mounted(es: seq<Event>) {
    es != [] && !es[|es| - 1].Unmount? && (es[|es| - 1].Begin? || Mounted(es[..|es| - 1]))
  }

  lemma {:induction false} RunMore(v: View, es: seq<Event>, e: Event)
    requires Valid(v, es + [e])
    ensures Valid(v, es) && Enabled(Run(v, es), e) && Run(v, es + [e]) == Apply(Run(v, es), e)
    decreases |es|
  {
    hide Enabled, Apply;
    if es == [] {
      assert es + [e] == [e] && [e][1..] == [];
      assert Run(v, [e]) == Run(Apply(v, e), []);
    } else {
      assert (es + [e])[1..] == es[1..] + [e];
      RunMore(Apply(v, es[0]), es[1..], e);
    }
  }

  /** It shows its refined list, or has dropped an answer and shows nothing. */
  predicate WasRefined(run: EffectRun) {
    run.phase.Done? && (run.phase.refined || run.phase.shown.None?)
  }

  /** What the runs have got so far is what the events say. */
  ghost predicate Traced(es: seq<Event>, v: View) {
    && |v.runs| == Begins(es)
    && (Mounted(es) ==> v.runs != [] && !v.runs[|v.runs| - 1].cancelled)
    && (forall i :: 0 <= i < |es| && es[i].RefinedBy? ==> es[i].r < |v.runs|)
    && (forall r :: 0 <= r < |v.runs| ==> TracedAt(es, v.runs[r], r))
  }

  ghost predicate TracedAt(es: seq<Event>, run: EffectRun, r: nat) {
    && (WasRefined(run) || Unrefined(es, r))
    && (Offered(run).Some? ==> Answers(es, r, Offered(run).value))
  }

  lemma UnrefinedMore(es: seq<Event>, e: Event, r: nat)
    ensures Unrefined(es + [e], r) <==> Unrefined(es, r) && !(e.RefinedBy? && e.r == r)
  {
    assert (es + [e])[|es|] == e && forall i :: 0 <= i < |es| ==> (es + [e])[i] == es[i];
  }

  lemma TracedStep(es: seq<Event>, v: View, e: Event)
    requires Traced(es, v) && Enabled(v, e)
    ensures Traced(es + [e], Apply(v, e))
  {
    hide Unrefined, TracedAt;
    var more, v' := es + [e], Apply(v, e);
    assert more[..|es|] == es && more[|es|] == e;
    forall i | 0 <= i < |more| && more[i].RefinedBy? ensures more[i].r < |v'.runs| {
      assert i < |es| ==> more[i] == es[i];
    }
    forall r | 0 <= r < |v'.runs| ensures TracedAt(more, v'.runs[r], r) {
      if r == |v.runs| {
        NeverRefined(es, r);
        UnrefinedMore(es, e, r);
        FetchingTraced(more, v'.runs[r], r);
      } else {
        TracedAtStep(es, v, e, r);
      }
    }
  }

  lemma TracedAtStep(es: seq<Event>, v: View, e: Event, r: nat)
    requires r < |v.runs| && TracedAt(es, v.runs[r], r) && Enabled(v, e)
    ensures r < |Apply(v, e).runs| && TracedAt(es + [e], Apply(v, e).runs[r], r)
  {
    hide Unrefined;
    UnrefinedMore(es, e, r);
    assert e in es + [e] && forall x :: x in es ==> x in es + [e];
  }

  lemma FetchingTraced(es: seq<Event>, run: EffectRun, r: nat)
    requires run.phase.Fetching? && Unrefined(es, r)
    ensures TracedAt(es, run, r)
  {
  }

  lemma NeverRefined(es: seq<Event>, r: nat)
    requires forall i :: 0 <= i < |es| && es[i].RefinedBy? ==> es[i].r < r
    ensures Unrefined(es, r)
  {
  }

  lemma {:induction false} TracedRun(es: seq<Event>)
    requires Valid(BLANK, es)
    ensures Traced(es, Run(BLANK, es))
  {
    if es != [] {
      var init, last := es[..|es| - 1], es[|es| - 1];
      assert es == init + [last];
      hide Traced, Apply, Enabled;
      RunMore(BLANK, init, last);
      TracedRun(init);
      TracedStep(init, Run(BLANK, init), last);
    }
  }

  /** While the effect is mounted, a list that is shown without an error is an answer to its newest run. */
  lemma ShownIsAnswer(es: seq<Event>)
    requires Valid(BLANK, es) && Mounted(es)
    ensures var v := Run(BLANK, es);
            !v.loading && v.error.None? ==> Begins(es) > 0 && Answers(es, Begins(es) - 1, v.resources)
  {
    hide Apply, Enabled, Run, Valid, Answers, Mounted;
    TracedRun(es);
    ShownIsCurrent(es);
  }

  /******* The component and its effect, as they change in place *******/

  /** One run of the effect; its cleanup sets the flag its callbacks look at. */
  class Effect {
    var cancelled: bool
    var phase: Phase

    constructor ()
      ensures !cancelled && phase == Fetching
    {
      cancelled, phase := false, Fetching;
    }

    function Seen(): EffectRun
      reads this
    {
      EffectRun(cancelled, phase)
    }
  }

  class Component {
    var resources: seq<Meta>
    var error: Option<string>
    var loading: bool
    var effects: seq<Effect>

    constructor ()
      ensures Separate() && Shown() == BLANK
    {
      resources, error, loading, effects := [], None, true, [];
    }

    ghost predicate Separate()
      reads this
    {
      forall i, j :: 0 <= i < j < |effects| ==> effects[i] != effects[j]
    }

    ghost function Shown(): View
      reads this, effects
    {
      View(resources, error, loading, seq(|effects|, i requires 0 <= i < |effects|
        reads this, effects => effects[i].Seen()))
    }

    method CleanUp()
      requires Separate()
      modifies effects
      ensures Separate() && Shown() == old(Apply(Shown(), Unmount))
    {
      if effects != [] {
        effects[|effects| - 1].cancelled := true;
      }
      assert Shown().runs == old(CleanedUp(Shown().runs));
    }

    method RunEffect()
      requires Separate()
      modifies this, effects
      ensures Separate() && Shown() == old(Apply(Shown(), Begin))
    {
      CleanUp();
      var effect := new Effect();
      effects := effects + [effect];
      loading, error := true, None;
      assert Shown().runs == old(CleanedUp(Shown().runs) + [EffectRun(false, Fetching)]);
    }

    method OnBindings(r: nat, bindings: seq<APIBinding>, collate: (string, string) -> int)
      requires Separate() && r < |effects| && effects[r].phase.Fetching?
      modifies this`resources, this`loading, effects[r]
      ensures Separate()
      ensures Shown() == old(Apply(Shown(), Fetched(r, Sorting.Sorted(Entries(Mentions(bindings)), Compare(collate)))))
      ensures if old(effects[r].cancelled) then resources == old(resources) && loading == old(loading)
              else Indexes(bindings, resources) && (Sorting.Orders(collate) ==> InOrder(resources, collate)) && !loading
    {
      hide Sorting.Sorted, Entries, Mentions, Compare, Indexes, InOrder, Sorting.Orders;
      if effects[r].cancelled {
        effects[r].phase := Done(None, false);
        assert Shown().runs == old(Shown().runs)[r := effects[r].Seen()];
        return;
      }
      var baseResources := BuildBaseAPIBindingResources(bindings, collate);
      resources, loading := baseResources, false;
      effects[r].phase := Refining(baseResources);
      assert Shown().runs == old(Shown().runs)[r := effects[r].Seen()];
    }

    method OnFetchError(r: nat, message: string)
      requires Separate() && r < |effects| && effects[r].phase.Fetching?
      modifies this`error, this`loading, effects[r]
      ensures Separate() && Shown() == old(Apply(Shown(), FetchFailed(r, message)))
      ensures if old(effects[r].cancelled) then error == old(error) && loading == old(loading)
              else error == Some(message) && !loading
    {
      effects[r].phase := Done(None, false);
      if !effects[r].cancelled {
        error, loading := Some(message), false;
      }
      assert Shown().runs == old(Shown().runs)[r := effects[r].Seen()];
    }

    method OnRefined(r: nat, d: map<string, Option<Discovered>>, collate: (string, string) -> int)
      requires Separate() && r < |effects| && effects[r].phase.Refining?
      modifies this`resources, effects[r]
      ensures Separate()
      ensures Shown() == old(Apply(Shown(), RefinedBy(r, MergeDiscovered(effects[r].phase.base, d, collate))))
      ensures if old(effects[r].cancelled) then resources == old(resources)
              else Merges(old(effects[r].phase).base, d, resources) &&
                   (Sorting.Orders(collate) ==> InOrder(resources, collate))
    {
      hide MergeDiscovered, Merges, InOrder, Sorting.Orders;
      MergeRefines(effects[r].phase.base, d, collate);
      var nextResources := MergeDiscovered(effects[r].phase.base, d, collate);
      if effects[r].cancelled {
        effects[r].phase := Done(None, false);
      } else {
        resources := nextResources;
        effects[r].phase := Done(Some(nextResources), true);
      }
      assert Shown().runs == old(Shown().runs)[r := effects[r].Seen()];
    }

    method OnRefineError(r: nat)
      requires Separate() && r < |effects| && effects[r].phase.Refining?
      modifies effects[r]
      ensures Separate() && Shown() == old(Apply(Shown(), RefineFailed(r)))
    {
      effects[r].phase := Done(Some(effects[r].phase.base), false);
      assert Shown().runs == old(Shown().runs)[r := effects[r].Seen()];
    }
  }
}
