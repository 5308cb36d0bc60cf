/** A whole Headlamp sync as code; whatever happens to the Secret meanwhile, it stays a run of HeadlampRuns. */
module HeadlampSync {
  import opened Basics
  import opened Headlamp
  import opened HeadlampRuns

  predicate IsOwn(p: nat, a: Action) {
    match a
    case Edit(_) => false
    case _ => a.p == p
  }

  class Provisioner {
    const st: Settings
    ghost const origin: State
    var s: State
    ghost var trace: seq<Action>

    /** The Secret and the processes are where the steps so far have brought them. */
    ghost predicate Valid()
      reads this
    {
      Init(origin) && HeadlampRuns.Valid(st, origin, trace) && Run(st, origin, trace) == s
    }

    constructor (st: Settings, s: State)
      requires Init(s)
      ensures Valid() && this.st == st && this.s == s && trace == []
    {
      this.st, this.s, this.origin, this.trace := st, s, s, [];
    }

    /** Any number of steps by other processes and by anybody else who writes the Secret. */
    method Others(p: nat)
      requires Valid() && p in s.procs
      modifies `s, `trace
      ensures Valid() && old(trace) <= trace && p in s.procs && s.procs[p] == old(s).procs[p]
    {
      var batch: seq<Action> := *;
      for i := 0 to |batch|
        invariant Valid() && old(trace) <= trace && p in s.procs && s.procs[p] == old(s).procs[p]
      {
        var a := batch[i];
        if Enabled(s, a) && !IsOwn(p, a) {
          RunAppend(st, origin, trace, a);
          hide Run, HeadlampRuns.Valid, Synced;
          s, trace := Apply(st, s, a), trace + [a];
        }
      }
    }

    /** Reads the Secret with its version. */
    method Get(p: nat) returns (rv: nat, raw: Raw)
      requires Valid() && p in s.procs
      modifies `s, `trace
      ensures Valid() && old(trace) <= trace && p in s.procs && s.procs[p] == Holding(rv, raw)
    {
      Others(p);
      RunAppend(st, origin, trace, Read(p));
      hide Run, HeadlampRuns.Valid;
      rv, raw := s.rv, s.raw;
      s, trace := s.(procs := s.procs[p := Holding(rv, raw)]), trace + [Read(p)];
    }

    /** Leaves the Secret as it is. */
    method Abandon(p: nat)
      requires Valid() && p in s.procs
      modifies `s, `trace
      ensures Valid() && trace == old(trace) + [GiveUp(p)] && s == old(s).(procs := old(s).procs[p := Idle])
    {
      RunAppend(st, origin, trace, GiveUp(p));
      hide Run, HeadlampRuns.Valid;
      s, trace := s.(procs := s.procs[p := Idle]), trace + [GiveUp(p)];
    }

    /** Writes the Secret back, unless its version has moved on. */
    method Update(p: nat, seen: nat, ghost raw: Raw, next: Kubeconfig, ghost x: Inputs)
      returns (ok: bool, ghost before: seq<Action>)
      requires Valid() && p in s.procs && s.procs[p] == Holding(seen, raw) && next == Synced(st, Load(raw), x)
      modifies `s, `trace
      ensures Valid() && old(trace) <= before && trace == before + [Write(p, x)]
      ensures HeadlampRuns.Valid(st, origin, before) && Enabled(Run(st, origin, before), Write(p, x))
      ensures ok <==> Succeeds(Run(st, origin, before), Write(p, x))
      ensures s == Apply(st, Run(st, origin, before), Write(p, x))
    {
      hide Synced, Load;
      Others(p);
      before := trace;
      RunAppend(st, origin, trace, Write(p, x));
      hide Run, HeadlampRuns.Valid;
      ok := s.rv == seen;
      if ok {
        s := s.(rv := s.rv + 1, raw := Parsed(next));
      }
      s, trace := s.(procs := s.procs[p := Idle]), trace + [Write(p, x)];
    }

    /**
     * A whole sync by process p; listable says whether the listing works, and the update may fail for any reason.
     * A sync that writes does it with its last step, and in that step replaces some content by what it makes of
     * exactly that content; a sync that does not leaves the Secret to the others.
     */
    method SyncHeadlamp(p: nat, x: Inputs, listable: bool) returns (wrote: bool, ghost before: seq<Action>)
      requires Valid() && p in s.procs
      modifies `s, `trace
      ensures Valid() && p in s.procs && s.procs[p].Idle?
      ensures old(trace) <= before && HeadlampRuns.Valid(st, origin, before)
      ensures trace == before + [Write(p, x)] || trace == before + [GiveUp(p)]
      ensures wrote ==> listable && trace == before + [Write(p, x)] && s.rv == Run(st, origin, before).rv + 1
      ensures wrote ==> s.raw == Parsed(Synced(st, Load(Run(st, origin, before).raw), x))
      ensures wrote ==> forall n :: SyncedAt(st, x, Load(Run(st, origin, before).raw), Load(s.raw), n)
      ensures wrote ==> Load(s.raw).current == Load(Run(st, origin, before).raw).current
      ensures !wrote ==> s.raw == Run(st, origin, before).raw && s.rv == Run(st, origin, before).rv
    {
      hide Synced, SyncedAt;
      var seen, raw := Get(p);
      if !listable {
        before := trace;
        Abandon(p);
        return false, before;
      }
      var next := Recomputed(st, raw, x);
      var sent: bool := *;
      if !sent {
        before := trace;
        Abandon(p);
        return false, before;
      }
      wrote, before := Update(p, seen, raw, next, x);
      if wrote {
        NoLostUpdate(st, origin, before, Write(p, x));
        var was := Run(st, origin, before).raw;
        forall n ensures SyncedAt(st, x, Load(was), Load(s.raw), n) {
          SyncedOutright(st, Load(was), x, n);
        }
        SyncedOutright(st, Load(was), x, "");
      }
    }
  }
}
