/** The calls `shutdown` makes: `Finalise()` on every provider in `providers.Keys` order, then
    `Abort()` on every thread in `providerThreads.Keys` order, each in its own try/catch, so
    an exception from one item is logged and the pass goes on with the next. */
module Shutdown {
  import opened Dictionaries
  import opened Collaborators
  import opened Registries

  /** The first pass: one Finalise call per provider, whatever each call does. */
  function FinalisePass(providers: Dict<ObjectInfo, Service>, finalise: Service -> Outcome): (calls: seq<Call>)
    requires Valid(providers)
    ensures |calls| == |providers.keys|
    ensures forall i :: 0 <= i < |calls| ==>
              calls[i] == Finalise(providers.keys[i], finalise(providers.entries[providers.keys[i]]))
  {
    seq(|providers.keys|, i requires 0 <= i < |providers.keys| =>
      Finalise(providers.keys[i], finalise(providers.entries[providers.keys[i]])))
  }

  /** The second pass: one Abort call per thread, whatever each call does. */
  function AbortPass(threads: Dict<ObjectInfo, Worker>, abort: Worker -> Outcome): (calls: seq<Call>)
    requires Valid(threads)
    ensures |calls| == |threads.keys|
    ensures forall i :: 0 <= i < |calls| ==>
              calls[i] == Abort(threads.keys[i], abort(threads.entries[threads.keys[i]]))
  {
    seq(|threads.keys|, i requires 0 <= i < |threads.keys| =>
      Abort(threads.keys[i], abort(threads.entries[threads.keys[i]])))
  }

  /** The calls shutdown makes on a factory holding registry r. */
  function ShutdownCalls(r: Registry, finalise: Service -> Outcome, abort: Worker -> Outcome): seq<Call>
    requires Consistent(r)
  {
    FinalisePass(r.providers, finalise) + AbortPass(r.threads, abort)
  }

  /** Which item a call was made on, forgetting how the call ended. */
  function Target(c: Call): (ObjectInfo, bool)
    requires !c.ArmTimer?
  {
    (c.info, c.Finalise?)
  }

  /** The first |Keys(r)| calls are the Finalise pass, the rest the Abort pass. */
  lemma {:induction false} ShutdownPhases(r: Registry, finalise: Service -> Outcome, abort: Worker -> Outcome)
    requires Consistent(r)
    ensures var calls := ShutdownCalls(r, finalise, abort);
            && |calls| == 2 * |Keys(r)|
            && forall i :: 0 <= i < |calls| ==> (calls[i].Finalise? <==> i < |Keys(r)|) && !calls[i].ArmTimer?
  {
    var fp, ap := FinalisePass(r.providers, finalise), AbortPass(r.threads, abort);
    var calls := fp + ap;
    EntryCount(r.classes);
    forall i | 0 <= i < |calls|
      ensures (calls[i].Finalise? <==> i < |fp|) && !calls[i].ArmTimer?
    {
      if i < |fp| {
        assert calls[i] == fp[i];
      } else {
        assert calls[i] == ap[i - |fp|];
      }
    }
  }

  /** Every Finalise precedes every Abort, and nothing but these two kinds is called. */
  lemma FinaliseBeforeAbort(r: Registry, finalise: Service -> Outcome, abort: Worker -> Outcome)
    requires Consistent(r)
    ensures var calls := ShutdownCalls(r, finalise, abort);
            && |calls| == 2 * |Keys(r)|
            && (forall i :: 0 <= i < |calls| ==> !calls[i].ArmTimer?)
            && (forall i, j :: 0 <= i < |calls| && 0 <= j < |calls| && calls[i].Finalise? && calls[j].Abort? ==> i < j)
  {
    ShutdownPhases(r, finalise, abort);
  }

  /** Every registered descriptor gets a Finalise attempt on its provider and an Abort attempt
      on its thread. */
  lemma ShutdownAttemptsEveryProvider(r: Registry, finalise: Service -> Outcome, abort: Worker -> Outcome, info: ObjectInfo)
    requires Consistent(r) && info in Keys(r)
    ensures var calls := ShutdownCalls(r, finalise, abort);
            && (exists i :: 0 <= i < |calls| && calls[i] == Finalise(info, finalise(r.providers.entries[info])))
            && (exists j :: 0 <= j < |calls| && calls[j] == Abort(info, abort(r.threads.entries[info])))
  {
    var fp, ap := FinalisePass(r.providers, finalise), AbortPass(r.threads, abort);
    var calls := fp + ap;
    var m := |fp|;
    assert calls == ShutdownCalls(r, finalise, abort);
    var i :| 0 <= i < |r.classes.keys| && r.classes.keys[i] == info;
    assert r.providers.keys[i] == info && r.threads.keys[i] == info;
    assert calls[i] == fp[i] == Finalise(info, finalise(r.providers.entries[info]));
    assert calls[m + i] == ap[i] == Abort(info, abort(r.threads.entries[info]));
  }

  /** A provider that throws from Finalise or Abort does not keep any other from being
      attempted: the items attempted, and their order, do not depend on the outcomes. */
  lemma ShutdownIgnoresFailures(r: Registry, f1: Service -> Outcome, a1: Worker -> Outcome,
                                f2: Service -> Outcome, a2: Worker -> Outcome)
    requires Consistent(r)
    ensures var c1 := ShutdownCalls(r, f1, a1);
            var c2 := ShutdownCalls(r, f2, a2);
            && |c1| == |c2|
            && forall i :: 0 <= i < |c1| ==> !c1[i].ArmTimer? && !c2[i].ArmTimer? && Target(c1[i]) == Target(c2[i])
  {
    var c1 := ShutdownCalls(r, f1, a1);
    var c2 := ShutdownCalls(r, f2, a2);
    var m := |r.classes.keys|;
    forall i | 0 <= i < |c1|
      ensures !c1[i].ArmTimer? && !c2[i].ArmTimer? && Target(c1[i]) == Target(c2[i])
    {
      if i < m {
        assert c1[i] == FinalisePass(r.providers, f1)[i];
        assert c2[i] == FinalisePass(r.providers, f2)[i];
      } else {
        assert c1[i] == AbortPass(r.threads, a1)[i - m];
        assert c2[i] == AbortPass(r.threads, a2)[i - m];
      }
    }
  }
}
