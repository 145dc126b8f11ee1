/** ProviderFactory: the process-wide registry of providers. Its instance state is the three
    registry dictionaries (class ProviderFactory); its static state is the lazily built
    `factory` slot (class FactoryStatics), together with the record of the calls the factory
    has made into timers, providers and threads. */
module ProviderFactories {
  import opened Int32
  import opened Dictionaries
  import opened Collaborators
  import opened Registries
  import opened Schedule
  import opened Shutdown

  /** Why GetProvider returned null, as its log messages tell apart. */
  datatype NullReason = MissingObjectName | InstantiationFailed | NoKnownProvider

  /** What GetProvider does: return a new instance of the registered class, return null, or
      let the KeyNotFoundException of `providerClasses[objectInfo]` escape to the caller. */
  datatype Resolution =
    | NewInstance(of: ClassInfo)
    | Null(reason: NullReason)
    | ThrowsKeyNotFound

  class ProviderFactory {
    /** Known providers that can be instantiated for request/response handling. */
    var providerClasses: Dict<ObjectInfo, Option<ClassInfo>>
    /** Providers running in the background for event publishing. */
    var providers: Dict<ObjectInfo, Service>
    var providerThreads: Dict<ObjectInfo, Worker>

    function State(): Registry
      reads this
    {
      Registry(providerClasses, providers, providerThreads)
    }

    ghost predicate Valid()
      reads this
    {
      Consistent(State())
    }

    /** The private constructor up to its call of StartProviders: empty dictionaries, then
        InitialiseProviders over the configured classes. */
    constructor (classes: seq<ProviderType>)
      ensures Valid()
      ensures State() == Initialised(classes)
    {
      providerClasses := Empty();
      providers := Empty();
      providerThreads := Empty();
      new;
      InitialiseProviders(classes);
    }

    /** For each configured type in order: build it and read its descriptor; with a named
        descriptor write all three dictionaries, otherwise (or on any exception) skip it. */
    method InitialiseProviders(classes: seq<ProviderType>)
      requires Valid()
      modifies this
      ensures Valid()
      ensures State() == RegisterAll(old(State()), classes, |classes|)
    {
      var k := 0;
      while k < |classes|
        invariant 0 <= k <= |classes|
        invariant Valid()
        invariant State() == RegisterAll(old(State()), classes, k)
      {
        var t := classes[k];
        match t.construction {
          case Fails =>
            // "Cannot create Provider Class": logged, the loop goes on
          case Yields(objectInfo) =>
            if Named(objectInfo) {
              var provider := Service(t, k);
              providerClasses := Put(providerClasses, objectInfo.value, Some(ClassInfo(t)));
              providers := Put(providers, objectInfo.value, provider);
              providerThreads := Put(providerThreads, objectInfo.value, Worker(provider));
            }
        }
        k := k + 1;
      }
    }

    /** Arms one timer per thread in `providerThreads.Values` order, the k-th due `i * delay`
        ms with i = 1000 * k. Returns the timers armed and whether the loop finished: it stops
        where `new Timer` throws on a refused due time, with the earlier timers still armed. */
    method StartProviders(delay: int32) returns (timers: seq<Call>, ok: bool)
      requires Valid()
      ensures timers == Arming(Values(providerThreads), delay)
      ensures ok <==> |timers| == |providerThreads.keys|
    {
      var threads := Values(providerThreads);
      var i: int32 := 0;
      var k := 0;
      timers := [];
      while k < |threads|
        invariant 0 <= k <= |threads|
        invariant i == Counter(k)
        invariant |timers| == k
        invariant forall j :: 0 <= j < k ==> TimerAccepts(DueTime(j, delay))
        invariant forall j :: 0 <= j < k ==> timers[j] == ArmTimer(threads[j], DueTime(j, delay))
      {
        var dueTime := Wrap32(i * delay);
        assert dueTime == DueTime(k, delay);
        if !TimerAccepts(dueTime) {
          // ArgumentOutOfRangeException from the Timer constructor
          assert FirstRejected(|threads|, delay) == k;
          return timers, false;
        }
        timers := timers + [ArmTimer(threads[k], dueTime)];
        CounterStep(k);
        i := Wrap32(i + 1000);
        k := k + 1;
      }
      assert FirstRejected(|threads|, delay) == k;
      ok := true;
    }

    /** The provider class registered for objectInfo, instantiated on demand. The outcome of
        that reflective instantiation is given as a parameter. */
    function GetProvider(objectInfo: Option<ObjectInfo>, instantiation: Outcome): (r: Resolution)
      reads this
      ensures r == Null(MissingObjectName) <==> !Named(objectInfo)
      ensures r == ThrowsKeyNotFound <==> Named(objectInfo) && objectInfo.value !in providerClasses.entries
      ensures r == Null(NoKnownProvider) <==>
                Named(objectInfo) && Get(providerClasses, objectInfo.value) == Found(None)
      ensures r.NewInstance? <==>
                && Named(objectInfo) && instantiation == Returns
                && objectInfo.value in providerClasses.entries
                && providerClasses.entries[objectInfo.value].Some?
      ensures r.NewInstance? ==> providerClasses.entries[objectInfo.value] == Some(r.of)
    {
      if Named(objectInfo) then
        match Get(providerClasses, objectInfo.value)
        case KeyNotFound => ThrowsKeyNotFound
        case Found(classInfo) =>
          if classInfo.None? then Null(NoKnownProvider)
          else if instantiation == Returns then NewInstance(classInfo.value)
          else Null(InstantiationFailed)
      else
        Null(MissingObjectName)
    }
  }

  /** On a factory built from `types`, GetProvider with a named descriptor resolves to the last
      configured type that registered under it, returns null when instantiating it throws,
      throws when no type registered under it, and never reports "No known provider". */
  lemma GetProviderOnInitialised(f: ProviderFactory, types: seq<ProviderType>, info: ObjectInfo, instantiation: Outcome)
    requires f.State() == Initialised(types)
    requires |info.objectName| > 0
    ensures var j := LastRegistering(types, |types|, info);
            f.GetProvider(Some(info), instantiation) ==
              if j < 0 then ThrowsKeyNotFound
              else if instantiation == Raises then Null(InstantiationFailed)
              else NewInstance(ClassInfo(types[j]))
    ensures f.GetProvider(Some(info), instantiation) != Null(NoKnownProvider)
  {
    var registry := Initialised(types);
    RegisterAllEntries(EmptyRegistry(), types, |types|, info);
    assert f.providerClasses == registry.classes;
    var j := LastRegistering(types, |types|, info);
    if j < 0 {
      assert Get(f.providerClasses, info) == KeyNotFound;
    } else {
      assert Get(f.providerClasses, info) == Found(Some(ClassInfo(types[j])));
    }
  }

  /** The static members of ProviderFactory: the `factory` slot, and the record of the calls
      made into timers, providers and threads so far. */
  class FactoryStatics {
    var factory: ProviderFactory?
    var calls: seq<Call>

    ghost predicate Valid()
      reads this, factory
    {
      factory != null ==> factory.Valid()
    }

    /** `factory = null` before first use. */
    constructor ()
      ensures Valid() && factory == null && calls == []
    {
      factory := null;
      calls := [];
    }

    /** What one attempt at `new ProviderFactory()` leaves behind, with `config` the settings
        it reads (None: reading them throws). A fresh factory holding the initialised registry
        is stored when every timer was armed; otherwise the slot stays null. The timers armed
        before a failure stay armed either way. */
    twostate predicate ConstructedFrom(config: Option<Settings>)
      reads this, factory
    {
      match config
      case None => factory == null && calls == old(calls)
      case Some(settings) =>
        var registry := Initialised(settings.classes);
        var timers := Arming(Values(registry.threads), settings.startupDelay);
        && calls == old(calls) + timers
        && (factory != null <==> |timers| == |registry.threads.keys|)
        && (factory != null ==> fresh(factory) && factory.State() == registry)
    }

    /** Returns the factory when there is one, without building anything; otherwise tries once
        to build it, keeping null when construction throws so that a later call retries. */
    method CreateFactory(config: Option<Settings>) returns (r: ProviderFactory?)
      requires Valid()
      modifies this
      ensures Valid()
      ensures r == factory
      ensures old(factory) != null ==> factory == old(factory) && calls == old(calls)
      ensures old(factory) == null ==> ConstructedFrom(config)
    {
      if factory == null {
        match config {
          case None =>
            // reading ProviderSettings threw: "Failed to initialise provider factory"
          case Some(settings) =>
            var f := new ProviderFactory(settings.classes);
            var timers, ok := f.StartProviders(settings.startupDelay);
            calls := calls + timers;
            factory := if ok then f else null;
        }
      }
      r := factory;
    }

    /** The existing factory when there is one, otherwise whatever CreateFactory makes. */
    method GetInstance(config: Option<Settings>) returns (r: ProviderFactory?)
      requires Valid()
      modifies this
      ensures Valid()
      ensures r == factory
      ensures old(factory) != null ==> factory == old(factory) && calls == old(calls)
      ensures old(factory) == null ==> ConstructedFrom(config)
    {
      if factory == null {
        r := CreateFactory(config);
        return;
      }
      r := factory;
    }

    /** Finalise on every provider, then Abort on every thread, each call isolated from the
        others' failures; with no factory nothing is called. The slot is not reset, so a
        second shutdown repeats every call. */
    method Shutdown(finalise: Service -> Outcome, abort: Worker -> Outcome)
      requires Valid()
      modifies this
      ensures Valid()
      ensures factory == old(factory)
      ensures factory == null ==> calls == old(calls)
      ensures factory != null ==> calls == old(calls) + ShutdownCalls(factory.State(), finalise, abort)
    {
      if factory != null {
        FinaliseProviders(factory, finalise);
        AbortThreads(factory, abort);
      }
    }

    /** The first foreach of shutdown: `Finalise()` on each provider in `providers.Keys` order;
        an exception is logged and the loop goes on. */
    method FinaliseProviders(f: ProviderFactory, finalise: Service -> Outcome)
      requires f.Valid()
      modifies this`calls
      ensures calls == old(calls) + FinalisePass(f.providers, finalise)
    {
      ghost var pass := FinalisePass(f.providers, finalise);
      var keys := f.providers.keys;
      var k := 0;
      while k < |keys|
        invariant 0 <= k <= |keys|
        invariant calls == old(calls) + pass[..k]
      {
        var info := keys[k];
        var outcome := finalise(f.providers.entries[info]);
        calls := calls + [Finalise(info, outcome)];
        assert pass[..k + 1] == pass[..k] + [pass[k]];
        k := k + 1;
      }
      assert pass[..k] == pass;
    }

    /** The second foreach of shutdown: `Abort()` on each thread in `providerThreads.Keys`
        order; an exception is logged and the loop goes on. */
    method AbortThreads(f: ProviderFactory, abort: Worker -> Outcome)
      requires f.Valid()
      modifies this`calls
      ensures calls == old(calls) + AbortPass(f.providerThreads, abort)
    {
      ghost var pass := AbortPass(f.providerThreads, abort);
      var keys := f.providerThreads.keys;
      var k := 0;
      while k < |keys|
        invariant 0 <= k <= |keys|
        invariant calls == old(calls) + pass[..k]
      {
        var info := keys[k];
        var outcome := abort(f.providerThreads.entries[info]);
        calls := calls + [Abort(info, outcome)];
        assert pass[..k + 1] == pass[..k] + [pass[k]];
        k := k + 1;
      }
      assert pass[..k] == pass;
    }
  }
}
