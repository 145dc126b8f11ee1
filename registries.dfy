/** The three registry dictionaries of ProviderFactory as one value, and what the loop of
    InitialiseProviders makes of them. */
module Registries {
  import opened Dictionaries
  import opened Collaborators

  /** `providerClasses`, `providers` and `providerThreads`. A `ProviderClassInfo` value may be
      null in C#, hence the Option. */
  datatype Registry = Registry(
    classes: Dict<ObjectInfo, Option<ClassInfo>>,
    providers: Dict<ObjectInfo, Service>,
    threads: Dict<ObjectInfo, Worker>)

  /** The three dictionaries enumerate the same keys in the same order. */
  ghost predicate Consistent(r: Registry) {
    && Valid(r.classes) && Valid(r.providers) && Valid(r.threads)
    && r.providers.keys == r.classes.keys
    && r.threads.keys == r.classes.keys
  }

  ghost function Keys(r: Registry): set<ObjectInfo> {
    r.classes.entries.Keys
  }

  function EmptyRegistry(): (r: Registry)
    ensures Consistent(r) && Keys(r) == {}
  {
    Registry(Empty(), Empty(), Empty())
  }

  /** A type is registered when building it does not throw and it yields a named descriptor. */
  predicate Admitted(t: ProviderType) {
    t.construction.Yields? && Named(t.construction.objectInfo)
  }

  /** Type t registers under descriptor info. */
  predicate RegistersAs(t: ProviderType, info: ObjectInfo) {
    Admitted(t) && t.construction.objectInfo.value == info
  }

  /** One iteration of the InitialiseProviders loop, for the type at position slot of the
      configuration: all three dictionaries are written, or none is. */
  function Register(r: Registry, t: ProviderType, slot: nat): (r': Registry)
    requires Consistent(r)
    ensures Consistent(r')
    ensures !Admitted(t) ==> r' == r
    ensures Admitted(t) ==> Keys(r') == Keys(r) + {t.construction.objectInfo.value}
  {
    if Admitted(t) then
      var info := t.construction.objectInfo.value;
      var provider := Service(t, slot);
      Registry(
        Put(r.classes, info, Some(ClassInfo(t))),
        Put(r.providers, info, provider),
        Put(r.threads, info, Worker(provider)))
    else
      r
  }

  /** The registry r after the loop has processed the first n configured types. */
  function RegisterAll(r: Registry, types: seq<ProviderType>, n: nat): (r': Registry)
    requires Consistent(r) && n <= |types|
    ensures Consistent(r')
    ensures Keys(r) <= Keys(r')
    decreases n
  {
    if n == 0 then r else Register(RegisterAll(r, types, n - 1), types[n - 1], n - 1)
  }

  /** The registry a new factory holds after InitialiseProviders. */
  function Initialised(types: seq<ProviderType>): (r: Registry)
    ensures Consistent(r)
  {
    RegisterAll(EmptyRegistry(), types, |types|)
  }

  /** The last of the first n types that registers as info, or -1 when none does. */
  function LastRegistering(types: seq<ProviderType>, n: nat, info: ObjectInfo): (j: int)
    requires n <= |types|
    ensures -1 <= j < n
    ensures j >= 0 ==> RegistersAs(types[j], info)
    ensures forall i :: j < i < n ==> !RegistersAs(types[i], info)
    decreases n
  {
    if n == 0 then -1
    else if RegistersAs(types[n - 1], info) then n - 1
    else LastRegistering(types, n - 1, info)
  }

  /** Every entry of every dictionary comes from the last type registering under its key;
      keys no such type mentions keep what r held. */
  lemma {:induction false} RegisterAllEntries(r: Registry, types: seq<ProviderType>, n: nat, info: ObjectInfo)
    requires Consistent(r) && n <= |types|
    ensures var r' := RegisterAll(r, types, n);
            var j := LastRegistering(types, n, info);
            && (info in Keys(r') <==> j >= 0 || info in Keys(r))
            && (j >= 0 ==>
                  && r'.classes.entries[info] == Some(ClassInfo(types[j]))
                  && r'.providers.entries[info] == Service(types[j], j)
                  && r'.threads.entries[info] == Worker(Service(types[j], j)))
            && (j < 0 && info in Keys(r) ==>
                  && r'.classes.entries[info] == r.classes.entries[info]
                  && r'.providers.entries[info] == r.providers.entries[info]
                  && r'.threads.entries[info] == r.threads.entries[info])
    decreases n
  {
    if n > 0 {
      RegisterAllEntries(r, types, n - 1, info);
      var prev := RegisterAll(r, types, n - 1);
      var t := types[n - 1];
      assert RegisterAll(r, types, n) == Register(prev, t, n - 1);
      if !Admitted(t) {
        assert LastRegistering(types, n, info) == LastRegistering(types, n - 1, info);
      } else if RegistersAs(t, info) {
        assert LastRegistering(types, n, info) == n - 1;
      } else {
        assert t.construction.objectInfo.value != info;
        assert LastRegistering(types, n, info) == LastRegistering(types, n - 1, info);
      }
    }
  }

  /** A type that throws, or yields a null or unnamed descriptor, changes nothing, and the
      types after it are still registered: the registry after the whole list is the one built
      from the registering types alone, wherever the skipped ones stand. */
  lemma {:induction false} SkippedTypesLeaveNoTrace(types: seq<ProviderType>, info: ObjectInfo)
    ensures info in Keys(Initialised(types)) <==>
              exists j :: 0 <= j < |types| && RegistersAs(types[j], info)
  {
    RegisterAllEntries(EmptyRegistry(), types, |types|, info);
    var j := LastRegistering(types, |types|, info);
    if info in Keys(Initialised(types)) {
      assert RegistersAs(types[j], info);
    }
  }

  /** A second type yielding a descriptor already registered overwrites all three entries with
      its own and the key order, hence the count, does not change. */
  lemma SecondRegistrationOverwrites(r: Registry, t1: ProviderType, s1: nat, t2: ProviderType, s2: nat)
    requires Consistent(r)
    requires Admitted(t1) && Admitted(t2)
    requires t1.construction.objectInfo == t2.construction.objectInfo
    ensures var once := Register(r, t1, s1);
            var twice := Register(once, t2, s2);
            var info := t2.construction.objectInfo.value;
            && twice.classes.keys == once.classes.keys
            && |Keys(twice)| == |Keys(once)|
            && twice.classes.entries[info] == Some(ClassInfo(t2))
            && twice.providers.entries[info] == Service(t2, s2)
            && twice.threads.entries[info] == Worker(Service(t2, s2))
  {
  }

  /** How many of the first n types register. */
  function AdmittedCount(types: seq<ProviderType>, n: nat): (c: nat)
    requires n <= |types|
    ensures c <= n
    decreases n
  {
    if n == 0 then 0 else AdmittedCount(types, n - 1) + (if Admitted(types[n - 1]) then 1 else 0)
  }

  /** No two registering types share a descriptor. */
  ghost predicate DistinctDescriptors(types: seq<ProviderType>) {
    forall i, j :: 0 <= i < j < |types| && Admitted(types[i]) && Admitted(types[j]) ==>
      types[i].construction.objectInfo != types[j].construction.objectInfo
  }

  /** With distinct descriptors, the n-th registering type finds its key not yet taken. */
  lemma FreshDescriptor(types: seq<ProviderType>, n: nat)
    requires 0 < n <= |types|
    requires DistinctDescriptors(types) && Admitted(types[n - 1])
    ensures types[n - 1].construction.objectInfo.value !in Keys(RegisterAll(EmptyRegistry(), types, n - 1))
  {
    var info := types[n - 1].construction.objectInfo.value;
    RegisterAllEntries(EmptyRegistry(), types, n - 1, info);
    var j := LastRegistering(types, n - 1, info);
    if j >= 0 {
      assert false;
    }
  }

  /** Of N configured types, M register: the dictionaries then hold at most M keys,
      exactly M when the registering types have distinct descriptors. */
  lemma {:induction false} InitialisedCount(types: seq<ProviderType>, n: nat)
    requires n <= |types|
    ensures var r := RegisterAll(EmptyRegistry(), types, n);
            && |Keys(r)| == |r.classes.keys| <= AdmittedCount(types, n)
            && (DistinctDescriptors(types) ==> |Keys(r)| == AdmittedCount(types, n))
    decreases n
  {
    var r := RegisterAll(EmptyRegistry(), types, n);
    EntryCount(r.classes);
    if n > 0 {
      InitialisedCount(types, n - 1);
      var prev := RegisterAll(EmptyRegistry(), types, n - 1);
      assert r == Register(prev, types[n - 1], n - 1);
      if DistinctDescriptors(types) && Admitted(types[n - 1]) {
        FreshDescriptor(types, n);
      }
    }
  }

  /** A registering type whose descriptor an earlier type already registered adds no key. */
  lemma RepeatAddsNoKey(types: seq<ProviderType>, n: nat, i: nat)
    requires i < n - 1 && n <= |types|
    requires Admitted(types[i]) && Admitted(types[n - 1])
    requires types[i].construction.objectInfo == types[n - 1].construction.objectInfo
    ensures Keys(RegisterAll(EmptyRegistry(), types, n)) == Keys(RegisterAll(EmptyRegistry(), types, n - 1))
  {
    var prev := RegisterAll(EmptyRegistry(), types, n - 1);
    var info := types[n - 1].construction.objectInfo.value;
    assert RegistersAs(types[i], info);
    RegisterAllEntries(EmptyRegistry(), types, n - 1, info);
    assert info in Keys(prev);
  }

  /** One more type adds at most one key. */
  lemma AtMostOneKeyMore(types: seq<ProviderType>, n: nat)
    requires 0 < n <= |types|
    ensures |Keys(RegisterAll(EmptyRegistry(), types, n))| <=
              |Keys(RegisterAll(EmptyRegistry(), types, n - 1))| + (if Admitted(types[n - 1]) then 1 else 0)
  {
    var prev := RegisterAll(EmptyRegistry(), types, n - 1);
    var t := types[n - 1];
    if Admitted(t) {
      var info := t.construction.objectInfo.value;
      assert Keys(Register(prev, t, n - 1)) == Keys(prev) + {info};
    }
  }

  /** Two registering types among the first n that share a descriptor leave fewer keys than
      registering types: the later one overwrites instead of adding. */
  lemma {:induction false} SharedDescriptorLosesKey(types: seq<ProviderType>, n: nat, i: nat, j: nat)
    requires i < j < n <= |types|
    requires Admitted(types[i]) && Admitted(types[j])
    requires types[i].construction.objectInfo == types[j].construction.objectInfo
    ensures |Keys(RegisterAll(EmptyRegistry(), types, n))| < AdmittedCount(types, n)
    decreases n
  {
    if j == n - 1 {
      RepeatAddsNoKey(types, n, i);
      InitialisedCount(types, n - 1);
    } else {
      SharedDescriptorLosesKey(types, n - 1, i, j);
      AtMostOneKeyMore(types, n);
    }
  }

  /** The key count equals the number of registering types exactly when their descriptors are
      distinct. */
  lemma ExactCountIffDistinct(types: seq<ProviderType>)
    ensures |Keys(Initialised(types))| == AdmittedCount(types, |types|) <==> DistinctDescriptors(types)
  {
    InitialisedCount(types, |types|);
    if !DistinctDescriptors(types) {
      var i, j :| 0 <= i < j < |types| && Admitted(types[i]) && Admitted(types[j]) &&
                  types[i].construction.objectInfo == types[j].construction.objectInfo;
      SharedDescriptorLosesKey(types, |types|, i, j);
    }
  }

  /** InitialiseProviders never stores a null ProviderClassInfo. */
  lemma {:induction false} NoNullClassInfo(r: Registry, types: seq<ProviderType>, n: nat, info: ObjectInfo)
    requires Consistent(r) && n <= |types|
    requires forall k :: k in r.classes.entries ==> r.classes.entries[k].Some?
    requires info in Keys(RegisterAll(r, types, n))
    ensures RegisterAll(r, types, n).classes.entries[info].Some?
  {
    RegisterAllEntries(r, types, n, info);
  }
}
