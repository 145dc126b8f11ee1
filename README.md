# ProviderFactory: provider registry and lifecycle, in Dafny

This project models `ProviderFactory` of the SIF 3 framework for .NET. ProviderFactory is the process-wide registry of providers:

- It is a lazily built singleton (`createFactory`, `getInstance`).
- When built, it reads the configured provider types. For each type it builds an instance and reads the instance's `ModelObjectInfo` descriptor. It registers the type in three dictionaries keyed by that descriptor: `providerClasses`, `providers` and `providerThreads` (`InitialiseProviders`).
- It then schedules every provider thread to start after a staggered delay (`StartProviders`).
- It instantiates a registered class on demand for request/response handling (`GetProvider`).
- On shutdown it finalises every provider and then aborts every thread (`shutdown`). Each call is made best-effort.

## Layout

- `int32.dfy` (module `Int32`): C# `int` and the wrap-around of unchecked arithmetic.
- `dictionaries.dfy` (module `Dictionaries`): a .NET `Dictionary` that entries are only ever put into. It is a key sequence in first-insertion order plus a map; `Keys` and `Values` are taken to enumerate in that order (see "## Left out"). The indexer read (`Get`) reports a missing key as `KeyNotFound`. The indexer write (`Put`) overwrites a present key in place.
- `collaborators.dfy` (module `Collaborators`): descriptors, configured provider types and what building them does, instances, threads, settings, and the calls the factory makes into timers, providers and threads.
- `registries.dfy` (module `Registries`): the three dictionaries as one value, one iteration of the registration loop (`Register`), the whole loop (`RegisterAll`, `Initialised`), and the lemmas about them.
- `schedule.dfy` (module `Schedule`): the timer due times of StartProviders and the timers it arms.
- `shutdown.dfy` (module `Shutdown`): the calls shutdown makes, and the lemmas about them.
- `provider_factory.dfy` (module `ProviderFactories`): two imperative classes. `ProviderFactory` holds the three dictionaries and runs the loops of `InitialiseProviders` and `StartProviders`. `FactoryStatics` holds the static `factory` slot with `CreateFactory`, `GetInstance` and `Shutdown`. Each method is proved against the specification functions above.

## How the collaborators are represented

- **Reflection.** A configured type is a value whose `construction` says what building it does. Building means `new ProviderClassInfo(type, ...)`, `GetClassInstance(null)` and `GetMultiObjectClassInfo()`. Either some step throws (`Fails`), or it yields a descriptor, which may be null. The outcome of on-demand instantiation in GetProvider is a parameter.
- **Instances.** The instance built for the k-th configured type is `Service(type, k)`. The thread bound to its `Run` is `Worker(Service(type, k))`.
- **Descriptor key.** The key is `ObjectInfo(objectName)`, compared by value. A null object name is folded into the empty string. `StringUtils.NotEmpty` is taken to reject exactly these two (see "## Left out").
- **Settings.** `ProviderSettings` is an input: the class list and `StartupDelay`. `None` stands for the settings throwing when read.
- **Calls.** Arming a timer, `Finalise()` and `Abort()` are recorded, in order, in the `calls` sequence of `FactoryStatics`. The outcome of each Finalise and Abort (returned or threw) comes from a function parameter.
- **Timers.** `new Timer(..., dueTime, Timeout.Infinite)` accepts a due time of 0 or more, or -1. It throws `ArgumentOutOfRangeException` on any other negative value. That exception escapes `StartProviders`, so the constructor throws too.

## Behaviour the model makes explicit

- **Start schedule.** The counter `i` steps by 1000 per thread, and `delay` is in seconds. So the due time `i * delay` of the k-th thread is k·delay seconds, written in milliseconds. For a delay of zero or more whose last thread's due time fits in an `int`, the due times are 0, 1000·delay, 2000·delay … ms (`ArmingAll`). They are never -1, so every armed timer fires (`DueTimeNeverInfinite`).
- **Construction can fail after arming timers.** With two or more providers, a `StartupDelay` from -2147483 to -1, or the delay 2147484 (whose second due time wraps to -2147483296), throws from the second `new Timer`. The factory then stays null, but the first thread's timer is already armed (`NegativeDelayArmsOnlyFirst`, `OverflowingDelayArmsOnlyFirst`, `FactoryStatics.ConstructedFrom`). Other overflowing delays wrap to due times of either sign: -2147484 and 4294968 give accepted second due times, 2147483296 ms and 704 ms (`WrappedDelayArmsBoth`). Whether a timer is refused is decided by `FirstRejected` in every case.
- **Absent key.** `GetProvider` on a named descriptor with no registered key throws `KeyNotFoundException`; it does not return null. Its "No known provider" branch needs a key stored with a null value, and `InitialiseProviders` never stores one (`NoNullClassInfo`, `GetProviderOnInitialised`).
- **Key count.** N configured types of which M register give at most M keys, and exactly M if and only if the registering types' descriptors are distinct (`InitialisedCount`, `ExactCountIffDistinct`). A later type with the same descriptor overwrites all three entries (`InitialisedCount`, `SecondRegistrationOverwrites`).

Four facts about the code that the model keeps:

- The counter steps by 1000 because `delay` is in seconds and the Timer due time is in milliseconds.
- `factory` is never reset, so a second shutdown repeats every Finalise and Abort call (`FactoryStatics.Shutdown`).
- An unknown descriptor throws `KeyNotFoundException` (see "Absent key" above).
- The only lifecycle state is the null / non-null `factory` slot.

## Model

| member | source | states |
|---|---|---|
| `Dictionaries.Get` | Code/Sif3Framework/Sif.Framework/Providers/ProviderFactory.cs:118 | the indexer read finds exactly the present keys, with their values; an absent key yields KeyNotFound, never a null value |
| `Dictionaries.Put` | Code/Sif3Framework/Sif.Framework/Providers/ProviderFactory.cs:171-177 | the indexer write keeps each key enumerated once; a present key keeps its place and takes the new value, an absent key is enumerated last |
| `Dictionaries.Values` | Code/Sif3Framework/Sif.Framework/Providers/ProviderFactory.cs:198 | `Values` lists one value per key, in key enumeration order |
| `Int32.Wrap32` | Code/Sif3Framework/Sif.Framework/Providers/ProviderFactory.cs:202-203 | the int result of unchecked arithmetic is in the 32-bit range and congruent to the exact value mod 2^32, and equal to it when that fits |
| `Registries.Register` | Code/Sif3Framework/Sif.Framework/Providers/ProviderFactory.cs:159-188 | one loop iteration keeps the three dictionaries on identical key sequences; a type that throws or has a null or unnamed descriptor leaves all three unchanged; otherwise the key set grows by exactly its descriptor |
| `Registries.RegisterAll` | Code/Sif3Framework/Sif.Framework/Providers/ProviderFactory.cs:156-189 | after any number of iterations the three dictionaries still enumerate identical keys, and no key is ever lost |
| `Registries.LastRegistering` | Code/Sif3Framework/Sif.Framework/Providers/ProviderFactory.cs:156-178 | picks the last of the first n types that registers under a descriptor (-1 when none does) |
| `Registries.RegisterAllEntries` | Code/Sif3Framework/Sif.Framework/Providers/ProviderFactory.cs:156-189 | a descriptor is a key afterwards iff some processed type registered under it (or it was there before); all three entries then come from the last such type: its class info, its instance, the thread running that instance |
| `Registries.SkippedTypesLeaveNoTrace` | Code/Sif3Framework/Sif.Framework/Providers/ProviderFactory.cs:156-189 | a descriptor is registered after the whole list exactly when some type anywhere in the list registers under it, so skipped types neither add keys nor stop later types |
| `Registries.SecondRegistrationOverwrites` | Code/Sif3Framework/Sif.Framework/Providers/ProviderFactory.cs:171-177 | a second type with the same descriptor leaves key order and count unchanged and replaces all three entries with its own |
| `Registries.FreshDescriptor` | Code/Sif3Framework/Sif.Framework/Providers/ProviderFactory.cs:166-178 | with distinct descriptors, every registering type finds its key still free |
| `Registries.InitialisedCount` | Code/Sif3Framework/Sif.Framework/Providers/ProviderFactory.cs:166-178 | the key count never exceeds the number of registering types, and equals it when their descriptors are distinct |
| `Registries.SharedDescriptorLosesKey` | Code/Sif3Framework/Sif.Framework/Providers/ProviderFactory.cs:166-178 | two registering types with the same descriptor leave fewer keys than registering types |
| `Registries.ExactCountIffDistinct` | Code/Sif3Framework/Sif.Framework/Providers/ProviderFactory.cs:156-189 | the key count equals the number of registering types if and only if their descriptors are distinct |
| `Registries.NoNullClassInfo` | Code/Sif3Framework/Sif.Framework/Providers/ProviderFactory.cs:161-171 | the loop stores a non-null ProviderClassInfo for every key it writes |
| `Schedule.FirstRejected` | Code/Sif3Framework/Sif.Framework/Providers/ProviderFactory.cs:198-204 | the index of the first thread whose due time the Timer refuses: every earlier due time is accepted, this one is not |
| `Schedule.Arming` | Code/Sif3Framework/Sif.Framework/Providers/ProviderFactory.cs:198-204 | the timers armed are those of the threads before the first refused one, each with its own due time |
| `Schedule.CounterStep` | Code/Sif3Framework/Sif.Framework/Providers/ProviderFactory.cs:203 | `i += 1000` in int arithmetic keeps i equal to the wrapped 1000·k |
| `Schedule.DueTimeNeverInfinite` | Code/Sif3Framework/Sif.Framework/Providers/ProviderFactory.cs:197-203 | no due time equals Timeout.Infinite, whatever the delay and thread count |
| `Schedule.ScheduleInSeconds` | Code/Sif3Framework/Sif.Framework/Providers/ProviderFactory.cs:194-203 | for a delay of zero or more seconds, the k-th due time is k·delay seconds in milliseconds while that fits in an int |
| `Schedule.ScheduleMonotone` | Code/Sif3Framework/Sif.Framework/Providers/ProviderFactory.cs:194-203 | for a delay of zero or more, while the later thread's due time 1000·k·delay fits in an int, due times are non-negative and never decrease from one thread to the next |
| `Schedule.ArmingAll` | Code/Sif3Framework/Sif.Framework/Providers/ProviderFactory.cs:194-204 | for a delay of zero or more whose last thread's due time 1000·(n−1)·delay fits in an int, exactly one timer is armed per thread, in thread order, the k-th due 1000·k·delay ms |
| `Schedule.OnlyFirstArmed` | Code/Sif3Framework/Sif.Framework/Providers/ProviderFactory.cs:198-204 | when the second due time is refused, only the first thread's timer (due 0) is armed before the throw |
| `Schedule.NegativeDelayArmsOnlyFirst` | Code/Sif3Framework/Sif.Framework/Providers/ProviderFactory.cs:200-203 | a delay from -2147483 to -1 with two or more threads arms only the first timer, then the Timer constructor throws |
| `Schedule.WrappedDelayArmsBoth` | Code/Sif3Framework/Sif.Framework/Providers/ProviderFactory.cs:200-203 | delays of -2147484 s and 4294968 s wrap the second due time to the accepted 2147483296 ms and 704 ms, so both timers are armed |
| `Schedule.OverflowingDelayArmsOnlyFirst` | Code/Sif3Framework/Sif.Framework/Providers/ProviderFactory.cs:200-203 | a delay of 2147484 s overflows the second due time to a negative int, with the same outcome |
| `Shutdown.FinalisePass` | Code/Sif3Framework/Sif.Framework/Providers/ProviderFactory.cs:68-79 | one Finalise call per provider key, in key order, each on that key's provider |
| `Shutdown.AbortPass` | Code/Sif3Framework/Sif.Framework/Providers/ProviderFactory.cs:82-93 | one Abort call per thread key, in key order, each on that key's thread |
| `Shutdown.ShutdownPhases` | Code/Sif3Framework/Sif.Framework/Providers/ProviderFactory.cs:65-94 | shutdown makes two calls per registered descriptor: first all Finalise calls, then all Abort calls |
| `Shutdown.FinaliseBeforeAbort` | Code/Sif3Framework/Sif.Framework/Providers/ProviderFactory.cs:65-94 | every Finalise attempt precedes every Abort attempt, and shutdown makes no other kind of call |
| `Shutdown.ShutdownAttemptsEveryProvider` | Code/Sif3Framework/Sif.Framework/Providers/ProviderFactory.cs:68-93 | every registered descriptor gets a Finalise on its provider and an Abort on its thread |
| `Shutdown.ShutdownIgnoresFailures` | Code/Sif3Framework/Sif.Framework/Providers/ProviderFactory.cs:68-93 | which items are attempted, and in what order, does not depend on any Finalise or Abort throwing |
| `ProviderFactories.ProviderFactory.constructor` | Code/Sif3Framework/Sif.Framework/Providers/ProviderFactory.cs:147-150 | a new factory holds exactly the registry the registration loop builds from empty dictionaries |
| `ProviderFactories.ProviderFactory.InitialiseProviders` | Code/Sif3Framework/Sif.Framework/Providers/ProviderFactory.cs:154-190 | the loop keeps the three dictionaries consistent and ends in the registry RegisterAll describes |
| `ProviderFactories.ProviderFactory.StartProviders` | Code/Sif3Framework/Sif.Framework/Providers/ProviderFactory.cs:192-205 | arms exactly the timers Arming describes over `providerThreads.Values`; it completes iff every thread got a timer |
| `ProviderFactories.ProviderFactory.GetProvider` | Code/Sif3Framework/Sif.Framework/Providers/ProviderFactory.cs:113-142 | null iff the descriptor is null or unnamed, a key stored with null, or instantiation throws; KeyNotFound iff a named descriptor is absent; otherwise a new instance of exactly the stored class |
| `ProviderFactories.GetProviderOnInitialised` | Code/Sif3Framework/Sif.Framework/Providers/ProviderFactory.cs:113-178 | on a built factory, a named descriptor resolves to the last type registered under it, to null when instantiation throws, to KeyNotFound when no type registered under it, and never to "No known provider" |
| `ProviderFactories.FactoryStatics.constructor` | Code/Sif3Framework/Sif.Framework/Providers/ProviderFactory.cs:26 | the slot starts null and no call has been made |
| `ProviderFactories.FactoryStatics.CreateFactory` | Code/Sif3Framework/Sif.Framework/Providers/ProviderFactory.cs:36-56 | an existing factory is returned, with nothing rebuilt or called; otherwise one construction attempt stores a fresh factory holding the initialised registry iff every timer was armed, and null otherwise; armed timers stay recorded either way |
| `ProviderFactories.FactoryStatics.GetInstance` | Code/Sif3Framework/Sif.Framework/Providers/ProviderFactory.cs:104-111 | returns the existing factory untouched, otherwise behaves as CreateFactory |
| `ProviderFactories.FactoryStatics.Shutdown` | Code/Sif3Framework/Sif.Framework/Providers/ProviderFactory.cs:61-97 | with no factory, no call is made; otherwise exactly the ShutdownCalls sequence is made; the slot is left as it was |
| `ProviderFactories.FactoryStatics.FinaliseProviders` | Code/Sif3Framework/Sif.Framework/Providers/ProviderFactory.cs:67-79 | the first foreach makes exactly the FinalisePass calls, none skipped after a failure |
| `ProviderFactories.FactoryStatics.AbortThreads` | Code/Sif3Framework/Sif.Framework/Providers/ProviderFactory.cs:81-93 | the second foreach makes exactly the AbortPass calls, none skipped after a failure |

## Left out

- Threads themselves are not modelled: creating a thread, `Thread.Start` when a timer fires, and what `Abort` does to a running provider. A timer is the call that arms it; there is no concurrency.
- The `lock (locked)` mutual exclusion is not modelled, nor `getInstance`'s unlocked read of `factory`. Every operation runs alone.
- A `Timer` that nothing references may be garbage collected before it fires. This is not modelled; an armed timer is taken to fire.
- log4net logging and `Process.GetCurrentProcess().Threads.Count` are left out (diagnostics). The log messages only name the three reasons a GetProvider result is null.
- Reflection is reduced to its outcome: the body of `ProviderClassInfo.GetClassInstance` is not part of this model. So is the loading of `ProviderSettings`, which is an input.
- `ModelObjectInfo` equality and hashing are not part of this model. The key is compared by object name.
- `Collaborators.Named`: the body of `StringUtils.NotEmpty` is not part of this model. It is taken as "non-null and of length greater than 0", so whitespace handling is not modelled: a whitespace-only name such as " " registers in the model, which it would not if the helper trims.
- The enumeration order of `Dictionary.Keys` and `Dictionary.Values` is unspecified for .NET. The model fixes it to first-insertion order, which is what the implementation does when nothing is removed. The pairing of threads with due times in `StartProviders` and the call order of shutdown both rest on this choice.
- The `IService` contract (`Run`, `Finalise`, `GetMultiObjectClassInfo`) is not modelled beyond the outcomes the factory sees.
- `ProviderFactories.ProviderFactory.constructor` covers only the first half of the private constructor (InitialiseProviders). The call to StartProviders, and the exception that can end it, are modelled in `CreateFactory`, because a Dafny constructor cannot throw. The Dafny factory object is therefore dropped, rather than never produced, when construction fails.
- Exceptions that could come from inside the loops but outside the per-item try blocks are not modelled, for example from a type's `FullName` or from enumerating `settings.Classes`. Reading the settings is treated as one step that either throws before any provider is built or yields the whole list.
- The functional-service interface (job and phase operations), the NHibernate session factory and the demo console consumer are not part of this model. They declare no behaviour of the registry.
