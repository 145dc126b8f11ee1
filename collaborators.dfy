/** The values ProviderFactory handles without owning them: descriptors, configured provider
    types and what building them does, the instances and threads it keeps, and the calls it
    makes into providers, threads and timers. Reflection, threads and timers are not modelled
    as such; each is the value or the outcome the factory observes. */
module Collaborators {
  import opened Int32

  datatype Option<T> = None | Some(value: T)

  /** ModelObjectInfo: the model-object type a provider serves, named by its object name
      (a null name is folded into the empty string: both fail the same test). */
  datatype ObjectInfo = ObjectInfo(objectName: string)

  /** The test `objectInfo != null && StringUtils.NotEmpty(objectInfo.GetObjectName())`, with
      NotEmpty taken as "of length greater than 0" (no trimming of whitespace). */
  predicate Named(objectInfo: Option<ObjectInfo>) {
    objectInfo.Some? && |objectInfo.value.objectName| > 0
  }

  /** What building a configured type does: `new ProviderClassInfo(type, ...)`,
      `GetClassInstance(null)` and `GetMultiObjectClassInfo()` either throw, or yield an
      instance whose descriptor may be null. */
  datatype Construction = Fails | Yields(objectInfo: Option<ObjectInfo>)

  /** An entry of `ProviderSettings.Classes`. */
  datatype ProviderType = ProviderType(fullName: string, construction: Construction)

  /** A `ProviderClassInfo`: the reflection handle that instantiates one provider type. */
  datatype ClassInfo = ClassInfo(providerType: ProviderType)

  /** The `IService` instance built for the slot-th configured type. */
  datatype Service = Service(providerType: ProviderType, slot: nat)

  /** `new Thread(new ThreadStart(provider.Run))`: a thread bound to one instance's Run. */
  datatype Worker = Worker(run: Service)

  /** Whether a call into a provider or a thread returned or threw. */
  datatype Outcome = Returns | Raises

  /** The two settings ProviderFactory reads. */
  datatype Settings = Settings(classes: seq<ProviderType>, startupDelay: int32)

  /** A call the factory makes into the world outside it:
      arming a one-shot `System.Threading.Timer` that starts a thread after dueTime ms,
      `Finalise()` on a provider, `Abort()` on a thread. */
  datatype Call =
    | ArmTimer(thread: Worker, dueTime: int32)
    | Finalise(info: ObjectInfo, finaliseOutcome: Outcome)
    | Abort(info: ObjectInfo, abortOutcome: Outcome)
}
