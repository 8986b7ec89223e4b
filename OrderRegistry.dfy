/** OrderFactoryRegistry of the TCK order model: a single slot holding
    the currently registered order factory, which falls back to the
    default singleton. The class's static state (the class name chosen at
    class initialisation, the singleton and the slot) is the state of a
    `Registry` object. */
module OrderRegistry {
  import opened Wrappers

  /** An order factory, by identity; never null in the slot. */
  type FactoryRef = nat

  /** A PersistenceManager, by identity, handed on to the factory's
      constructor. */
  type PmRef = nat

  /** The system property that names the factory class. */
  const FactoryPropertyName: string := "jdo.tck.mapping.companyfactory"

  /** The factory class used when that property is unset or empty. */
  const DefaultFactoryClassName: string := "org.apache.jdo.tck.pc.order.OrderFactoryConcreteClass"

  /** FACTORY_CLASS_NAME: the system property when it is set to a
      non-empty string, the default class name otherwise. */
  function FactoryClassName(systemProperty: Option<string>): (r: string)
    ensures r != ""
    ensures systemProperty.Some? && systemProperty.value != "" ==> r == systemProperty.value
    ensures systemProperty.None? || systemProperty.value == "" ==> r == DefaultFactoryClassName
  {
    if systemProperty.None? || |systemProperty.value| == 0 then DefaultFactoryClassName else systemProperty.value
  }

  /** Why reflective construction of a named factory fails: the class is
      not found, has no public (PersistenceManager) constructor, the
      constructor fails, or the object is not an OrderFactory. */
  datatype ReflectionError = ClassNotFound | NoSuchConstructor | ConstructorFailed | NotAnOrderFactory

  /** What a failed registration throws: a RuntimeException with the
      message and the reflective failure as its cause. */
  datatype RegistryException = RuntimeException(message: string, cause: ReflectionError)

  /** The message of that exception for the class `name`. */
  function UnableToConstruct(name: string): string {
    "Unable to construct OrderFactory " + name
  }

  class Registry {
    /** FACTORY_CLASS_NAME, fixed at class initialisation. */
    const factoryClassName: string
    /** SINGLETON: the default factory. */
    const singleton: FactoryRef
    /** The currently registered factory. */
    var instance: FactoryRef

    /** Class initialisation: the class name from the system property and
        the singleton registered. */
    constructor (systemProperty: Option<string>, defaultFactory: FactoryRef)
      ensures factoryClassName == FactoryClassName(systemProperty)
      ensures singleton == defaultFactory && instance == defaultFactory
    {
      factoryClassName := FactoryClassName(systemProperty);
      singleton := defaultFactory;
      instance := defaultFactory;
    }

    /** getInstance: the registered factory. */
    method GetInstance() returns (factory: FactoryRef)
      ensures factory == instance
    {
      factory := instance;
    }

    /** registerFactory(): the default factory again. */
    method RegisterDefaultFactory()
      modifies this
      ensures instance == singleton
    {
      instance := singleton;
    }

    /** registerFactory(OrderFactory): the given factory, or the singleton
        for null, so the slot never holds null. */
    method RegisterFactory(factory: Option<FactoryRef>)
      modifies this
      ensures factory.Some? ==> instance == factory.value
      ensures factory.None? ==> instance == singleton
    {
      instance := if factory.Some? then factory.value else singleton;
    }

    /** registerFactory(String, PersistenceManager): a null class name
        registers the singleton; otherwise the factory the named class's
        (PersistenceManager) constructor makes, which `construct` stands
        for. A failed construction throws and leaves the slot as it was. */
    method RegisterNamedFactory(factoryClass: Option<string>, pm: PmRef,
                                construct: (string, PmRef) -> Result<FactoryRef, ReflectionError>)
      returns (outcome: Outcome<RegistryException>)
      modifies this
      ensures factoryClass.None? ==> outcome == Pass && instance == singleton
      ensures factoryClass.Some? && construct(factoryClass.value, pm).Success? ==>
                outcome == Pass && instance == construct(factoryClass.value, pm).value
      ensures factoryClass.Some? && construct(factoryClass.value, pm).Failure? ==>
                outcome == Fail(RuntimeException(UnableToConstruct(factoryClass.value), construct(factoryClass.value, pm).error))
                && instance == old(instance)
    {
      var factory: Option<FactoryRef> := None;
      if factoryClass.Some? {
        var made := construct(factoryClass.value, pm);
        if made.Failure? {
          return Fail(RuntimeException(UnableToConstruct(factoryClass.value), made.error));
        }
        factory := Some(made.value);
      }
      RegisterFactory(factory);
      return Pass;
    }

    /** registerFactory(PersistenceManager): the class named by
        FACTORY_CLASS_NAME. */
    method RegisterFactoryOfPm(pm: PmRef, construct: (string, PmRef) -> Result<FactoryRef, ReflectionError>)
      returns (outcome: Outcome<RegistryException>)
      modifies this
      ensures construct(factoryClassName, pm).Success? ==>
                outcome == Pass && instance == construct(factoryClassName, pm).value
      ensures construct(factoryClassName, pm).Failure? ==>
                outcome == Fail(RuntimeException(UnableToConstruct(factoryClassName), construct(factoryClassName, pm).error))
                && instance == old(instance)
    {
      outcome := RegisterNamedFactory(Some(factoryClassName), pm, construct);
    }
  }

  /** Whatever was registered, registerFactory() brings back the factory a
      fresh registry starts with. */
  method ResetRestoresInitial(systemProperty: Option<string>, defaultFactory: FactoryRef, factory: Option<FactoryRef>)
    returns (before: FactoryRef, after: FactoryRef)
    ensures before == after == defaultFactory
  {
    var registry := new Registry(systemProperty, defaultFactory);
    before := registry.GetInstance();
    registry.RegisterFactory(factory);
    registry.RegisterDefaultFactory();
    after := registry.GetInstance();
  }

  /** A failed registration is invisible to getInstance: it answers the
      factory registered before. */
  method FailedRegistrationKeepsFactory(registry: Registry, name: string, pm: PmRef,
                                        construct: (string, PmRef) -> Result<FactoryRef, ReflectionError>)
    returns (before: FactoryRef, after: FactoryRef)
    requires construct(name, pm).Failure?
    modifies registry
    ensures before == after
  {
    before := registry.GetInstance();
    var outcome := registry.RegisterNamedFactory(Some(name), pm, construct);
    after := registry.GetInstance();
  }
}
