/** The parts of javax.jdo.JDOHelper around the jdoconfig reader: the
    order-preserving getObjectIds mappings, and the argument checks and
    routing of the getPersistenceManagerFactory / getPersistenceUnit
    entry points. Class loading, reflection and the JPA bridge are given
    as function-valued inputs. */
module JdoHelper {
  import opened Wrappers
  import opened JavaString
  import opened JdoConfig
  import opened JdoConfigProofs

  // ---------------------------------------------------------------------
  // getObjectIds

  /** The object ids of `pcs`, one per instance and in the same order;
      `objectId` stands for JDOHelper.getObjectId. */
  function ObjectIds<T, I>(objectId: T -> I, pcs: seq<T>): seq<I>
    decreases |pcs|
  {
    if |pcs| == 0 then [] else ObjectIds(objectId, pcs[..|pcs| - 1]) + [objectId(pcs[|pcs| - 1])]
  }

  /** There is one id per instance, the i-th being the id of the i-th
      instance. */
  lemma {:induction false} ObjectIdsPointwise<T, I>(objectId: T -> I, pcs: seq<T>)
    ensures |ObjectIds(objectId, pcs)| == |pcs|
    ensures forall i :: 0 <= i < |pcs| ==> ObjectIds(objectId, pcs)[i] == objectId(pcs[i])
    decreases |pcs|
  {
    if |pcs| > 0 {
      ObjectIdsPointwise(objectId, pcs[..|pcs| - 1]);
    }
  }

  /** The mapping preserves order: the ids of two consecutive runs of
      instances are the ids of the first run followed by those of the
      second. */
  lemma {:induction false} ObjectIdsAppend<T, I>(objectId: T -> I, xs: seq<T>, ys: seq<T>)
    ensures ObjectIds(objectId, xs + ys) == ObjectIds(objectId, xs) + ObjectIds(objectId, ys)
    decreases |ys|
  {
    if |ys| > 0 {
      var init := ys[..|ys| - 1];
      assert (xs + ys)[..|xs + ys| - 1] == xs + init;
      assert (xs + ys)[|xs + ys| - 1] == ys[|ys| - 1];
      ObjectIdsAppend(objectId, xs, init);
    } else {
      assert xs + ys == xs;
    }
  }

  /** getObjectIds(Collection): the ids in the iteration order of `pcs`. */
  method GetObjectIdsOfCollection<T, I>(objectId: T -> I, pcs: seq<T>) returns (result: seq<I>)
    ensures result == ObjectIds(objectId, pcs)
    ensures |result| == |pcs| && forall i :: 0 <= i < |pcs| ==> result[i] == objectId(pcs[i])
  {
    result := [];
    var i := 0;
    while i < |pcs|
      invariant 0 <= i <= |pcs|
      invariant result == ObjectIds(objectId, pcs[..i])
    {
      assert pcs[..i + 1][..i] == pcs[..i];
      result := result + [objectId(pcs[i])];
      i := i + 1;
    }
    assert pcs[..i] == pcs;
    ObjectIdsPointwise(objectId, pcs);
  }

  /** getObjectIds(Object[]): a new array of the same length whose i-th
      element is the id of the i-th instance. */
  method GetObjectIdsOfArray<T, I(0)>(objectId: T -> I, pcs: array<T>) returns (result: array<I>)
    ensures fresh(result) && result.Length == pcs.Length
    ensures result[..] == ObjectIds(objectId, pcs[..])
  {
    result := new I[pcs.Length];
    for i := 0 to pcs.Length
      invariant forall k :: 0 <= k < i ==> result[k] == objectId(pcs[k])
    {
      result[i] := objectId(pcs[i]);
    }
    ObjectIdsPointwise(objectId, pcs[..]);
  }

  // ---------------------------------------------------------------------
  // getPersistenceManagerFactory and getPersistenceUnit

  /** The factory object an implementation class returns, by identity. */
  type FactoryRef = nat

  /** What the PMF class loader gives: the static
      getPersistenceManagerFactory(Map) of the named implementation class,
      reached by reflection (its failures included), and the JPA
      EntityManagerFactory bridge for a named unit. */
  datatype PmfLoader = PmfLoader(
    invokeFactory: (string, Properties) -> Result<FactoryRef, JdoFailure>,
    factoryFromEmf: string -> Result<Option<FactoryRef>, JdoFailure>)

  /** A properties resource looked up by name. */
  datatype PropertiesResource = NotFound | Loaded(properties: Properties) | LoadFailed

  /** What the resource class loader finds: properties resources by name,
      and the META-INF/jdoconfig.xml resources. */
  datatype ResourceLoader = ResourceLoader(
    propertiesResource: string -> PropertiesResource,
    jdoconfigResources: seq<ConfigResource>)

  /** getPersistenceManagerFactory(Map, ClassLoader): the factory class is
      named by the javax.jdo.PersistenceManagerFactoryClass property; without
      it the call is a fatal user error and no class is loaded. */
  function GetPersistenceManagerFactoryFromProperties(props: Properties, pmfLoader: PmfLoader): (r: Result<FactoryRef, JdoFailure>)
    ensures PropertyPersistenceManagerFactoryClass !in props ==> r == Failure(FatalUser(GetPMFNoClassNameProperty))
    ensures PropertyPersistenceManagerFactoryClass in props ==>
              r == pmfLoader.invokeFactory(props[PropertyPersistenceManagerFactoryClass], props)
  {
    if PropertyPersistenceManagerFactoryClass !in props then Failure(FatalUser(GetPMFNoClassNameProperty))
    else pmfLoader.invokeFactory(props[PropertyPersistenceManagerFactoryClass], props)
  }

  /** getPersistenceUnit: the factory of the JDO unit `name` when a jdoconfig
      resource defines it; otherwise none for the anonymous unit, and the
      JPA bridge for a named one. */
  function GetPersistenceUnit(name: string, resourceLoader: ResourceLoader, pmfLoader: PmfLoader): Result<Option<FactoryRef>, JdoFailure> {
    var properties :- PersistenceUnitProperties(Some(name), resourceLoader.jdoconfigResources);
    if properties.Some? then
      var pmf :- GetPersistenceManagerFactoryFromProperties(properties.value, pmfLoader);
      Success(Some(pmf))
    else if name == "" then Success(None)
    else pmfLoader.factoryFromEmf(name)
  }

  /** getPersistenceManagerFactory(String, ClassLoader, ClassLoader): both
      loaders are required (the resource loader is checked first); a
      properties resource called `name` is used when there is one, and
      otherwise `name` (trimmed, "" for null) is a persistence unit name. */
  function GetPersistenceManagerFactory(name: Option<string>, resourceLoader: Option<ResourceLoader>, pmfLoader: Option<PmfLoader>): (r: Result<FactoryRef, JdoFailure>)
    ensures resourceLoader.None? ==> r == Failure(FatalUser(GetPMFNullPropsLoader))
    ensures resourceLoader.Some? && pmfLoader.None? ==> r == Failure(FatalUser(GetPMFNullPMFLoader))
    ensures resourceLoader.Some? && pmfLoader.Some? && name.Some? ==>
              match resourceLoader.value.propertiesResource(name.value)
              case Loaded(props) => r == GetPersistenceManagerFactoryFromProperties(props, pmfLoader.value)
              case LoadFailed => r == Failure(FatalUser(GetPMFIOExceptionRsrc(name.value)))
              case NotFound => true
    ensures resourceLoader.Some? && pmfLoader.Some? && (name.None? || resourceLoader.value.propertiesResource(name.value).NotFound?) ==>
              var unit := GetPersistenceUnit(if name.None? then "" else Trim(name.value), resourceLoader.value, pmfLoader.value);
              (unit.Failure? ==> r == Failure(unit.error))
              && (unit.Success? && unit.value.None? ==> r == Failure(FatalUser(NoPMFConfigurableViaPropertiesOrXML(name))))
              && (r.Success? <==> unit.Success? && unit.value.Some?)
              && (r.Success? ==> unit.value == Some(r.value))
  {
    if resourceLoader.None? then Failure(FatalUser(GetPMFNullPropsLoader))
    else if pmfLoader.None? then Failure(FatalUser(GetPMFNullPMFLoader))
    else
      var resource := if name.Some? then resourceLoader.value.propertiesResource(name.value) else NotFound;
      match resource
      case LoadFailed => Failure(FatalUser(GetPMFIOExceptionRsrc(name.value)))
      case Loaded(props) => GetPersistenceManagerFactoryFromProperties(props, pmfLoader.value)
      case NotFound =>
        var pmf :- GetPersistenceUnit(if name.None? then "" else Trim(name.value), resourceLoader.value, pmfLoader.value);
        if pmf.Some? then Success(pmf.value)
        else Failure(FatalUser(NoPMFConfigurableViaPropertiesOrXML(name)))
  }

  /** The anonymous unit that no jdoconfig resource defines is not
      configured: getPersistenceUnit answers null without asking the JPA
      bridge... */
  lemma AnonymousUnitWithoutConfig(resourceLoader: ResourceLoader, pmfLoader: PmfLoader)
    requires SameUrlSameDocument(resourceLoader.jdoconfigResources)
    requires forall k :: 0 <= k < |resourceLoader.jdoconfigResources| ==>
               ResourceUnits(resourceLoader.jdoconfigResources[k], "").Success? &&
               !Defines(resourceLoader.jdoconfigResources[k], "")
    ensures GetPersistenceUnit("", resourceLoader, pmfLoader) == Success(None)
  {
    TrimOfTrimmed("");
    PersistenceUnitPropertiesSpec(Some(""), resourceLoader.jdoconfigResources);
  }

  /** ...so getPersistenceManagerFactory without a name fails with the
      not-configurable error. */
  lemma NoNameWithoutConfig(resourceLoader: ResourceLoader, pmfLoader: PmfLoader)
    requires SameUrlSameDocument(resourceLoader.jdoconfigResources)
    requires forall k :: 0 <= k < |resourceLoader.jdoconfigResources| ==>
               ResourceUnits(resourceLoader.jdoconfigResources[k], "").Success? &&
               !Defines(resourceLoader.jdoconfigResources[k], "")
    ensures GetPersistenceManagerFactory(None, Some(resourceLoader), Some(pmfLoader)) ==
            Failure(FatalUser(NoPMFConfigurableViaPropertiesOrXML(None)))
  {
    AnonymousUnitWithoutConfig(resourceLoader, pmfLoader);
  }

  /** A unit that jdoconfig resources define under one URL is made by the
      factory class its properties name, from those properties. */
  lemma ConfiguredUnitFactory(name: string, resourceLoader: ResourceLoader, pmfLoader: PmfLoader, k: int)
    requires IsTrimmed(name)
    requires SameUrlSameDocument(resourceLoader.jdoconfigResources)
    requires forall j :: 0 <= j < |resourceLoader.jdoconfigResources| ==> ResourceUnits(resourceLoader.jdoconfigResources[j], name).Success?
    requires forall i, j :: (0 <= i < |resourceLoader.jdoconfigResources| && 0 <= j < |resourceLoader.jdoconfigResources| &&
                             Defines(resourceLoader.jdoconfigResources[i], name) && Defines(resourceLoader.jdoconfigResources[j], name)) ==>
               resourceLoader.jdoconfigResources[i].url == resourceLoader.jdoconfigResources[j].url
    requires 0 <= k < |resourceLoader.jdoconfigResources| && Defines(resourceLoader.jdoconfigResources[k], name)
    ensures var props := ResourceUnits(resourceLoader.jdoconfigResources[k], name).value[name];
            GetPersistenceUnit(name, resourceLoader, pmfLoader) ==
              match GetPersistenceManagerFactoryFromProperties(props, pmfLoader)
              case Failure(e) => Failure(e)
              case Success(pmf) => Success(Some(pmf))
  {
    TrimOfTrimmed(name);
    PersistenceUnitPropertiesSpec(Some(name), resourceLoader.jdoconfigResources);
  }
}
