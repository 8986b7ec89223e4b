/** The loops of the jdoconfig reader in javax.jdo.JDOHelper, each proved
    to compute the specification function of the same name in JdoConfig. */
module JdoConfigReader {
  import opened Wrappers
  import opened JavaString
  import opened JdoConfig
  import opened JdoConfigProofs

  /** readPropertiesFromPMFElementAttributes. */
  method ReadPropertiesFromPMFElementAttributes(pmfElement: Node) returns (p: Properties)
    ensures p == AttributeProperties(AttributesOf(pmfElement))
  {
    p := map[];
    var attributes := AttributesOf(pmfElement);
    var i := 0;
    while i < |attributes|
      invariant 0 <= i <= |attributes|
      invariant p == AttributeProperties(attributes[..i])
    {
      var att := attributes[i];
      var attName := att.name;
      var attValue := Trim(att.value);
      assert attributes[..i + 1][..i] == attributes[..i];
      assert AttributeProperties(attributes[..i + 1]) == p[XrefName(attName) := attValue];
      p := p[XrefName(attName) := attValue];
      i := i + 1;
    }
    assert attributes[..i] == attributes;
  }

  /** readPropertiesFromPMFSubelements. */
  method ReadPropertiesFromPMFSubelements(pmfElement: Node, url: string) returns (r: Result<Properties, JdoFailure>)
    ensures r == SubelementProperties(ChildrenOf(pmfElement), url)
  {
    var p: Properties := map[];
    var elements := ChildrenOf(pmfElement);
    var i := 0;
    while i < |elements|
      invariant 0 <= i <= |elements|
      invariant SubelementProperties(elements[..i], url) == Success(p)
    {
      var element := elements[i];
      FoldLeftStepsAt(SubelementStep(url), map[], elements, i, p);
      if element.Element? {
        var elementName := element.tag;
        var attributes := element.attributes;
        if EqualsIgnoreCase(ElementProperty, elementName) {
          var nameAtt := GetNamedItem(attributes, PropertyAttributeName);
          if nameAtt.None? {
            FoldLeftFailsAt(SubelementStep(url), map[], elements, i, p);
            return Failure(FatalUser(PropertyElementHasNoNameAttribute(url)));
          }
          var name := Trim(nameAtt.value);
          if name == "" {
            FoldLeftFailsAt(SubelementStep(url), map[], elements, i, p);
            return Failure(FatalUser(PropertyElementNameAttributeHasNoValue(url)));
          }
          var propertyName := XrefName(name);
          if propertyName in p {
            FoldLeftFailsAt(SubelementStep(url), map[], elements, i, p);
            return Failure(FatalUser(DuplicatePropertyNameGivenInPropertyElement(propertyName, url)));
          }
          var valueAtt := GetNamedItem(attributes, PropertyAttributeValue);
          var value := if valueAtt.None? then None else Some(Trim(valueAtt.value));
          var put := Put(p, propertyName, value);
          if put.Failure? {
            FoldLeftFailsAt(SubelementStep(url), map[], elements, i, p);
            return Failure(put.error);
          }
          p := put.value;
        } else if elementName == ElementInstanceLifecycleListener {
          var listenerAtt := GetNamedItem(attributes, ListenerAttributeListener);
          if listenerAtt.None? {
            FoldLeftFailsAt(SubelementStep(url), map[], elements, i, p);
            return Failure(FatalUser(MissingListenerAttribute(url)));
          }
          var listener := Trim(listenerAtt.value);
          if listener == "" {
            FoldLeftFailsAt(SubelementStep(url), map[], elements, i, p);
            return Failure(FatalUser(MissingListenerAttributeValue(url)));
          }
          listener := PropertyPrefixInstanceLifecycleListener + listener;
          var classesAtt := GetNamedItem(attributes, ListenerAttributeClasses);
          var value := if classesAtt.None? then None else Some(Trim(classesAtt.value));
          var put := Put(p, listener, value);
          if put.Failure? {
            FoldLeftFailsAt(SubelementStep(url), map[], elements, i, p);
            return Failure(put.error);
          }
          p := put.value;
        }
      }
      i := i + 1;
    }
    assert elements[..i] == elements;
    return Success(p);
  }

  /** readPersistenceUnitProperties, on a resource that has already been
      opened and parsed into `doc`. */
  method ReadPersistenceUnitProperties(url: string, requestedPersistenceUnitName: Option<string>, doc: Document)
    returns (r: Result<map<string, Properties>, JdoFailure>)
    ensures r == ConfigUnits(url, requestedPersistenceUnitName, doc)
  {
    var requested := if requestedPersistenceUnitName.None? then "" else Trim(requestedPersistenceUnitName.value);
    var root: Node;
    match doc {
      case IOFailure => return Failure(FatalUser(GetPMFIOExceptionRsrc(url)));
      case ParserConfigFailure => return Failure(FatalInternal(ParserConfigException));
      case SAXParseFailure(line, column) => return Failure(FatalUser(SAXParseException(url, line, column)));
      case SAXFailure => return Failure(FatalUser(SAXException(url)));
      case Parsed(documentElement) =>
        if documentElement.None? {
          return Failure(FatalUser(InvalidJDOConfigNoRoot(url)));
        }
        root := documentElement.value;
    }
    var propertiesByName: map<string, Properties> := map[];
    var pmfs := ElementsByTagName(ChildrenOf(root), ElementPersistenceManagerFactory);
    for i := 0 to |pmfs|
      invariant FactoryUnits(pmfs[..i], requested, url) == Success(propertiesByName)
    {
      var pmfElement := pmfs[i];
      FoldLeftStepsAt(UnitStep(requested, url), map[], pmfs, i, propertiesByName);
      var step := ReadUnit(propertiesByName, pmfElement, requested, url);
      if step.Failure? {
        FoldLeftFailsAt(UnitStep(requested, url), map[], pmfs, i, propertiesByName);
        return Failure(WrapRuntimeFailure(step.error, url));
      }
      propertiesByName := step.value;
    }
    assert pmfs[..|pmfs|] == pmfs;
    return Success(propertiesByName);
  }

  /** The body of the loop of readPersistenceUnitProperties: one
      persistence-manager-factory element added to the units read so far. */
  method ReadUnit(propertiesByName: map<string, Properties>, pmfElement: Node, requested: string, url: string)
    returns (r: Result<map<string, Properties>, JdoFailure>)
    ensures r == ReadUnitInto(propertiesByName, pmfElement, requested, url)
  {
    var pmfPropertiesFromAttributes := ReadPropertiesFromPMFElementAttributes(pmfElement);
    var fromSubelements := ReadPropertiesFromPMFSubelements(pmfElement, url);
    if fromSubelements.Failure? {
      return Failure(fromSubelements.error);
    }
    var pmfPropertiesFromElements := fromSubelements.value;
    var puNameFromAtts := Lookup(pmfPropertiesFromAttributes, PropertyPersistenceUnitName);
    var puNameFromElem := Lookup(pmfPropertiesFromElements, PropertyPersistenceUnitName);
    var puName: string;
    if NullOrBlank(puNameFromAtts) {
      if !NullOrBlank(puNameFromElem) {
        puName := puNameFromElem.value;
      } else {
        puName := "";
      }
    } else {
      if !NullOrBlank(puNameFromElem) {
        return Failure(FatalUser(DuplicatePersistenceUnitNamePropertyFoundWithinUnitConfig(
          puNameFromAtts.value, puNameFromElem.value, url)));
      }
      puName := puNameFromAtts.value;
    }
    puName := Trim(puName);
    assert SelectUnitName(puNameFromAtts, puNameFromElem, url) == Success(puName);
    ReadFactoryElementSteps(pmfElement, requested, url, pmfPropertiesFromAttributes, pmfPropertiesFromElements, puName);

    if requested == puName {
      var keys := pmfPropertiesFromAttributes.Keys;
      while keys != {}
        invariant keys <= pmfPropertiesFromAttributes.Keys
        invariant forall k :: k in pmfPropertiesFromAttributes && k !in keys ==> k !in pmfPropertiesFromElements.Values
        decreases keys
      {
        var property :| property in keys;
        if property in pmfPropertiesFromElements.Values {
          return Failure(FatalUser(DuplicatePropertyFound(puName, url)));
        }
        keys := keys - {property};
      }
    }

    var pmfProps := pmfPropertiesFromAttributes + pmfPropertiesFromElements;
    if puName == requested && puName in propertiesByName {
      return Failure(FatalUser(DuplicateRequestedPersistenceUnitFoundInSameConfig(puName, url)));
    }
    return Success(propertiesByName[puName := pmfProps]);
  }

  /** getPersistenceUnitProperties, over the configuration resources in the
      order the class loader enumerates them. */
  method GetPersistenceUnitProperties(name: Option<string>, resources: seq<ConfigResource>)
    returns (r: Result<Option<Properties>, JdoFailure>)
    ensures r == PersistenceUnitProperties(name, resources)
  {
    var n := if name.None? then "" else Trim(name.value);
    var propertiesByNameInAllConfigs: map<string, Properties> := map[];
    var firstFoundConfigURL: Option<string> := None;
    var processedResources: seq<string> := [];
    for i := 0 to |resources|
      invariant ResourceSearch(resources[..i], n) ==
                Success(SearchState(processedResources, firstFoundConfigURL, propertiesByNameInAllConfigs))
    {
      ghost var st := SearchState(processedResources, firstFoundConfigURL, propertiesByNameInAllConfigs);
      FoldLeftStepsAt(SearchStep(n), SearchState([], None, map[]), resources, i, st);
      var currentConfigURL := resources[i].url;
      if currentConfigURL !in processedResources {
        processedResources := processedResources + [currentConfigURL];
        var current := ReadPersistenceUnitProperties(currentConfigURL, Some(n), resources[i].doc);
        if current.Failure? {
          FoldLeftFailsAt(SearchStep(n), SearchState([], None, map[]), resources, i, st);
          return Failure(current.error);
        }
        var propertiesByNameInCurrentConfig := current.value;
        if n in propertiesByNameInCurrentConfig {
          if firstFoundConfigURL.None? {
            firstFoundConfigURL := Some(currentConfigURL);
          }
          if n in propertiesByNameInAllConfigs {
            FoldLeftFailsAt(SearchStep(n), SearchState([], None, map[]), resources, i, st);
            return Failure(FatalUser(DuplicateRequestedPersistenceUnitFoundInDifferentConfigs(
              if n == "" then "(anonymous)" else n, firstFoundConfigURL.value, currentConfigURL)));
          }
        }
        propertiesByNameInAllConfigs := propertiesByNameInAllConfigs + propertiesByNameInCurrentConfig;
      }
    }
    assert resources[..|resources|] == resources;
    return Success(if n in propertiesByNameInAllConfigs then Some(propertiesByNameInAllConfigs[n]) else None);
  }
}
