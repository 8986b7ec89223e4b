/** The jdoconfig reader of javax.jdo.JDOHelper: it turns the
    `persistence-manager-factory` elements of already-parsed
    META-INF/jdoconfig.xml documents into a map from persistence-unit name
    to property map. Each reader is given twice: as a specification
    function (a fold over the node list) and as the imperative loop of the
    Java code, proved equal to it. */
module JdoConfig {
  import opened Wrappers
  import opened JavaString

  /** java.util.Properties restricted to what the reader stores: string keys
      and string values (the table refuses null values). */
  type Properties = map<string, string>

  // Names of the jdoconfig.xsd format (javax.jdo.Constants).
  const ElementPersistenceManagerFactory := "persistence-manager-factory"
  const ElementProperty := "property"
  const ElementInstanceLifecycleListener := "instance-lifecycle-listener"
  const PropertyAttributeName := "name"
  const PropertyAttributeValue := "value"
  const ListenerAttributeListener := "listener"
  const ListenerAttributeClasses := "classes"
  const PropertyPersistenceManagerFactoryClass := "javax.jdo.PersistenceManagerFactoryClass"
  const PropertyPersistenceUnitName := "javax.jdo.option.PersistenceUnitName"
  const PropertyPrefixInstanceLifecycleListener := "javax.jdo.listener.InstanceLifecycleListener."

  /** createAttributePropertyXref and its use: the javax.jdo property an
      attribute name of the persistence-manager-factory element stands for,
      or the name itself when the cross-reference has no entry for it. */
  function XrefName(name: string): string {
    match name
    case "class" => PropertyPersistenceManagerFactoryClass
    case "connection-driver-name" => "javax.jdo.option.ConnectionDriverName"
    case "connection-factory-name" => "javax.jdo.option.ConnectionFactoryName"
    case "connection-factory2-name" => "javax.jdo.option.ConnectionFactory2Name"
    case "connection-password" => "javax.jdo.option.ConnectionPassword"
    case "connection-url" => "javax.jdo.option.ConnectionURL"
    case "connection-user-name" => "javax.jdo.option.ConnectionUserName"
    case "ignore-cache" => "javax.jdo.option.IgnoreCache"
    case "mapping" => "javax.jdo.option.Mapping"
    case "multithreaded" => "javax.jdo.option.Multithreaded"
    case "nontransactional-read" => "javax.jdo.option.NontransactionalRead"
    case "nontransactional-write" => "javax.jdo.option.NontransactionalWrite"
    case "optimistic" => "javax.jdo.option.Optimistic"
    case "persistence-unit-name" => PropertyPersistenceUnitName
    case "restore-values" => "javax.jdo.option.RestoreValues"
    case "retain-values" => "javax.jdo.option.RetainValues"
    case "detach-all-on-commit" => "javax.jdo.option.DetachAllOnCommit"
    case "server-time-zone-id" => "javax.jdo.option.ServerTimeZoneID"
    case _ => name
  }

  // ---------------------------------------------------------------------
  // The parsed document

  datatype Attribute = Attribute(name: string, value: string)

  /** A DOM node: an element with its attributes (in the order the DOM
      lists them) and child nodes, or any other kind of node. */
  datatype Node =
    | Element(tag: string, attributes: seq<Attribute>, children: seq<Node>)
    | NonElement

  /** What parsing one configuration resource produced. */
  datatype Document =
    | Parsed(root: Option<Node>)
    | IOFailure
    | SAXParseFailure(line: int, column: int)
    | SAXFailure
    | ParserConfigFailure

  /** One configuration resource found on the class path. */
  datatype ConfigResource = ConfigResource(url: string, doc: Document)

  /** Node.getAttributes, with null read as "no attributes". */
  function AttributesOf(n: Node): seq<Attribute> {
    if n.Element? then n.attributes else []
  }

  /** Node.getChildNodes. */
  function ChildrenOf(n: Node): seq<Node> {
    if n.Element? then n.children else []
  }

  /** NamedNodeMap.getNamedItem: the value of the attribute called `name`. */
  function GetNamedItem(attributes: seq<Attribute>, name: string): Option<string> {
    if |attributes| == 0 then None
    else if attributes[0].name == name then Some(attributes[0].value)
    else GetNamedItem(attributes[1..], name)
  }

  /** Element.getElementsByTagName over a list of sibling nodes: every
      element called `tag` among them and their descendants, in document
      order. */
  function ElementsByTagName(nodes: seq<Node>, tag: string): seq<Node>
    decreases nodes
  {
    if nodes == [] then []
    else
      var n := nodes[0];
      (if n.Element? && n.tag == tag then [n] else [])
      + (if n.Element? then ElementsByTagName(n.children, tag) else [])
      + ElementsByTagName(nodes[1..], tag)
  }

  // ---------------------------------------------------------------------
  // Errors

  /** The message keys of the exceptions the reader throws. */
  datatype Message =
    | PropertyElementHasNoNameAttribute(url: string)
    | PropertyElementNameAttributeHasNoValue(url: string)
    | DuplicatePropertyNameGivenInPropertyElement(propertyName: string, url: string)
    | MissingListenerAttribute(url: string)
    | MissingListenerAttributeValue(url: string)
    | DuplicatePersistenceUnitNamePropertyFoundWithinUnitConfig(fromAttributes: string, fromElements: string, url: string)
    | DuplicatePropertyFound(unitName: string, url: string)
    | DuplicateRequestedPersistenceUnitFoundInSameConfig(unitName: string, url: string)
    | DuplicateRequestedPersistenceUnitFoundInDifferentConfigs(unitName: string, firstUrl: string, currentUrl: string)
    | InvalidJDOConfigNoRoot(url: string)
    | GetPMFIOExceptionRsrc(resource: string)
    | SAXParseException(url: string, line: int, column: int)
    | SAXException(url: string)
    | ParserConfigException
    | GetPMFNoClassNameProperty
    | GetPMFNullPropsLoader
    | GetPMFNullPMFLoader
    | NoPMFConfigurableViaPropertiesOrXML(name: Option<string>)

  /** JDOFatalUserException, JDOFatalInternalException, or the bare
      NullPointerException that Properties.put throws for a null value. */
  datatype JdoFailure =
    | FatalUser(message: Message)
    | FatalInternal(message: Message)
    | NullPointer

  // ---------------------------------------------------------------------
  // Specification: attributes of a persistence-manager-factory element

  /** Every attribute, name translated and value trimmed, in order; a later
      attribute that maps to the same key replaces an earlier one. */
  function AttributeProperties(attributes: seq<Attribute>): Properties
    decreases |attributes|
  {
    if |attributes| == 0 then map[]
    else
      var att := attributes[|attributes| - 1];
      AttributeProperties(attributes[..|attributes| - 1])[XrefName(att.name) := Trim(att.value)]
  }

  /** Hashtable.put: a null value is refused with a NullPointerException,
      any other value replaces the key's entry. */
  function Put(p: Properties, key: string, value: Option<string>): Result<Properties, JdoFailure> {
    if value.None? then Failure(NullPointer) else Success(p[key := value.value])
  }

  // ---------------------------------------------------------------------
  // Specification: sub-elements of a persistence-manager-factory element

  /** One child node: a `<property>` (tag compared ignoring case) or an
      `<instance-lifecycle-listener>` (tag compared exactly) adds one
      property; other nodes are skipped. */
  function ReadSubelement(p: Properties, element: Node, url: string): Result<Properties, JdoFailure> {
    if !element.Element? then Success(p)
    else if EqualsIgnoreCase(ElementProperty, element.tag) then
      match GetNamedItem(element.attributes, PropertyAttributeName)
      case None => Failure(FatalUser(PropertyElementHasNoNameAttribute(url)))
      case Some(rawName) =>
        var name := Trim(rawName);
        if name == "" then Failure(FatalUser(PropertyElementNameAttributeHasNoValue(url)))
        else
          var propertyName := XrefName(name);
          if propertyName in p then
            Failure(FatalUser(DuplicatePropertyNameGivenInPropertyElement(propertyName, url)))
          else
            var valueAtt := GetNamedItem(element.attributes, PropertyAttributeValue);
            Put(p, propertyName, if valueAtt.None? then None else Some(Trim(valueAtt.value)))
    else if element.tag == ElementInstanceLifecycleListener then
      match GetNamedItem(element.attributes, ListenerAttributeListener)
      case None => Failure(FatalUser(MissingListenerAttribute(url)))
      case Some(rawListener) =>
        var listener := Trim(rawListener);
        if listener == "" then Failure(FatalUser(MissingListenerAttributeValue(url)))
        else
          var classesAtt := GetNamedItem(element.attributes, ListenerAttributeClasses);
          Put(p, PropertyPrefixInstanceLifecycleListener + listener,
              if classesAtt.None? then None else Some(Trim(classesAtt.value)))
    else Success(p)
  }

  function SubelementStep(url: string): (Properties, Node) -> Result<Properties, JdoFailure> {
    (p, element) => ReadSubelement(p, element, url)
  }

  /** The child nodes, read left to right, stopping at the first error. */
  function SubelementProperties(children: seq<Node>, url: string): Result<Properties, JdoFailure> {
    FoldLeft(SubelementStep(url), map[], children)
  }

  // ---------------------------------------------------------------------
  // Specification: one persistence-manager-factory element

  function Lookup(p: Properties, key: string): Option<string> {
    if key in p then Some(p[key]) else None
  }

  /** The unit name of one factory element, from the attribute or from a
      `<property>` element, but not from both. */
  function SelectUnitName(fromAttributes: Option<string>, fromElements: Option<string>, url: string): Result<string, JdoFailure> {
    if !NullOrBlank(fromAttributes) && !NullOrBlank(fromElements) then
      Failure(FatalUser(DuplicatePersistenceUnitNamePropertyFoundWithinUnitConfig(
        fromAttributes.value, fromElements.value, url)))
    else
      var puName :=
        if !NullOrBlank(fromAttributes) then fromAttributes.value
        else if !NullOrBlank(fromElements) then fromElements.value
        else "";
      Success(Trim(puName))
  }

  /** The duplicate-property test of the reader: does some key read from the
      attributes occur among the VALUES read from the sub-elements
      (Properties.contains tests values)? */
  predicate AttributeKeyAmongElementValues(fromAttributes: Properties, fromElements: Properties) {
    exists key :: key in fromAttributes && key in fromElements.Values
  }

  /** The name and the merged properties of one factory element; the
      duplicate-property test runs only for the requested unit, and
      sub-element properties override attribute properties. */
  function ReadFactoryElement(pmfElement: Node, requested: string, url: string): Result<(string, Properties), JdoFailure> {
    var fromAttributes := AttributeProperties(AttributesOf(pmfElement));
    var fromElements :- SubelementProperties(ChildrenOf(pmfElement), url);
    var puName :- SelectUnitName(Lookup(fromAttributes, PropertyPersistenceUnitName),
                                 Lookup(fromElements, PropertyPersistenceUnitName), url);
    if requested == puName && AttributeKeyAmongElementValues(fromAttributes, fromElements) then
      Failure(FatalUser(DuplicatePropertyFound(puName, url)))
    else
      Success((puName, fromAttributes + fromElements))
  }

  /** Adds one factory element to the units of a file; a second element for
      the requested unit is an error, any other repeated name is replaced. */
  function ReadUnitInto(units: map<string, Properties>, pmfElement: Node, requested: string, url: string): Result<map<string, Properties>, JdoFailure> {
    var unit :- ReadFactoryElement(pmfElement, requested, url);
    if unit.0 == requested && unit.0 in units then
      Failure(FatalUser(DuplicateRequestedPersistenceUnitFoundInSameConfig(unit.0, url)))
    else
      Success(units[unit.0 := unit.1])
  }

  function UnitStep(requested: string, url: string): (map<string, Properties>, Node) -> Result<map<string, Properties>, JdoFailure> {
    (units, pmfElement) => ReadUnitInto(units, pmfElement, requested, url)
  }

  function FactoryUnits(pmfElements: seq<Node>, requested: string, url: string): Result<map<string, Properties>, JdoFailure> {
    FoldLeft(UnitStep(requested, url), map[], pmfElements)
  }

  /** The catch clauses of readPersistenceUnitProperties: JDO exceptions
      pass through, any other runtime exception becomes a fatal user error. */
  function WrapRuntimeFailure(f: JdoFailure, url: string): JdoFailure {
    if f.NullPointer? then FatalUser(SAXException(url)) else f
  }

  /** readPersistenceUnitProperties: the units defined by one configuration
      resource, keyed by trimmed name ("" for the anonymous unit). */
  function ConfigUnits(url: string, requestedName: Option<string>, doc: Document): Result<map<string, Properties>, JdoFailure> {
    var requested := if requestedName.None? then "" else Trim(requestedName.value);
    match doc
    case IOFailure => Failure(FatalUser(GetPMFIOExceptionRsrc(url)))
    case ParserConfigFailure => Failure(FatalInternal(ParserConfigException))
    case SAXParseFailure(line, column) => Failure(FatalUser(SAXParseException(url, line, column)))
    case SAXFailure => Failure(FatalUser(SAXException(url)))
    case Parsed(root) =>
      if root.None? then Failure(FatalUser(InvalidJDOConfigNoRoot(url)))
      else
        match FactoryUnits(ElementsByTagName(ChildrenOf(root.value), ElementPersistenceManagerFactory), requested, url)
        case Failure(f) => Failure(WrapRuntimeFailure(f, url))
        case Success(units) => Success(units)
  }

  // ---------------------------------------------------------------------
  // Specification: the search over all configuration resources

  /** The local state of getPersistenceUnitProperties. */
  datatype SearchState = SearchState(processed: seq<string>, firstFound: Option<string>, byName: map<string, Properties>)

  function DisplayName(name: string): string {
    if name == "" then "(anonymous)" else name
  }

  /** One resource: skipped when its URL was seen before; otherwise its
      units are added, and finding `name` a second time is an error. */
  function SearchResource(st: SearchState, resource: ConfigResource, name: string): Result<SearchState, JdoFailure> {
    if resource.url in st.processed then Success(st)
    else AddResourceUnits(st, resource.url, ConfigUnits(resource.url, Some(name), resource.doc), name)
  }

  /** The rest of one search step, once the resource at `url` has been read
      into `read`. */
  function AddResourceUnits(st: SearchState, url: string, read: Result<map<string, Properties>, JdoFailure>, name: string): Result<SearchState, JdoFailure> {
    var units :- read;
    var first := if name in units && st.firstFound.None? then Some(url) else st.firstFound;
    if name in units && name in st.byName then
      Failure(FatalUser(DuplicateRequestedPersistenceUnitFoundInDifferentConfigs(
        DisplayName(name), first.GetOr(url), url)))
    else
      Success(SearchState(st.processed + [url], first, st.byName + units))
  }

  function SearchStep(name: string): (SearchState, ConfigResource) -> Result<SearchState, JdoFailure> {
    (st, resource) => SearchResource(st, resource, name)
  }

  function ResourceSearch(resources: seq<ConfigResource>, name: string): Result<SearchState, JdoFailure> {
    FoldLeft(SearchStep(name), SearchState([], None, map[]), resources)
  }

  function TrimmedName(name: Option<string>): string {
    if name.None? then "" else Trim(name.value)
  }

  /** getPersistenceUnitProperties: the properties of the unit called
      `name` (trimmed; null is the anonymous unit), or None. */
  function PersistenceUnitProperties(name: Option<string>, resources: seq<ConfigResource>): Result<Option<Properties>, JdoFailure> {
    var n := TrimmedName(name);
    var st :- ResourceSearch(resources, n);
    Success(UnitLookup(st.byName, n))
  }

  function UnitLookup(m: map<string, Properties>, key: string): Option<Properties> {
    if key in m then Some(m[key]) else None
  }
}
