/** What the jdoconfig specification functions promise: the properties read
    from one factory element, the units read from one resource, and the
    search over all resources. */
module JdoConfigProofs {
  import opened Wrappers
  import opened JavaString
  import opened JdoConfig

  // ---------------------------------------------------------------------
  // Reading the DOM

  /** getNamedItem finds a value exactly when some attribute has the name,
      and what it finds is the value of such an attribute. */
  lemma {:induction false} GetNamedItemSpec(attributes: seq<Attribute>, name: string)
    ensures GetNamedItem(attributes, name).Some? <==> exists k :: 0 <= k < |attributes| && attributes[k].name == name
    ensures GetNamedItem(attributes, name).Some? ==>
              exists k :: 0 <= k < |attributes| && attributes[k] == Attribute(name, GetNamedItem(attributes, name).value)
    decreases |attributes|
  {
    if |attributes| > 0 && attributes[0].name != name {
      GetNamedItemSpec(attributes[1..], name);
      assert forall k :: 1 <= k < |attributes| ==> attributes[k] == attributes[1..][k - 1];
    }
  }

  /** Every node of a list of siblings and of their subtrees, in document
      order: each node, then its descendants, then its next sibling. */
  function DocumentOrder(nodes: seq<Node>): seq<Node>
    decreases nodes
  {
    if nodes == [] then []
    else [nodes[0]] + (if nodes[0].Element? then DocumentOrder(nodes[0].children) else []) + DocumentOrder(nodes[1..])
  }

  /** The elements called `tag` among `nodes`, in their order. */
  function WithTag(nodes: seq<Node>, tag: string): seq<Node> {
    if nodes == [] then []
    else (if nodes[0].Element? && nodes[0].tag == tag then [nodes[0]] else []) + WithTag(nodes[1..], tag)
  }

  lemma {:induction false} WithTagAppend(a: seq<Node>, b: seq<Node>, tag: string)
    ensures WithTag(a + b, tag) == WithTag(a, tag) + WithTag(b, tag)
    decreases |a|
  {
    if a == [] {
      assert a + b == b;
    } else {
      assert (a + b)[1..] == a[1..] + b;
      WithTagAppend(a[1..], b, tag);
    }
  }

  lemma {:induction false} WithTagMembers(nodes: seq<Node>, tag: string)
    ensures forall n :: n in WithTag(nodes, tag) <==> n in nodes && n.Element? && n.tag == tag
    decreases |nodes|
  {
    if nodes != [] {
      WithTagMembers(nodes[1..], tag);
      assert nodes == [nodes[0]] + nodes[1..];
    }
  }

  /** getElementsByTagName returns exactly the elements with the tag asked
      for among the nodes and all their descendants, in document order. */
  lemma {:induction false} ElementsByTagNameSpec(nodes: seq<Node>, tag: string)
    ensures ElementsByTagName(nodes, tag) == WithTag(DocumentOrder(nodes), tag)
    ensures forall n :: n in ElementsByTagName(nodes, tag) <==> n in DocumentOrder(nodes) && n.Element? && n.tag == tag
    decreases nodes
  {
    if nodes != [] {
      var n := nodes[0];
      var below := if n.Element? then DocumentOrder(n.children) else [];
      if n.Element? {
        ElementsByTagNameSpec(n.children, tag);
      }
      ElementsByTagNameSpec(nodes[1..], tag);
      WithTagAppend([n] + below, DocumentOrder(nodes[1..]), tag);
      WithTagAppend([n], below, tag);
      assert WithTag([n], tag) == if n.Element? && n.tag == tag then [n] else [] by {
        assert [n][1..] == [];
      }
    }
    WithTagMembers(DocumentOrder(nodes), tag);
  }

  /** The unit name of a factory element: an error exactly when both the
      attribute and the sub-element give a non-blank name; otherwise the
      trimmed non-blank one, or "" when neither gives one. */
  lemma SelectUnitNameSpec(fromAttributes: Option<string>, fromElements: Option<string>, url: string)
    ensures SelectUnitName(fromAttributes, fromElements, url).Failure? <==>
              !NullOrBlank(fromAttributes) && !NullOrBlank(fromElements)
    ensures SelectUnitName(fromAttributes, fromElements, url).Success? ==>
              IsTrimmed(SelectUnitName(fromAttributes, fromElements, url).value)
    ensures SelectUnitName(fromAttributes, fromElements, url).Success? && !NullOrBlank(fromAttributes) ==>
              SelectUnitName(fromAttributes, fromElements, url).value == Trim(fromAttributes.value) != ""
    ensures SelectUnitName(fromAttributes, fromElements, url).Success? && !NullOrBlank(fromElements) ==>
              SelectUnitName(fromAttributes, fromElements, url).value == Trim(fromElements.value) != ""
    ensures NullOrBlank(fromAttributes) && NullOrBlank(fromElements) ==>
              SelectUnitName(fromAttributes, fromElements, url) == Success("")
  {
    TrimEmptyIffAllBlank("");
  }

  // ---------------------------------------------------------------------
  // Attributes of a factory element

  /** No attribute after the k-th one translates to the same key. */
  predicate LastAttributeFor(attributes: seq<Attribute>, k: int)
    requires 0 <= k < |attributes|
  {
    forall m :: k < m < |attributes| ==> XrefName(attributes[m].name) != XrefName(attributes[k].name)
  }

  /** The keys are exactly the translated attribute names. */
  lemma {:induction false} AttributePropertiesKeys(attributes: seq<Attribute>)
    ensures forall key :: key in AttributeProperties(attributes) <==>
              exists k :: 0 <= k < |attributes| && XrefName(attributes[k].name) == key
    decreases |attributes|
  {
    if |attributes| > 0 {
      var init := attributes[..|attributes| - 1];
      AttributePropertiesKeys(init);
      assert forall k :: 0 <= k < |init| ==> init[k] == attributes[k];
    }
  }

  /** Each key holds the trimmed value of the last attribute translating to
      it: a later attribute replaces an earlier one. */
  lemma {:induction false} AttributePropertiesLastWins(attributes: seq<Attribute>, k: int)
    requires 0 <= k < |attributes| && LastAttributeFor(attributes, k)
    ensures XrefName(attributes[k].name) in AttributeProperties(attributes)
    ensures AttributeProperties(attributes)[XrefName(attributes[k].name)] == Trim(attributes[k].value)
    decreases |attributes|
  {
    if k < |attributes| - 1 {
      var init := attributes[..|attributes| - 1];
      assert LastAttributeFor(init, k) by {
        assert forall m :: k < m < |init| ==> init[m] == attributes[m];
      }
      AttributePropertiesLastWins(init, k);
    }
  }

  /** Every value read from the attributes is trimmed. */
  lemma {:induction false} AttributePropertiesTrimmed(attributes: seq<Attribute>)
    ensures forall key :: key in AttributeProperties(attributes) ==> IsTrimmed(AttributeProperties(attributes)[key])
    decreases |attributes|
  {
    if |attributes| > 0 {
      AttributePropertiesTrimmed(attributes[..|attributes| - 1]);
    }
  }

  // ---------------------------------------------------------------------
  // Sub-elements of a factory element

  /** A `<property>` element (tag compared ignoring case). */
  predicate IsPropertyElement(n: Node) {
    n.Element? && EqualsIgnoreCase(ElementProperty, n.tag)
  }

  /** An `<instance-lifecycle-listener>` element (tag compared exactly). */
  predicate IsListenerElement(n: Node) {
    n.Element? && !EqualsIgnoreCase(ElementProperty, n.tag) && n.tag == ElementInstanceLifecycleListener
  }

  /** The key a child node sets, if it sets one. */
  function ChildKey(n: Node): Option<string> {
    if IsPropertyElement(n) then
      var nameAtt := GetNamedItem(n.attributes, PropertyAttributeName);
      if nameAtt.Some? then Some(XrefName(Trim(nameAtt.value))) else None
    else if IsListenerElement(n) then
      var listenerAtt := GetNamedItem(n.attributes, ListenerAttributeListener);
      if listenerAtt.Some? then Some(PropertyPrefixInstanceLifecycleListener + Trim(listenerAtt.value)) else None
    else None
  }

  /** The value a child node stores under its key, if it has one. */
  function ChildValue(n: Node): Option<string> {
    if IsPropertyElement(n) then
      var valueAtt := GetNamedItem(n.attributes, PropertyAttributeValue);
      if valueAtt.Some? then Some(Trim(valueAtt.value)) else None
    else if IsListenerElement(n) then
      var classesAtt := GetNamedItem(n.attributes, ListenerAttributeClasses);
      if classesAtt.Some? then Some(Trim(classesAtt.value)) else None
    else None
  }

  /** A `<property>` has a non-blank name and a value; a listener element has
      a non-blank listener and classes; any other node is acceptable. */
  predicate WellFormedChild(n: Node) {
    (IsPropertyElement(n) ==>
      var nameAtt := GetNamedItem(n.attributes, PropertyAttributeName);
      nameAtt.Some? && Trim(nameAtt.value) != "" && ChildValue(n).Some?)
    && (IsListenerElement(n) ==>
      var listenerAtt := GetNamedItem(n.attributes, ListenerAttributeListener);
      listenerAtt.Some? && Trim(listenerAtt.value) != "" && ChildValue(n).Some?)
  }

  /** No `<property>` among the first `i` children sets a key that an
      earlier child has already set. */
  predicate NoRepeatedPropertyKey(children: seq<Node>, i: int)
    requires 0 <= i <= |children|
  {
    forall j, k :: 0 <= j < k < i && IsPropertyElement(children[k]) ==> ChildKey(children[j]) != ChildKey(children[k])
  }

  /** One child: it is accepted exactly when it is well-formed and, for a
      `<property>`, its key is new; it then sets its key to its value, or
      changes nothing when it sets no key. */
  lemma ReadSubelementSpec(p: Properties, n: Node, url: string)
    ensures ReadSubelement(p, n, url).Success? <==>
              WellFormedChild(n) && !(IsPropertyElement(n) && ChildKey(n).value in p)
    ensures ReadSubelement(p, n, url).Success? ==>
              if ChildKey(n).Some? then
                ChildValue(n).Some? && ReadSubelement(p, n, url).value == p[ChildKey(n).value := ChildValue(n).value]
              else
                ReadSubelement(p, n, url).value == p
  {
    if !n.Element? {
    } else if EqualsIgnoreCase(ElementProperty, n.tag) {
      assert IsPropertyElement(n);
      var nameAtt := GetNamedItem(n.attributes, PropertyAttributeName);
      if nameAtt.Some? && Trim(nameAtt.value) != "" {
        var key := XrefName(Trim(nameAtt.value));
        assert ChildKey(n) == Some(key);
        if key !in p {
          assert ReadSubelement(p, n, url) == Put(p, key, ChildValue(n));
          if ChildValue(n).Some? {
            assert ReadSubelement(p, n, url).value == p[key := ChildValue(n).value];
          }
        }
      }
    } else if n.tag == ElementInstanceLifecycleListener {
      assert IsListenerElement(n);
      var listenerAtt := GetNamedItem(n.attributes, ListenerAttributeListener);
      if listenerAtt.Some? && Trim(listenerAtt.value) != "" {
        var key := PropertyPrefixInstanceLifecycleListener + Trim(listenerAtt.value);
        assert ChildKey(n) == Some(key);
        assert ReadSubelement(p, n, url) == Put(p, key, ChildValue(n));
        if ChildValue(n).Some? {
          assert ReadSubelement(p, n, url).value == p[key := ChildValue(n).value];
        }
      }
    } else {
      assert ChildKey(n).None?;
    }
  }

  /** The no-repeat condition grows one child at a time. */
  lemma NoRepeatedPropertyKeyStep(children: seq<Node>, i: int)
    requires 0 < i <= |children|
    ensures NoRepeatedPropertyKey(children, i) <==>
              NoRepeatedPropertyKey(children, i - 1) &&
              (IsPropertyElement(children[i - 1]) ==>
                 forall j :: 0 <= j < i - 1 ==> ChildKey(children[j]) != ChildKey(children[i - 1]))
  {
  }

  /** The entry a child node stores, when it sets a key to a value. */
  function ChildEntry(n: Node): Option<(string, string)> {
    if ChildKey(n).Some? && ChildValue(n).Some? then Some((ChildKey(n).value, ChildValue(n).value)) else None
  }

  lemma SubelementStepSetsOneEntry(url: string)
    ensures SetsOneEntry(SubelementStep(url), ChildEntry)
  {
    forall m, n | SubelementStep(url)(m, n).Success?
      ensures SubelementStep(url)(m, n).value == if ChildEntry(n).Some? then m[ChildEntry(n).value.0 := ChildEntry(n).value.1] else m
    {
      ReadSubelementSpec(m, n, url);
    }
  }

  /** A well-formed child that sets a key also sets a value. */
  lemma WellFormedChildEntry(n: Node)
    requires WellFormedChild(n)
    ensures ChildKey(n).Some? ==> ChildEntry(n) == Some((ChildKey(n).value, ChildValue(n).value))
    ensures ChildKey(n).None? ==> ChildEntry(n).None?
  {
  }

  /** The reader of the first `i` children succeeds exactly when they are
      well-formed and no property repeats a key. */
  lemma {:induction false} SubelementPrefixSucceeds(children: seq<Node>, url: string, i: int)
    requires 0 <= i <= |children|
    ensures SubelementProperties(children[..i], url).Success? <==>
              (forall k :: 0 <= k < i ==> WellFormedChild(children[k])) && NoRepeatedPropertyKey(children, i)
    decreases i
  {
    if i > 0 {
      var c := children[i - 1];
      var pre := SubelementProperties(children[..i - 1], url);
      var cur := SubelementProperties(children[..i], url);
      assert cur == (if pre.Failure? then pre else ReadSubelement(pre.value, c, url)) by {
        FoldLeftSnoc(SubelementStep(url), map[], children[..i - 1], c);
        assert children[..i - 1] + [c] == children[..i];
      }
      SubelementPrefixSucceeds(children, url, i - 1);
      NoRepeatedPropertyKeyStep(children, i);
      if pre.Success? {
        ReadSubelementSpec(pre.value, c, url);
        if IsPropertyElement(c) && ChildKey(c).Some? {
          var key := ChildKey(c).value;
          assert key in pre.value <==> exists j :: 0 <= j < i - 1 && ChildKey(children[j]) == ChildKey(c) by {
            SubelementStepSetsOneEntry(url);
            FoldLeftEntryKeys(SubelementStep(url), ChildEntry, children, i - 1);
            forall j | 0 <= j < i - 1
              ensures ChildEntry(children[j]).Some? && ChildEntry(children[j]).value.0 == key <==> ChildKey(children[j]) == ChildKey(c)
            {
              WellFormedChildEntry(children[j]);
            }
          }
        }
      }
    }
  }

  /** No child after the k-th one sets the same key. */
  predicate LastChildFor(children: seq<Node>, k: int)
    requires 0 <= k < |children|
  {
    forall m :: k < m < |children| ==> ChildKey(children[m]) != ChildKey(children[k])
  }

  /** A successful reader holds exactly the keys the children set, each with
      the value of the last child that sets it. */
  lemma SubelementPropertiesContent(children: seq<Node>, url: string)
    requires SubelementProperties(children, url).Success?
    ensures forall key :: key in SubelementProperties(children, url).value <==>
              exists k :: 0 <= k < |children| && ChildKey(children[k]) == Some(key)
    ensures forall k :: 0 <= k < |children| && ChildKey(children[k]).Some? && LastChildFor(children, k) ==>
              Some(SubelementProperties(children, url).value[ChildKey(children[k]).value]) == ChildValue(children[k])
  {
    assert children[..|children|] == children;
    SubelementPrefixSucceeds(children, url, |children|);
    SubelementStepSetsOneEntry(url);
    FoldLeftEntryKeys(SubelementStep(url), ChildEntry, children, |children|);
    forall k | 0 <= k < |children|
      ensures ChildKey(children[k]).Some? ==> ChildEntry(children[k]) == Some((ChildKey(children[k]).value, ChildValue(children[k]).value))
      ensures ChildKey(children[k]).None? ==> ChildEntry(children[k]).None?
    {
      WellFormedChildEntry(children[k]);
    }
    forall k | 0 <= k < |children| && ChildKey(children[k]).Some? && LastChildFor(children, k)
      ensures Some(SubelementProperties(children, url).value[ChildKey(children[k]).value]) == ChildValue(children[k])
    {
      FoldLeftEntryLastWins(SubelementStep(url), ChildEntry, children, |children|, k);
    }
  }

  // ---------------------------------------------------------------------
  // One factory element

  /** A successful factory element holds the keys read from its attributes
      and from its children; a key set by a child carries the child's value,
      overriding the attribute. */
  lemma ReadFactoryElementContent(pmfElement: Node, requested: string, url: string)
    requires ReadFactoryElement(pmfElement, requested, url).Success?
    ensures var props := ReadFactoryElement(pmfElement, requested, url).value.1;
            var attributes := AttributesOf(pmfElement);
            var children := ChildrenOf(pmfElement);
            (forall key :: key in props <==>
               (exists k :: 0 <= k < |attributes| && XrefName(attributes[k].name) == key) ||
               (exists k :: 0 <= k < |children| && ChildKey(children[k]) == Some(key)))
            && (forall k :: 0 <= k < |children| && ChildKey(children[k]).Some? && LastChildFor(children, k) ==>
                  Some(props[ChildKey(children[k]).value]) == ChildValue(children[k]))
  {
    var fromAttributes := AttributeProperties(AttributesOf(pmfElement));
    var props := ReadFactoryElement(pmfElement, requested, url).value.1;
    ReadFactoryElementMerges(pmfElement, requested, url);
    var fromElements := SubelementProperties(ChildrenOf(pmfElement), url).value;
    assert props == fromAttributes + fromElements;
    AttributePropertiesKeys(AttributesOf(pmfElement));
    SubelementPropertiesContent(ChildrenOf(pmfElement), url);
  }

  /** A successful factory element merges the attribute properties with the
      sub-element properties. */
  lemma ReadFactoryElementMerges(pmfElement: Node, requested: string, url: string)
    requires ReadFactoryElement(pmfElement, requested, url).Success?
    ensures SubelementProperties(ChildrenOf(pmfElement), url).Success?
    ensures ReadFactoryElement(pmfElement, requested, url).value.1 ==
            AttributeProperties(AttributesOf(pmfElement)) + SubelementProperties(ChildrenOf(pmfElement), url).value
  {
  }

  /** The specification of one factory element, once its three parts are
      known. */
  lemma ReadFactoryElementSteps(pmfElement: Node, requested: string, url: string,
                                fromAttributes: Properties, fromElements: Properties, puName: string)
    requires AttributeProperties(AttributesOf(pmfElement)) == fromAttributes
    requires SubelementProperties(ChildrenOf(pmfElement), url) == Success(fromElements)
    requires SelectUnitName(Lookup(fromAttributes, PropertyPersistenceUnitName),
                            Lookup(fromElements, PropertyPersistenceUnitName), url) == Success(puName)
    ensures ReadFactoryElement(pmfElement, requested, url) ==
      if requested == puName && AttributeKeyAmongElementValues(fromAttributes, fromElements)
      then Failure(FatalUser(DuplicatePropertyFound(puName, url)))
      else Success((puName, fromAttributes + fromElements))
  {
  }

  /** A factory element with one attribute and a trimmed value. */
  lemma SingleAttribute(attName: string, value: string)
    requires IsTrimmed(value)
    ensures AttributeProperties([Attribute(attName, value)]) == map[XrefName(attName) := value]
  {
    var attributes := [Attribute(attName, value)];
    assert attributes[..0] == [];
    TrimOfTrimmed(value);
  }

  /** A lone `<property name=".." value=".."/>` child with a trimmed,
      non-empty name sets the translated name to the value. */
  lemma SinglePropertyElement(name: string, value: string, url: string)
    requires IsTrimmed(name) && name != "" && IsTrimmed(value)
    ensures SubelementProperties([Element(ElementProperty, [Attribute(PropertyAttributeName, name), Attribute(PropertyAttributeValue, value)], [])], url)
            == Success(map[XrefName(name) := value])
  {
    var property := Element(ElementProperty, [Attribute(PropertyAttributeName, name), Attribute(PropertyAttributeValue, value)], []);
    assert [property][..0] == [] && [property][..1] == [property];
    FoldLeftStepsAt(SubelementStep(url), map[], [property], 0, map[]);
    assert IsPropertyElement(property);
    assert GetNamedItem(property.attributes, PropertyAttributeName) == Some(name);
    assert GetNamedItem(property.attributes, PropertyAttributeValue) == Some(value);
    TrimOfTrimmed(name);
    TrimOfTrimmed(value);
    assert ChildKey(property) == Some(XrefName(name)) && ChildValue(property) == Some(value);
    ReadSubelementSpec(map[], property, url);
  }

  /** The duplicate-property test compares keys with values: the same
      property given both as an attribute and as a `<property>` element
      under its javax.jdo name is accepted, the element's value winning... */
  lemma DuplicateCheckMissesRepeatedKey(attName: string, jdoName: string, attValue: string, elementValue: string, url: string)
    requires XrefName(attName) == jdoName && XrefName(jdoName) == jdoName
    requires jdoName != PropertyPersistenceUnitName && jdoName != "" && IsTrimmed(jdoName)
    requires IsTrimmed(attValue) && IsTrimmed(elementValue) && elementValue != jdoName
    ensures var pmf := Element(ElementPersistenceManagerFactory, [Attribute(attName, attValue)],
                               [Element(ElementProperty, [Attribute(PropertyAttributeName, jdoName),
                                                          Attribute(PropertyAttributeValue, elementValue)], [])]);
            ReadFactoryElement(pmf, "", url) == Success(("", map[jdoName := elementValue]))
  {
    var pmf := Element(ElementPersistenceManagerFactory, [Attribute(attName, attValue)],
                       [Element(ElementProperty, [Attribute(PropertyAttributeName, jdoName),
                                                  Attribute(PropertyAttributeValue, elementValue)], [])]);
    var fromAttributes := map[jdoName := attValue];
    var fromElements := map[jdoName := elementValue];
    assert jdoName !in fromElements.Values;
    assert !AttributeKeyAmongElementValues(fromAttributes, fromElements);
    assert fromAttributes + fromElements == fromElements;
    assert SelectUnitName(Lookup(fromAttributes, PropertyPersistenceUnitName),
                          Lookup(fromElements, PropertyPersistenceUnitName), url) == Success("") by {
      TrimOfTrimmed("");
    }
    SingleAttribute(attName, attValue);
    SinglePropertyElement(jdoName, elementValue, url);
    ReadFactoryElementSteps(pmf, "", url, fromAttributes, fromElements, "");
  }

  /** ...while a `<property>` whose VALUE is an attribute's key makes the
      anonymous unit, when requested, fail with a duplicate-property error. */
  lemma DuplicateCheckMatchesValue(attName: string, attValue: string, name: string, url: string)
    requires XrefName(attName) != PropertyPersistenceUnitName && IsTrimmed(XrefName(attName))
    requires IsTrimmed(attValue) && IsTrimmed(name) && name != "" && XrefName(name) != PropertyPersistenceUnitName
    ensures var pmf := Element(ElementPersistenceManagerFactory, [Attribute(attName, attValue)],
                               [Element(ElementProperty, [Attribute(PropertyAttributeName, name),
                                                          Attribute(PropertyAttributeValue, XrefName(attName))], [])]);
            ReadFactoryElement(pmf, "", url) == Failure(FatalUser(DuplicatePropertyFound("", url)))
  {
    var key := XrefName(attName);
    var pmf := Element(ElementPersistenceManagerFactory, [Attribute(attName, attValue)],
                       [Element(ElementProperty, [Attribute(PropertyAttributeName, name),
                                                  Attribute(PropertyAttributeValue, key)], [])]);
    var fromAttributes := map[key := attValue];
    var fromElements := map[XrefName(name) := key];
    assert key in fromElements.Values by {
      assert fromElements[XrefName(name)] == key;
    }
    assert AttributeKeyAmongElementValues(fromAttributes, fromElements);
    assert SelectUnitName(Lookup(fromAttributes, PropertyPersistenceUnitName),
                          Lookup(fromElements, PropertyPersistenceUnitName), url) == Success("") by {
      TrimOfTrimmed("");
    }
    SingleAttribute(attName, attValue);
    SinglePropertyElement(name, key, url);
    ReadFactoryElementSteps(pmf, "", url, fromAttributes, fromElements, "");
  }

  // ---------------------------------------------------------------------
  // The units of one configuration resource

  /** The unit one factory element defines, if it reads successfully. */
  function UnitOf(pmfElement: Node, requested: string, url: string): Option<(string, Properties)> {
    var unit := ReadFactoryElement(pmfElement, requested, url);
    if unit.Success? then Some(unit.value) else None
  }

  function UnitEntry(requested: string, url: string): Node -> Option<(string, Properties)> {
    pmfElement => UnitOf(pmfElement, requested, url)
  }

  /** The element reads successfully and names the requested unit. */
  predicate NamesRequested(pmfElement: Node, requested: string, url: string) {
    UnitOf(pmfElement, requested, url).Some? && UnitOf(pmfElement, requested, url).value.0 == requested
  }

  lemma UnitStepSetsOneEntry(requested: string, url: string)
    ensures SetsOneEntry(UnitStep(requested, url), UnitEntry(requested, url))
  {
  }

  function NamesRequestedFn(requested: string, url: string): Node -> bool {
    pmfElement => NamesRequested(pmfElement, requested, url)
  }

  /** No element among the first `i` names the requested unit after an
      earlier element has named it: the requested unit is defined once at
      most. */
  ghost predicate RequestedAtMostOnce(pmfs: seq<Node>, requested: string, url: string, i: int)
    requires 0 <= i <= |pmfs|
  {
    NoStrictRepeat(pmfs, UnitEntry(requested, url), NamesRequestedFn(requested, url), i)
  }

  lemma UnitStepChecksRequested(requested: string, url: string)
    ensures ChecksNewKey(UnitStep(requested, url), UnitEntry(requested, url), NamesRequestedFn(requested, url))
  {
  }

  /** The units of the first `i` factory elements are read successfully
      exactly when each element reads successfully and at most one of them
      names the requested unit. */
  lemma FactoryUnitsPrefixSucceeds(pmfs: seq<Node>, requested: string, url: string, i: int)
    requires 0 <= i <= |pmfs|
    ensures FactoryUnits(pmfs[..i], requested, url).Success? <==>
              (forall k :: 0 <= k < i ==> UnitOf(pmfs[k], requested, url).Some?) && RequestedAtMostOnce(pmfs, requested, url, i)
  {
    UnitStepSetsOneEntry(requested, url);
    UnitStepChecksRequested(requested, url);
    FoldLeftEntrySucceeds(UnitStep(requested, url), UnitEntry(requested, url), NamesRequestedFn(requested, url), pmfs, i);
  }

  /** No element after the k-th one defines a unit of the same name. */
  predicate LastUnitFor(pmfs: seq<Node>, k: int, requested: string, url: string)
    requires 0 <= k < |pmfs| && UnitOf(pmfs[k], requested, url).Some?
  {
    forall m :: k < m < |pmfs| ==>
      UnitOf(pmfs[m], requested, url).None? || UnitOf(pmfs[m], requested, url).value.0 != UnitOf(pmfs[k], requested, url).value.0
  }

  /** Successfully read units hold exactly the names the elements define,
      each with the properties of the last element defining it; the
      requested unit is defined by one element only. */
  lemma FactoryUnitsContent(pmfs: seq<Node>, requested: string, url: string)
    requires FactoryUnits(pmfs, requested, url).Success?
    ensures var units := FactoryUnits(pmfs, requested, url).value;
            (forall name :: name in units <==>
               exists k :: 0 <= k < |pmfs| && UnitOf(pmfs[k], requested, url).Some? && UnitOf(pmfs[k], requested, url).value.0 == name)
            && (forall k :: 0 <= k < |pmfs| && UnitOf(pmfs[k], requested, url).Some? && LastUnitFor(pmfs, k, requested, url) ==>
                  units[UnitOf(pmfs[k], requested, url).value.0] == UnitOf(pmfs[k], requested, url).value.1)
            && (forall k :: 0 <= k < |pmfs| && NamesRequested(pmfs[k], requested, url) ==>
                  requested in units && units[requested] == UnitOf(pmfs[k], requested, url).value.1)
  {
    assert pmfs[..|pmfs|] == pmfs;
    UnitStepSetsOneEntry(requested, url);
    FoldLeftEntryKeys(UnitStep(requested, url), UnitEntry(requested, url), pmfs, |pmfs|);
    forall k | 0 <= k < |pmfs| && UnitOf(pmfs[k], requested, url).Some? && LastUnitFor(pmfs, k, requested, url)
      ensures FactoryUnits(pmfs, requested, url).value[UnitOf(pmfs[k], requested, url).value.0] == UnitOf(pmfs[k], requested, url).value.1
    {
      FoldLeftEntryLastWins(UnitStep(requested, url), UnitEntry(requested, url), pmfs, |pmfs|, k);
    }
    FactoryUnitsPrefixSucceeds(pmfs, requested, url, |pmfs|);
    forall k | 0 <= k < |pmfs| && NamesRequested(pmfs[k], requested, url)
      ensures requested in FactoryUnits(pmfs, requested, url).value
      ensures FactoryUnits(pmfs, requested, url).value[requested] == UnitOf(pmfs[k], requested, url).value.1
    {
      assert LastUnitFor(pmfs, k, requested, url);
      FoldLeftEntryLastWins(UnitStep(requested, url), UnitEntry(requested, url), pmfs, |pmfs|, k);
    }
  }

  /** A resource that cannot be parsed, or whose factory elements cannot be
      read, fails with a JDO exception: a runtime failure never escapes. */
  lemma ConfigUnitsSpec(url: string, requestedName: Option<string>, doc: Document)
    ensures var r := ConfigUnits(url, requestedName, doc);
            (r.Success? <==>
               doc.Parsed? && doc.root.Some? &&
               var pmfs := ElementsByTagName(ChildrenOf(doc.root.value), ElementPersistenceManagerFactory);
               (forall k :: 0 <= k < |pmfs| ==> UnitOf(pmfs[k], TrimmedName(requestedName), url).Some?) &&
               RequestedAtMostOnce(pmfs, TrimmedName(requestedName), url, |pmfs|))
            && (r.Failure? ==> !r.error.NullPointer?)
  {
    if doc.Parsed? && doc.root.Some? {
      var pmfs := ElementsByTagName(ChildrenOf(doc.root.value), ElementPersistenceManagerFactory);
      assert pmfs[..|pmfs|] == pmfs;
      FactoryUnitsPrefixSucceeds(pmfs, TrimmedName(requestedName), url, |pmfs|);
    }
  }

  // ---------------------------------------------------------------------
  // The search over all configuration resources

  /** What one resource yields when the unit `name` is requested. */
  function ResourceUnits(resource: ConfigResource, name: string): Result<map<string, Properties>, JdoFailure> {
    ConfigUnits(resource.url, Some(name), resource.doc)
  }

  /** The resource reads successfully and defines the unit `name`. */
  predicate Defines(resource: ConfigResource, name: string) {
    ResourceUnits(resource, name).Success? && name in ResourceUnits(resource, name).value
  }

  /** The class loader returns the same document for the same URL. */
  predicate SameUrlSameDocument(resources: seq<ConfigResource>) {
    forall j, k :: 0 <= j < |resources| && 0 <= k < |resources| && resources[j].url == resources[k].url ==>
      resources[j].doc == resources[k].doc
  }

  // The search is reasoned about for any `step` that reads each resource
  // with `read`, so that the jdoconfig reader stays out of these proofs.

  type ReadResult = Result<map<string, Properties>, JdoFailure>

  /** `step` is one search step whose reader is `read`. */
  ghost predicate SearchesWith(step: (SearchState, ConfigResource) -> Result<SearchState, JdoFailure>,
                               read: ConfigResource -> ReadResult, name: string) {
    forall st, c :: step(st, c) == if c.url in st.processed then Success(st) else AddResourceUnits(st, c.url, read(c), name)
  }

  function ReadFor(name: string): ConfigResource -> ReadResult {
    c => ResourceUnits(c, name)
  }

  lemma SearchStepSearchesWith(name: string)
    ensures SearchesWith(SearchStep(name), ReadFor(name), name)
  {
    forall st, c
      ensures SearchStep(name)(st, c) == if c.url in st.processed then Success(st) else AddResourceUnits(st, c.url, ReadFor(name)(c), name)
    {
    }
  }

  predicate DefinesIn(read: ConfigResource -> ReadResult, c: ConfigResource, name: string) {
    read(c).Success? && name in read(c).value
  }

  /** Each of the first `i` resources is read successfully. */
  predicate AllRead(resources: seq<ConfigResource>, read: ConfigResource -> ReadResult, i: int)
    requires 0 <= i <= |resources|
  {
    forall k :: 0 <= k < i ==> read(resources[k]).Success?
  }

  /** Among the first `i` resources, all that define `name` have one URL. */
  predicate DefinedByOneUrl(resources: seq<ConfigResource>, read: ConfigResource -> ReadResult, name: string, i: int)
    requires 0 <= i <= |resources|
  {
    forall j, k :: 0 <= j < i && 0 <= k < i && DefinesIn(read, resources[j], name) && DefinesIn(read, resources[k], name) ==>
      resources[j].url == resources[k].url
  }

  predicate SameUrlSameRead(resources: seq<ConfigResource>, read: ConfigResource -> ReadResult) {
    forall j, k :: 0 <= j < |resources| && 0 <= k < |resources| && resources[j].url == resources[k].url ==>
      read(resources[j]) == read(resources[k])
  }

  /** The search state after the first `i` resources: their URLs were
      processed, and the unit `name` was found exactly when one of them
      defines it, with that resource's properties. */
  predicate SearchInvariant(resources: seq<ConfigResource>, read: ConfigResource -> ReadResult, name: string, i: int, st: SearchState)
    requires 0 <= i <= |resources|
  {
    (forall k :: 0 <= k < i ==> resources[k].url in st.processed)
    && (forall u :: u in st.processed ==> exists k :: 0 <= k < i && resources[k].url == u)
    && (name in st.byName <==> exists k :: 0 <= k < i && DefinesIn(read, resources[k], name))
    && (forall k :: 0 <= k < i && DefinesIn(read, resources[k], name) ==>
          name in st.byName && st.byName[name] == read(resources[k]).value[name])
  }

  /** A resource whose URL was processed before reads and defines `name` as
      its earlier namesake does... */
  lemma SearchSkipKeepsOneUrl(resources: seq<ConfigResource>, read: ConfigResource -> ReadResult, name: string, i: int, k: int)
    requires 0 <= k < i - 1 && i <= |resources| && resources[k].url == resources[i - 1].url
    requires SameUrlSameRead(resources, read)
    requires AllRead(resources, read, i - 1) && DefinedByOneUrl(resources, read, name, i - 1)
    ensures AllRead(resources, read, i) && DefinedByOneUrl(resources, read, name, i)
  {
    assert read(resources[i - 1]) == read(resources[k]);
    // The last resource stands for its earlier namesake `k`.
    forall j, m | 0 <= j < i && 0 <= m < i && DefinesIn(read, resources[j], name) && DefinesIn(read, resources[m], name)
      ensures resources[j].url == resources[m].url
    {
      var j', m' := if j == i - 1 then k else j, if m == i - 1 then k else m;
      assert resources[j'].url == resources[j].url && resources[m'].url == resources[m].url;
      assert DefinesIn(read, resources[j'], name) && DefinesIn(read, resources[m'], name);
    }
  }

  /** ...so skipping it keeps the search state right. */
  lemma SearchSkipKeepsInvariant(resources: seq<ConfigResource>, read: ConfigResource -> ReadResult, name: string, i: int, k: int, st: SearchState)
    requires 0 <= k < i - 1 && i <= |resources| && resources[k].url == resources[i - 1].url
    requires SameUrlSameRead(resources, read)
    requires SearchInvariant(resources, read, name, i - 1, st)
    ensures SearchInvariant(resources, read, name, i, st)
  {
    assert read(resources[i - 1]) == read(resources[k]);
    forall u | u in st.processed
      ensures exists m :: 0 <= m < i && resources[m].url == u
    {
      var m :| 0 <= m < i - 1 && resources[m].url == u;
    }
    forall m | 0 <= m < i && DefinesIn(read, resources[m], name)
      ensures name in st.byName && st.byName[name] == read(resources[m]).value[name]
    {
      var m' := if m == i - 1 then k else m;
      assert read(resources[m']) == read(resources[m]);
    }
  }

  /** A resource with a new URL is accepted exactly when it reads
      successfully and, if it defines `name`, no earlier one does... */
  lemma SearchReadAccepts(resources: seq<ConfigResource>, read: ConfigResource -> ReadResult, name: string, i: int, st: SearchState)
    requires 0 < i <= |resources|
    requires SearchInvariant(resources, read, name, i - 1, st)
    requires AllRead(resources, read, i - 1) && DefinedByOneUrl(resources, read, name, i - 1)
    requires resources[i - 1].url !in st.processed
    ensures AddResourceUnits(st, resources[i - 1].url, read(resources[i - 1]), name).Success? <==>
              AllRead(resources, read, i) && DefinedByOneUrl(resources, read, name, i)
  {
    var c := resources[i - 1];
    forall k | 0 <= k < i - 1
      ensures resources[k].url != c.url
    {
    }
    if read(c).Success? && DefinesIn(read, c, name) && name in st.byName {
      var k :| 0 <= k < i - 1 && DefinesIn(read, resources[k], name);
      assert !DefinedByOneUrl(resources, read, name, i) by {
        assert DefinesIn(read, resources[i - 1], name) && resources[k].url != resources[i - 1].url;
      }
    }
  }

  /** ...and then adds its units to the search state. */
  lemma SearchReadKeepsInvariant(resources: seq<ConfigResource>, read: ConfigResource -> ReadResult, name: string, i: int, st: SearchState)
    requires 0 < i <= |resources|
    requires SearchInvariant(resources, read, name, i - 1, st)
    requires DefinedByOneUrl(resources, read, name, i)
    requires AddResourceUnits(st, resources[i - 1].url, read(resources[i - 1]), name).Success?
    ensures SearchInvariant(resources, read, name, i, AddResourceUnits(st, resources[i - 1].url, read(resources[i - 1]), name).value)
  {
  }

  /** The search over the first `i` resources succeeds exactly when each
      reads successfully and at most one URL defines `name`. */
  lemma {:induction false} ResourceSearchPrefix(step: (SearchState, ConfigResource) -> Result<SearchState, JdoFailure>,
                                                read: ConfigResource -> ReadResult,
                                                resources: seq<ConfigResource>, name: string, i: int)
    requires SearchesWith(step, read, name) && SameUrlSameRead(resources, read)
    requires 0 <= i <= |resources|
    ensures FoldLeft(step, SearchState([], None, map[]), resources[..i]).Success? <==>
              AllRead(resources, read, i) && DefinedByOneUrl(resources, read, name, i)
    ensures FoldLeft(step, SearchState([], None, map[]), resources[..i]).Success? ==>
              SearchInvariant(resources, read, name, i, FoldLeft(step, SearchState([], None, map[]), resources[..i]).value)
    decreases i
  {
    if i > 0 {
      var pre := FoldLeft(step, SearchState([], None, map[]), resources[..i - 1]);
      assert FoldLeft(step, SearchState([], None, map[]), resources[..i]) ==
             (if pre.Failure? then pre else step(pre.value, resources[i - 1])) by {
        FoldLeftSnoc(step, SearchState([], None, map[]), resources[..i - 1], resources[i - 1]);
        assert resources[..i - 1] + [resources[i - 1]] == resources[..i];
      }
      ResourceSearchPrefix(step, read, resources, name, i - 1);
      if pre.Success? {
        if resources[i - 1].url in pre.value.processed {
          var k :| 0 <= k < i - 1 && resources[k].url == resources[i - 1].url;
          SearchSkipKeepsOneUrl(resources, read, name, i, k);
          SearchSkipKeepsInvariant(resources, read, name, i, k, pre.value);
        } else {
          SearchReadAccepts(resources, read, name, i, pre.value);
          if step(pre.value, resources[i - 1]).Success? {
            SearchReadKeepsInvariant(resources, read, name, i, pre.value);
          }
        }
      }
    }
  }

  /** getPersistenceUnitProperties succeeds exactly when every resource
      reads successfully and the requested unit is defined under one URL at
      most; it then returns the properties that URL defines for it, or
      None when no resource defines it. */
  lemma PersistenceUnitPropertiesSpec(name: Option<string>, resources: seq<ConfigResource>)
    requires SameUrlSameDocument(resources)
    ensures var n := TrimmedName(name);
            var r := PersistenceUnitProperties(name, resources);
            (r.Success? <==>
               (forall k :: 0 <= k < |resources| ==> ResourceUnits(resources[k], n).Success?) &&
               (forall j, k :: (0 <= j < |resources| && 0 <= k < |resources| &&
                                Defines(resources[j], n) && Defines(resources[k], n)) ==> resources[j].url == resources[k].url))
            && (r.Success? ==> (r.value.Some? <==> exists k :: 0 <= k < |resources| && Defines(resources[k], n)))
            && (r.Success? ==> forall k :: 0 <= k < |resources| && Defines(resources[k], n) ==>
                                 r.value == Some(ResourceUnits(resources[k], n).value[n]))
  {
    var n := TrimmedName(name);
    var read := ReadFor(n);
    assert SameUrlSameRead(resources, read);
    assert resources[..|resources|] == resources;
    SearchStepSearchesWith(n);
    ResourceSearchPrefix(SearchStep(n), read, resources, n, |resources|);
    forall k | 0 <= k < |resources|
      ensures read(resources[k]) == ResourceUnits(resources[k], n)
      ensures Defines(resources[k], n) <==> DefinesIn(read, resources[k], n)
    {
    }
    var r := PersistenceUnitProperties(name, resources);
    assert r == (match ResourceSearch(resources, n)
                 case Failure(e) => Failure(e)
                 case Success(st) => Success(UnitLookup(st.byName, n)));
  }
}
