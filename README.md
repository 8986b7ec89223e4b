# Apache JDO: jdoconfig resolution, TCK model classes and two RI leaf classes, in Dafny

This project models parts of Apache JDO and proves properties of the model.

**javax.jdo.JDOHelper: how a persistence unit is resolved from
`META-INF/jdoconfig.xml` resources.** This covers:
- reading the attributes and the `<property>` and
  `<instance-lifecycle-listener>` children of each
  `persistence-manager-factory` element;
- choosing the unit name;
- the three duplicate checks (within one element, within one resource, and
  across resources);
- the wrapping of runtime failures;
- the argument checks and routing of `getPersistenceManagerFactory` and
  `getPersistenceUnit`;
- the two `getObjectIds` mappings.

Each reader loop is an imperative method, proved equal to a specification
function (a left fold over the node list). The properties are then proved
about those functions.

**TCK model classes:**
- `FCAppCompany` and its `Oid`: identity, order, equality and hash all come
  from the id; the department set.
- `FCDSEmployee`: team and HR-advisee relationships kept on both sides; the
  one-sided project sets and setters.
- `OrderFactoryRegistry`: a one-slot registry that falls back to a default
  singleton.

**Reference-implementation leaf classes:**
- the JDOQL `ContainsCallExpr` node, which checks its target's type and its
  arity when it is built;
- the enhancer's `InsnTarget` pseudo-instruction.

| file | models |
|---|---|
| Wrappers.dfy | Option/Result/Outcome, and the left fold with its generic lemmas |
| JavaString.dfy | `String.trim`, `nullOrBlank`, `equalsIgnoreCase` |
| JdoConfig.dfy | the parsed DOM, the error messages, and the specification functions of the jdoconfig reader |
| JdoConfigProofs.dfy | what those functions promise |
| JdoConfigReader.dfy | the Java loops, proved equal to the specification functions |
| JdoHelper.dfy | `getObjectIds`, `getPersistenceManagerFactory`, `getPersistenceUnit` |
| CompanyFC.dfy | `FCAppCompany`, `FCAppCompany.Oid`, Java `long`/`int` arithmetic, `Long.toString`/`parseLong` |
| EmployeeFC.dfy | `FCDSEmployee` |
| OrderRegistry.dfy | `OrderFactoryRegistry` |
| JdoqlTree.dfy | `ContainsCallExpr` |
| Classfile.dfy | `InsnTarget` |

Where the code and its documentation differ, the model follows the code.
Two places matter:
- The duplicate-property check of `readPersistenceUnitProperties` calls
  `Properties.contains`, which tests **values**, not keys. The model
  reproduces this (`AttributeKeyAmongElementValues`). Two lemmas show the
  effect: `DuplicateCheckMissesRepeatedKey` and `DuplicateCheckMatchesValue`.
- A `<property>` element without a `value` attribute, or a listener element
  without `classes`, makes `Properties.put` throw a NullPointerException.
  The reader's catch clause turns that into a fatal user error with the
  SAX-exception message. The model reproduces both steps (`Put`,
  `WrapRuntimeFailure`).

## Model

| member | source | states |
|---|---|---|
| JavaString.Trim | api20/src/java/javax/jdo/JDOHelper.java:1294 | the trimmed value neither starts nor ends with white space (a char up to U+0020) |
| JavaString.TrimSpec | api20/src/java/javax/jdo/JDOHelper.java:1294 | trim returns a slice of its input with only white space before and after it |
| JavaString.TrimEmptyIffAllBlank | api20/src/java/javax/jdo/JDOHelper.java:1334-1335 | a string trims to "" exactly when it consists of white space |
| JavaString.TrimOfTrimmed | api20/src/java/javax/jdo/JDOHelper.java:1294 | a string with no white space at either end is its own trim |
| JavaString.TrimIdempotent | api20/src/java/javax/jdo/JDOHelper.java:1202 | trimming twice is trimming once |
| JavaString.NullOrBlankSpec | api20/src/java/javax/jdo/JDOHelper.java:1408-1410 | nullOrBlank is true exactly for null and for all-white-space strings |
| JdoConfigProofs.GetNamedItemSpec | api20/src/java/javax/jdo/JDOHelper.java:1329 | getNamedItem finds a value exactly when an attribute has that name, and the value is that attribute's |
| JdoConfigProofs.ElementsByTagNameSpec | api20/src/java/javax/jdo/JDOHelper.java:1157-1158 | getElementsByTagName yields exactly the elements carrying the tag among the nodes and all their descendants, in document order (an independent preorder traversal filtered by tag) |
| JdoConfigProofs.SelectUnitNameSpec | api20/src/java/javax/jdo/JDOHelper.java:1170-1202 | the unit name is an error exactly when both the attribute and the sub-element give a non-blank name; otherwise it is the trimmed non-blank one, or "" |
| JdoConfigProofs.AttributePropertiesKeys | api20/src/java/javax/jdo/JDOHelper.java:1291-1303 | the attribute properties have exactly the translated attribute names as keys (xref name, or the name itself when unknown) |
| JdoConfigProofs.AttributePropertiesLastWins | api20/src/java/javax/jdo/JDOHelper.java:1291-1303 | each key holds the trimmed value of the last attribute translating to it |
| JdoConfigProofs.AttributePropertiesTrimmed | api20/src/java/javax/jdo/JDOHelper.java:1294 | every attribute value stored is trimmed |
| JdoConfigProofs.ReadSubelementSpec | api20/src/java/javax/jdo/JDOHelper.java:1317-1403 | a child is accepted exactly when it is well formed and a `<property>` does not repeat a key; it then sets exactly its key to its value |
| JdoConfigProofs.SubelementStepSetsOneEntry | api20/src/java/javax/jdo/JDOHelper.java:1317-1403 | each accepted child changes the properties in exactly the one entry it names |
| JdoConfigProofs.SubelementPrefixSucceeds | api20/src/java/javax/jdo/JDOHelper.java:1317-1403 | reading the first i children succeeds exactly when each is well formed and no `<property>` repeats an earlier key |
| JdoConfigProofs.SubelementPropertiesContent | api20/src/java/javax/jdo/JDOHelper.java:1309-1406 | a successful read holds exactly the keys the children set, each with the last child's value |
| JdoConfigProofs.ReadFactoryElementContent | api20/src/java/javax/jdo/JDOHelper.java:1163-1225 | an element's properties have the keys of its attributes and children; a child's value overrides the attribute's |
| JdoConfigProofs.SingleAttribute | api20/src/java/javax/jdo/JDOHelper.java:1291-1303 | one attribute with a trimmed value gives the one-entry map under its translated name |
| JdoConfigProofs.SinglePropertyElement | api20/src/java/javax/jdo/JDOHelper.java:1325-1368 | one `<property name value>` child gives the one-entry map under its translated name |
| JdoConfigProofs.DuplicateCheckMissesRepeatedKey | api20/src/java/javax/jdo/JDOHelper.java:1205-1225 | a property given both as an attribute and as a `<property>` is accepted, and the element's value wins |
| JdoConfigProofs.DuplicateCheckMatchesValue | api20/src/java/javax/jdo/JDOHelper.java:1205-1219 | a `<property>` whose value equals an attribute's key makes the requested unit fail with the duplicate-property error |
| JdoConfigProofs.FactoryUnitsPrefixSucceeds | api20/src/java/javax/jdo/JDOHelper.java:1160-1237 | the first i elements read successfully exactly when each reads and at most one names the requested unit |
| JdoConfigProofs.FactoryUnitsContent | api20/src/java/javax/jdo/JDOHelper.java:1160-1238 | a resource's units are exactly the names its elements define; the last element for a name wins, and the requested unit is the single element naming it |
| JdoConfigProofs.ConfigUnitsSpec | api20/src/java/javax/jdo/JDOHelper.java:1133-1280 | a resource yields its units exactly when it parsed, has a root, and its elements read without repeating the requested unit; a NullPointerException never escapes |
| JdoConfigProofs.SearchSkipKeepsOneUrl | api20/src/java/javax/jdo/JDOHelper.java:952-954 | skipping a repeated URL keeps the one-defining-URL condition |
| JdoConfigProofs.SearchSkipKeepsInvariant | api20/src/java/javax/jdo/JDOHelper.java:952-954 | skipping a repeated URL keeps the search state right |
| JdoConfigProofs.SearchReadAccepts | api20/src/java/javax/jdo/JDOHelper.java:959-978 | a new URL is accepted exactly when it reads and no other URL already defines the unit |
| JdoConfigProofs.SearchReadKeepsInvariant | api20/src/java/javax/jdo/JDOHelper.java:980-981 | an accepted resource's units join the search state |
| JdoConfigProofs.ResourceSearchPrefix | api20/src/java/javax/jdo/JDOHelper.java:950-982 | the search over the first i resources succeeds exactly when each reads and one URL at most defines the unit; the state then holds that unit's properties |
| JdoConfigProofs.PersistenceUnitPropertiesSpec | api20/src/java/javax/jdo/JDOHelper.java:914-997 | getPersistenceUnitProperties succeeds exactly when all resources read and one URL at most defines the unit; it returns that URL's properties, or null when none defines it |
| JdoConfigReader.ReadPropertiesFromPMFElementAttributes | api20/src/java/javax/jdo/JDOHelper.java:1282-1307 | the attribute loop computes the attribute-properties fold |
| JdoConfigReader.ReadPropertiesFromPMFSubelements | api20/src/java/javax/jdo/JDOHelper.java:1309-1406 | the child loop, with each of its throws, computes the sub-element fold |
| JdoConfigReader.ReadPersistenceUnitProperties | api20/src/java/javax/jdo/JDOHelper.java:1133-1280 | the element loop and the catch clauses compute the units of one resource |
| JdoConfigReader.ReadUnit | api20/src/java/javax/jdo/JDOHelper.java:1161-1236 | one loop body (name choice, duplicate-property loop, merge, same-config check) computes one fold step |
| JdoConfigReader.GetPersistenceUnitProperties | api20/src/java/javax/jdo/JDOHelper.java:914-997 | the resource loop computes the search over all resources |
| JdoHelper.ObjectIdsPointwise | api20/src/java/javax/jdo/JDOHelper.java:412-418 | one id per instance, the i-th being the i-th instance's id |
| JdoHelper.ObjectIdsAppend | api20/src/java/javax/jdo/JDOHelper.java:412-418 | the mapping preserves order across concatenation |
| JdoHelper.GetObjectIdsOfCollection | api20/src/java/javax/jdo/JDOHelper.java:412-418 | the loop returns the ids in iteration order |
| JdoHelper.GetObjectIdsOfArray | api20/src/java/javax/jdo/JDOHelper.java:432-438 | a new array of the same length holding the i-th instance's id at i |
| JdoHelper.GetPersistenceManagerFactoryFromProperties | api20/src/java/javax/jdo/JDOHelper.java:676-716 | without the factory-class property the call fails with the no-class-name error; otherwise the named class's factory method decides |
| JdoHelper.GetPersistenceManagerFactory | api20/src/java/javax/jdo/JDOHelper.java:778-828 | the null-loader checks in order; then a properties resource; then the unit (trimmed name, "" for null): its failure is passed on unchanged, its absence is the not-configurable error, and a found factory is the result |
| JdoHelper.AnonymousUnitWithoutConfig | api20/src/java/javax/jdo/JDOHelper.java:855-874 | with no jdoconfig unit, the anonymous unit is null and the JPA bridge is not asked |
| JdoHelper.NoNameWithoutConfig | api20/src/java/javax/jdo/JDOHelper.java:814-827 | without a name and without a configured anonymous unit, the call fails with the not-configurable error |
| JdoHelper.ConfiguredUnitFactory | api20/src/java/javax/jdo/JDOHelper.java:862-865 | a unit defined under one URL is built by the factory class its properties name |
| CompanyFC.IntCast | tck/src/main/java/org/apache/jdo/tck/pc/companyAnnotatedFC/FCAppCompany.java:333-335 | `(int)` keeps the low 32 bits and is the identity in the int range |
| CompanyFC.IntCastWraps | tck/src/main/java/org/apache/jdo/tck/pc/companyAnnotatedFC/FCAppCompany.java:333-335 | ids equal modulo 2^32 hash alike |
| CompanyFC.LongCompare | tck/src/main/java/org/apache/jdo/tck/pc/companyAnnotatedFC/FCAppCompany.java:388-390 | Long.compare's sign orders its arguments |
| CompanyFC.Company.Default | tck/src/main/java/org/apache/jdo/tck/pc/companyAnnotatedFC/FCAppCompany.java:72-77 | a new company has id 0 and an empty department set |
| CompanyFC.Company.constructor | tck/src/main/java/org/apache/jdo/tck/pc/companyAnnotatedFC/FCAppCompany.java:87-91 | the constructor stores the id and name, with an empty department set |
| CompanyFC.Company.SetCompanyid | tck/src/main/java/org/apache/jdo/tck/pc/companyAnnotatedFC/FCAppCompany.java:117-121 | an id already set makes the call throw IllegalStateException and changes nothing; otherwise the id is set |
| CompanyFC.Company.AddDepartment | tck/src/main/java/org/apache/jdo/tck/pc/companyAnnotatedFC/FCAppCompany.java:186-188 | exactly the department is added; a null set throws |
| CompanyFC.Company.RemoveDepartment | tck/src/main/java/org/apache/jdo/tck/pc/companyAnnotatedFC/FCAppCompany.java:195-197 | exactly the department is removed; a null set throws |
| CompanyFC.Company.SetDepartments | tck/src/main/java/org/apache/jdo/tck/pc/companyAnnotatedFC/FCAppCompany.java:206-211 | a copy of the argument, or null, is stored |
| CompanyFC.Company.HashCode | tck/src/main/java/org/apache/jdo/tck/pc/companyAnnotatedFC/FCAppCompany.java:333-335 | the hash is the id modulo 2^32, and the id itself in the int range |
| CompanyFC.Company.CompareTo | tck/src/main/java/org/apache/jdo/tck/pc/companyAnnotatedFC/FCAppCompany.java:299-301 | the sign of compareTo follows the order of the two ids |
| CompanyFC.Company.Equals | tck/src/main/java/org/apache/jdo/tck/pc/companyAnnotatedFC/FCAppCompany.java:322-327 | equal exactly to another company with the same id; never to null or another class |
| CompanyFC.Compare | tck/src/main/java/org/apache/jdo/tck/pc/companyAnnotatedFC/FCAppCompany.java:312-314 | companies compare as their ids do |
| CompanyFC.EqualCompaniesHashAlike | tck/src/main/java/org/apache/jdo/tck/pc/companyAnnotatedFC/FCAppCompany.java:322-335 | equal companies have equal hash codes |
| CompanyFC.CompareIsAnOrder | tck/src/main/java/org/apache/jdo/tck/pc/companyAnnotatedFC/FCAppCompany.java:312-314 | compare is antisymmetric and transitive |
| CompanyFC.Oid.HashCode | tck/src/main/java/org/apache/jdo/tck/pc/companyAnnotatedFC/FCAppCompany.java:379-381 | the Oid hash is the id in the int range |
| CompanyFC.Oid.CompareTo | tck/src/main/java/org/apache/jdo/tck/pc/companyAnnotatedFC/FCAppCompany.java:388-390 | Oids compare as their ids do |
| CompanyFC.OidEqualsIsEquivalence | tck/src/main/java/org/apache/jdo/tck/pc/companyAnnotatedFC/FCAppCompany.java:369-381 | Oid.equals is reflexive, symmetric and transitive and refuses null; equal Oids hash alike and compare as 0 |
| CompanyFC.IndexOf | tck/src/main/java/org/apache/jdo/tck/pc/companyAnnotatedFC/FCAppCompany.java:384 | indexOf gives the first occurrence, or -1 exactly when there is none |
| CompanyFC.JustTheId | tck/src/main/java/org/apache/jdo/tck/pc/companyAnnotatedFC/FCAppCompany.java:383-385 | justTheId is what follows the first ':', or the whole string without one |
| CompanyFC.NatDigits | tck/src/main/java/org/apache/jdo/tck/pc/companyAnnotatedFC/FCAppCompany.java:365 | the decimal form of a number is a non-empty run of digits |
| CompanyFC.ParseDigits | tck/src/main/java/org/apache/jdo/tck/pc/companyAnnotatedFC/FCAppCompany.java:363 | a digit string has a value exactly when it is non-empty and all digits |
| CompanyFC.ParseLong | tck/src/main/java/org/apache/jdo/tck/pc/companyAnnotatedFC/FCAppCompany.java:363 | parseLong accepts exactly an optional '+' or '-' followed by at least one digit, with a value in the long range, and answers that signed value |
| CompanyFC.ParseLongOfToString | tck/src/main/java/org/apache/jdo/tck/pc/companyAnnotatedFC/FCAppCompany.java:363-365 | parseLong reads back every long's decimal form |
| CompanyFC.OidOfString | tck/src/main/java/org/apache/jdo/tck/pc/companyAnnotatedFC/FCAppCompany.java:363 | Oid(String) keeps the runtime class, and fails exactly when the text after the first colon (or the whole string) does not parse as a long |
| CompanyFC.OidOfStringReadsColonForm | tck/src/main/java/org/apache/jdo/tck/pc/companyAnnotatedFC/FCAppCompany.java:363-385 | a colon-free class name, ':' and a long's decimal form give back an Oid with that long |
| CompanyFC.OidOfStringReadsBareId | tck/src/main/java/org/apache/jdo/tck/pc/companyAnnotatedFC/FCAppCompany.java:363-385 | a long's decimal form alone gives back an Oid with that long |
| CompanyFC.OidStringNotParsed | tck/src/main/java/org/apache/jdo/tck/pc/companyAnnotatedFC/FCAppCompany.java:363-385 | Oid(String) refuses toString's own output: the blank after ':' is not part of a number |
| EmployeeFC.Employee.constructor | tck/src/main/java/org/apache/jdo/tck/pc/companyAnnotatedFC/FCDSEmployee.java:59-87 | a new employee has empty sets and no manager or HR advisor |
| EmployeeFC.Employee.AddToTeam | tck/src/main/java/org/apache/jdo/tck/pc/companyAnnotatedFC/FCDSEmployee.java:351-354 | emp joins the team and its manager becomes this; nothing else changes; a null team throws before touching either employee; a null emp is added to the set, then throws |
| EmployeeFC.Employee.RemoveFromTeam | tck/src/main/java/org/apache/jdo/tck/pc/companyAnnotatedFC/FCDSEmployee.java:362-365 | emp leaves the team and its manager becomes null, even if emp was not on the team; a null team throws before touching either employee |
| EmployeeFC.Employee.AddAdvisee | tck/src/main/java/org/apache/jdo/tck/pc/companyAnnotatedFC/FCDSEmployee.java:449-452 | emp joins the HR advisees and its HR advisor becomes this; a null set throws before touching either employee |
| EmployeeFC.Employee.RemoveAdvisee | tck/src/main/java/org/apache/jdo/tck/pc/companyAnnotatedFC/FCDSEmployee.java:460-463 | emp leaves the HR advisees and its HR advisor becomes null; a null set throws before touching either employee |
| EmployeeFC.Employee.AddProject | tck/src/main/java/org/apache/jdo/tck/pc/companyAnnotatedFC/FCDSEmployee.java:221-223 | only the project set changes, by exactly the project |
| EmployeeFC.Employee.RemoveProject | tck/src/main/java/org/apache/jdo/tck/pc/companyAnnotatedFC/FCDSEmployee.java:230-232 | only the project set changes, by exactly the project |
| EmployeeFC.Employee.AddReviewedProjects | tck/src/main/java/org/apache/jdo/tck/pc/companyAnnotatedFC/FCDSEmployee.java:183-185 | only the reviewed-project set changes, by exactly the project |
| EmployeeFC.Employee.RemoveReviewedProject | tck/src/main/java/org/apache/jdo/tck/pc/companyAnnotatedFC/FCDSEmployee.java:192-194 | only the reviewed-project set changes, by exactly the project |
| EmployeeFC.Employee.SetTeam | tck/src/main/java/org/apache/jdo/tck/pc/companyAnnotatedFC/FCDSEmployee.java:372-376 | a copy of the argument, or null, is stored; no manager field changes |
| EmployeeFC.Employee.SetHradvisees | tck/src/main/java/org/apache/jdo/tck/pc/companyAnnotatedFC/FCDSEmployee.java:470-474 | a copy of the argument, or null, is stored |
| EmployeeFC.Employee.SetProjects | tck/src/main/java/org/apache/jdo/tck/pc/companyAnnotatedFC/FCDSEmployee.java:239-243 | a copy of the argument, or null, is stored |
| EmployeeFC.Employee.SetReviewedProjects | tck/src/main/java/org/apache/jdo/tck/pc/companyAnnotatedFC/FCDSEmployee.java:201-205 | a copy of the argument, or null, is stored |
| EmployeeFC.Employee.SetManager | tck/src/main/java/org/apache/jdo/tck/pc/companyAnnotatedFC/FCDSEmployee.java:330-332 | only the manager field changes; no team set is touched |
| EmployeeFC.AddThenRemoveFromTeam | tck/src/main/java/org/apache/jdo/tck/pc/companyAnnotatedFC/FCDSEmployee.java:351-365 | adding a non-member and removing it restores the team and leaves it unmanaged |
| EmployeeFC.AddThenRemoveAdvisee | tck/src/main/java/org/apache/jdo/tck/pc/companyAnnotatedFC/FCDSEmployee.java:449-463 | adding a non-advisee and removing it restores the advisees |
| EmployeeFC.MoveToTeam | tck/src/main/java/org/apache/jdo/tck/pc/companyAnnotatedFC/FCDSEmployee.java:351-354 | joining a new team ends the old manager's relationship but leaves emp in the old team set |
| OrderRegistry.FactoryClassName | tck/src/main/java/org/apache/jdo/tck/pc/order/OrderFactoryRegistry.java:54-58 | the system property when non-empty, else the default class; never empty |
| OrderRegistry.Registry.constructor | tck/src/main/java/org/apache/jdo/tck/pc/order/OrderFactoryRegistry.java:54-67 | class initialisation fixes the class name and registers the singleton |
| OrderRegistry.Registry.GetInstance | tck/src/main/java/org/apache/jdo/tck/pc/order/OrderFactoryRegistry.java:77-79 | returns the registered factory |
| OrderRegistry.Registry.RegisterDefaultFactory | tck/src/main/java/org/apache/jdo/tck/pc/order/OrderFactoryRegistry.java:82-84 | the singleton is registered again |
| OrderRegistry.Registry.RegisterFactory | tck/src/main/java/org/apache/jdo/tck/pc/order/OrderFactoryRegistry.java:124-126 | the given factory, or the singleton for null, is registered |
| OrderRegistry.Registry.RegisterNamedFactory | tck/src/main/java/org/apache/jdo/tck/pc/order/OrderFactoryRegistry.java:105-117 | a null name registers the singleton; a constructed factory is registered; a failure throws RuntimeException and keeps the slot |
| OrderRegistry.Registry.RegisterFactoryOfPm | tck/src/main/java/org/apache/jdo/tck/pc/order/OrderFactoryRegistry.java:93-95 | registers the class FACTORY_CLASS_NAME names |
| OrderRegistry.ResetRestoresInitial | tck/src/main/java/org/apache/jdo/tck/pc/order/OrderFactoryRegistry.java:64-84 | whatever was registered, registerFactory() brings back the initial factory |
| OrderRegistry.FailedRegistrationKeepsFactory | tck/src/main/java/org/apache/jdo/tck/pc/order/OrderFactoryRegistry.java:105-117 | a failed registration is invisible to getInstance |
| JdoqlTree.NewContainsCall | ri11/src/java/org/apache/jdo/impl/jdoql/tree/ContainsCallExpr.java:66-77 | built exactly when the known target type is a Collection and there is one argument; the type error comes first; the node carries CONTAINS, "contains" and Boolean |
| JdoqlTree.NewContainsCallOf | ri11/src/java/org/apache/jdo/impl/jdoql/tree/ContainsCallExpr.java:85-87 | the one-argument constructor fails only on the type check and holds its argument alone |
| JdoqlTree.Arrive | ri11/src/java/org/apache/jdo/impl/jdoql/tree/ContainsCallExpr.java:93-95 | arrive hands the node to the visitor |
| JdoqlTree.Leave | ri11/src/java/org/apache/jdo/impl/jdoql/tree/ContainsCallExpr.java:103-105 | leave returns the visitor's answer for the node and the unchanged results |
| JdoqlTree.WalkNextChild | ri11/src/java/org/apache/jdo/impl/jdoql/tree/ContainsCallExpr.java:116-121 | walkNextChild returns the visitor's answer for the node and the unchanged arguments |
| JdoqlTree.TypeErrorFirst | ri11/src/java/org/apache/jdo/impl/jdoql/tree/ContainsCallExpr.java:69-76 | a non-Collection target is reported even when the arity is also wrong |
| JdoqlTree.ConstructorsAgree | ri11/src/java/org/apache/jdo/impl/jdoql/tree/ContainsCallExpr.java:66-87 | both constructors accept the same targets and build the same node for one argument |
| Classfile.InsnTarget.constructor | ri11/src/java/org/apache/jdo/impl/enhancer/classfile/InsnTarget.java:64-66 | opcode opc_target, offset NO_OFFSET, not a branch target |
| Classfile.InsnTarget.AtOffset | ri11/src/java/org/apache/jdo/impl/enhancer/classfile/InsnTarget.java:111-113 | opcode opc_target at the given offset, not a branch target |
| Classfile.InsnTarget.SetBranchTarget | ri11/src/java/org/apache/jdo/impl/enhancer/classfile/InsnTarget.java:52-54 | the flag becomes true |
| Classfile.InsnTarget.Store | ri11/src/java/org/apache/jdo/impl/enhancer/classfile/InsnTarget.java:103-109 | returns the index unchanged, advanced by the zero size, and writes nothing |
| Classfile.InsnTarget.IsEqual | ri11/src/java/org/apache/jdo/impl/enhancer/classfile/InsnTarget.java:72-94 | equal exactly to an InsnTarget passing the Insn-level check with the same flag; each unequal case pushes its two messages in order |
| Classfile.BranchTargetIsNeutral | ri11/src/java/org/apache/jdo/impl/enhancer/classfile/InsnTarget.java:32-50 | no stack arguments or results, empty type strings, not a branch, size 0 |
| Classfile.SetBranchTargetTwice | ri11/src/java/org/apache/jdo/impl/enhancer/classfile/InsnTarget.java:52-59 | setting the flag is idempotent and isBranchTarget then answers true |
| Classfile.FreshTargetsEqualUntilMarked | ri11/src/java/org/apache/jdo/impl/enhancer/classfile/InsnTarget.java:30-94 | two new targets whose Insn-level check passes are equal until one becomes a branch target |

Proof steps without a row of their own unfold a specification function for
the fold lemmas of Wrappers.dfy and state nothing beyond that function's
definition:
- JdoConfigProofs.ReadFactoryElementMerges and ReadFactoryElementSteps;
- UnitStepSetsOneEntry and UnitStepChecksRequested;
- SearchStepSearchesWith;
- NoRepeatedPropertyKeyStep and WellFormedChildEntry.

What they serve is stated by ReadFactoryElementContent,
DuplicateCheckMissesRepeatedKey, DuplicateCheckMatchesValue,
FactoryUnitsPrefixSucceeds, FactoryUnitsContent, SubelementPrefixSucceeds,
ResourceSearchPrefix and PersistenceUnitPropertiesSpec.

## Left out

- XML parsing and I/O: a resource is given as its parsed document or as the kind of exception parsing raised. Opening and closing streams, `DocumentBuilderFactory` set-up and class-loader resource enumeration are not modelled. The resources are a sequence in enumeration order.
- A `FactoryConfigurationError` and an IOException from resource enumeration in getPersistenceUnitProperties are not modelled.
- Reflection: loading the factory class and invoking its `getPersistenceManagerFactory(Map)` are a function parameter, which returns the failure the catch clauses would raise. Constructing an order factory by class name is a parameter too. A factory method that returns null is not modelled.
- getPMFFromEMF (the JPA bridge) is a function parameter. JNDI and stream-based lookups are not part of this model.
- Properties files: a properties resource is given already loaded.
- `equalsIgnoreCase` folds ASCII letters only; Unicode case folding is not modelled.
- The DuplicatePropertyFound message omits the offending property name, because which one is reported depends on HashMap iteration order.
- PersistenceUnitPropertiesSpec and the lemmas built on it assume the class loader returns the same document for the same URL (SameUrlSameDocument).
- Object identity: departments, projects, factories and expression nodes are plain identifiers; only employees and instructions are heap objects. ClassCastException from the `(FCDSEmployee)` and `(FCAppCompany)` casts is not modelled.
- EqualityHelper.compare is not part of this model. FCAppCompany's compare is modelled as the sign comparison of the two longs.
- The `founded` date, `name` setters, `address`, the mentor/protege/hradvisor setters, `deepCompareFields`, `toString`/`getFieldRepr` and serialization (`readObject`) of the TCK classes are not modelled. The unseen EqualityHelper and date formatting lie behind most of them.
- Classfile.InsnTarget.IsEqual: `Insn.isEqual` is not part of this model. Its answer and the messages it pushes are given as parameters. The runtime class is taken to be InsnTarget itself.
- OpcTarget and NoOffset: their values are defined in VMConstants and Insn, which are not part of this model. They are left symbolic.
- `print` of InsnTarget writes to a stream and is not modelled.
- ContainsCallExpr: the MethodCallExpr super constructor, a null target, the ANTLR constructors and message formatting are not part of this model. Collection-assignability is given with each class.
- OrderRegistry.Registry.RegisterNamedFactory: only failures of the reflective construction are modelled as the caught exception. An exception from registerFactory(factory) itself cannot occur.
- FCDSEmployee's constructors that take a person id, names and dates, and the inherited FCDSPerson and FCDSEmployee fields they set, are not modelled. Only the no-argument constructor is modelled.
- CompanyFC.ParseDigits: only the ASCII digits '0'..'9' are digits here. Long.parseLong reads digits with Character.digit, which also accepts the other Unicode decimal digits, such as U+0660..U+0669. An id written with those parses in Java but is a NumberFormatException (None) in the model.
- CompanyFC.ParseLong: the same ASCII-only restriction as ParseDigits.
- javax.jdo.Constants is not part of this model. The values of the xref targets and of the listener prefix (JdoConfig.dfy) are those of the released javax.jdo.Constants. For the listener prefix that is "javax.jdo.listener.InstanceLifecycleListener.", although a comment in JDOHelper (lines 1390-1391) writes "javax.jdo.option.InstanceLifecycleListener.".
- JdoConfig.SearchResource: processed URLs are compared as strings. Java's list lookup uses URL.equals, which may resolve host names.
- EmployeeFC: team and advisee membership is by object identity. This assumes FCDSPerson, which is not part of this model, does not override equals.
- JdoHelper.GetObjectIdsOfCollection and GetObjectIdsOfArray: a null collection or array, which makes Java throw NullPointerException, cannot be passed. A seq and a non-null array have no null.
