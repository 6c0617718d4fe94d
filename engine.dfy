/** The three model classes: `DataModel` of src/parsers/DataModel.ts and
    the two earlier `CDMModel`s of src/parsers/CDMModel.ts and
    src/parsers/CDMModel.tsx. Each owns one `document` and changes it in
    place; every change is the document operation of the same name applied
    to the current document. Parsing and serializing are the XML library's
    and come in as parameters. */
module Engine {
  import opened Xml
  import opened Store
  import opened Geometry
  import opened Ops
  import Attributes
  import Identifiers
  import Domains
  import Relations
  import Deletion

  // ---------------------------------------------------------------------
  // The two loops of the engine.

  /** `findNodeByPath(document, path)`: from the document element, one
      `getChildNodeForName` per dot-separated segment. The answer is the node
      reached, `undefined` when only the last segment is missing, and a
      TypeError (`Crash`) when an earlier one is. */
  method FindNodeByPath(doc: Node, path: string) returns (r: Lookup)
    ensures r == Resolve(doc, Split(path, '.'))
  {
    r := FindNodeBySegments(doc, Split(path, '.'));
  }

  /** The loop of `findNodeByPath` over the segments of the path. */
  method FindNodeBySegments(doc: Node, segments: seq<string>) returns (r: Lookup)
    requires segments != []
    ensures r == Resolve(doc, segments)
  {
    var last: Option<seq<nat>> := Some([]);
    var i := 0;
    while i < |segments|
      invariant 0 <= i <= |segments|
      invariant last == Locate(doc, segments[..i])
      invariant i > 0 ==> Locate(doc, segments[..i - 1]).Some?
    {
      if last.None? {
        UndefinedStaysUndefined(doc, segments, i);
        return Crash;
      }
      LocateNext(doc, segments, i);
      last := StepFrom(doc, last.value, segments[i]);
      i := i + 1;
    }
    ResolveWhole(doc, segments, last);
    r := if last.Some? then Found(last.value) else Undefined;
  }

  /** One more segment is one more step from the node reached so far. */
  lemma LocateNext(doc: Node, segments: seq<string>, i: nat)
    requires i < |segments| && Locate(doc, segments[..i]).Some?
    ensures Locate(doc, segments[..i + 1]) == StepFrom(doc, Locate(doc, segments[..i]).value, segments[i])
  {
    assert segments[..i + 1] == segments[..i] + [segments[i]];
    LocateSnoc(doc, segments[..i], segments[i]);
  }

  /** Once every segment but the last leads somewhere, the lookup is the
      node the whole path reaches or `undefined`. */
  lemma ResolveWhole(doc: Node, segments: seq<string>, last: Option<seq<nat>>)
    requires segments != [] && Locate(doc, segments[..|segments| - 1]).Some?
    requires last == Locate(doc, segments[..|segments|])
    ensures Resolve(doc, segments) == if last.Some? then Found(last.value) else Undefined
  {
    assert segments[..|segments|] == segments;
  }

  /** A prefix that leads nowhere leaves every longer prefix leading nowhere. */
  lemma UndefinedStaysUndefined(doc: Node, segments: seq<string>, i: nat)
    requires i < |segments| && Locate(doc, segments[..i]).None?
    ensures Resolve(doc, segments) == Crash
  {
    assert segments[..|segments| - 1] == segments[..i] + segments[i..|segments| - 1];
    if Locate(doc, segments[..|segments| - 1]).Some? {
      LocatePrefix(doc, segments[..i], segments[i..|segments| - 1]);
    }
  }

  /** `'o:RootObject.c:Children.o:Model.' + path` splits into the model path
      followed by the segments of `path`. */
  lemma ModelPathSplit(path: string)
    ensures Split("o:RootObject.c:Children.o:Model." + path, '.') == ModelPath + Split(path, '.')
  {
    var t3 := "o:Model" + ['.'] + path;
    var t2 := "c:Children" + ['.'] + t3;
    var t1 := "o:RootObject" + ['.'] + t2;
    assert "o:RootObject.c:Children.o:Model." + path == t1;
    assert '.' !in "o:Model" && '.' !in "c:Children" && '.' !in "o:RootObject";
    SplitCons("o:Model", path, '.');
    SplitCons("c:Children", t3, '.');
    SplitCons("o:RootObject", t2, '.');
    var rest := Split(path, '.');
    assert Split(t1, '.') == ["o:RootObject"] + (["c:Children"] + (["o:Model"] + rest));
    ConsThree("o:RootObject", "c:Children", "o:Model", rest);
  }

  lemma ConsThree<T>(a: T, b: T, c: T, rest: seq<T>)
    ensures [a] + ([b] + ([c] + rest)) == [a, b, c] + rest
  {
    var l, r := [a] + ([b] + ([c] + rest)), [a, b, c] + rest;
    assert |l| == |r|;
    forall k | 0 <= k < |l|
      ensures l[k] == r[k]
    {
      if k >= 3 {
        assert l[k] == rest[k - 3];
      }
    }
  }

  /** `setAttributesOnNode(node, attributes)`: one create-or-overwrite per key,
      in the order of the object literal. `None` where the source throws. */
  method SetAttributesOnNode(node: Node, attributes: seq<(string, string)>) returns (r: Option<Node>)
    ensures r == SetFields(node, attributes)
  {
    var n := node;
    var i := 0;
    while i < |attributes|
      invariant 0 <= i <= |attributes|
      invariant SetFields(n, attributes[i..]) == SetFields(node, attributes)
    {
      assert attributes[i..][1..] == attributes[i + 1..];
      match SetField(n, attributes[i].0, attributes[i].1)
      case None =>
        return None;
      case Some(m) =>
        n := m;
      i := i + 1;
    }
    return Some(n);
  }

  // ---------------------------------------------------------------------
  // The current engine.

  /** `DataModel` of src/parsers/DataModel.ts. A method that the source would
      leave by a throw requires the operation to succeed; the uuids a
      creation draws from `getUid` are parameters. */
  class DataModel {
    var document: Node

    /** `new Document()`: an empty document, in which every lookup fails. */
    constructor ()
      ensures document == Empty("")
    {
      document := Empty("");
    }

    /** `loadFromXml(xml)`: every `&` becomes the placeholder before parsing. */
    method LoadFromXml(xml: string, parse: string -> Node)
      modifies this
      ensures document == parse(ToPlaceholder(xml))
    {
      document := parse(ToPlaceholder(xml));
    }

    /** `getAsXml()`: the preamble, then the serialized document element with
        the placeholder turned back into `&`. */
    method GetAsXml(serialize: Node -> string) returns (xml: string)
      ensures xml == Store.GetAsXml(serialize(document))
    {
      xml := Store.GetAsXml(serialize(document));
    }

    /** `findNode(pathRelativeFromModel)`. */
    method FindNode(pathRelativeFromModel: string) returns (r: Lookup)
      ensures r == Resolve(document, ModelPath + Split(pathRelativeFromModel, '.'))
      ensures r.Found? <==> Ops.FindNode(document, Split(pathRelativeFromModel, '.')).Some?
    {
      ModelPathSplit(pathRelativeFromModel);
      r := FindNodeByPath(document, "o:RootObject.c:Children.o:Model." + pathRelativeFromModel);
    }

    method SetAttributeForEntity(entityId: string, attributeName: string, value: string)
      requires Ops.SetAttributeForEntity(document, entityId, attributeName, value).Some?
      modifies this
      ensures document == Ops.SetAttributeForEntity(old(document), entityId, attributeName, value).value
    {
      document := Ops.SetAttributeForEntity(document, entityId, attributeName, value).value;
    }

    method SetDataItemRefForEntity(entityId: string, attributeId: string, dataItemId: string)
      requires Ops.SetDataItemRefForEntity(document, entityId, attributeId, dataItemId).Some?
      modifies this
      ensures document == Ops.SetDataItemRefForEntity(old(document), entityId, attributeId, dataItemId).value
    {
      document := Ops.SetDataItemRefForEntity(document, entityId, attributeId, dataItemId).value;
    }

    method MoveEntity(entityId: string, nextCoordinates: Rectangle)
      requires Ops.MoveEntity(document, entityId, nextCoordinates).Some?
      modifies this
      ensures document == Ops.MoveEntity(old(document), entityId, nextCoordinates).value
    {
      document := Ops.MoveEntity(document, entityId, nextCoordinates).value;
    }

    method CreateEntity(name: string, objectId: string, code: string)
      requires Ops.CreateEntity(document, name, objectId, code, FontListCurrent).Some?
      modifies this
      ensures document == Ops.CreateEntity(old(document), name, objectId, code, FontListCurrent).value
    {
      document := Ops.CreateEntity(document, name, objectId, code, FontListCurrent).value;
    }

    method SetDomainForDataItem(dataItemId: string, nextDomainId: string)
      requires Ops.SetDomainForDataItem(document, dataItemId, nextDomainId).Some?
      modifies this
      ensures document == Ops.SetDomainForDataItem(old(document), dataItemId, nextDomainId).value
    {
      document := Ops.SetDomainForDataItem(document, dataItemId, nextDomainId).value;
    }

    method SetDataTypeAndLengthForDataItem(dataItemId: string, nextDataType: string, nextDataTypeLength: int)
      requires Ops.SetDataTypeAndLengthForDataItem(document, dataItemId, nextDataType, nextDataTypeLength).Some?
      modifies this
      ensures document == Ops.SetDataTypeAndLengthForDataItem(old(document), dataItemId, nextDataType, nextDataTypeLength).value
    {
      document := Ops.SetDataTypeAndLengthForDataItem(document, dataItemId, nextDataType, nextDataTypeLength).value;
    }

    method CreateAttributeForEntity(entityId: string, name: string, dataType: string, length: int,
                                    attributeObjectId: string, attributeCode: string, itemObjectId: string, itemCode: string)
      requires Attributes.CreateAttributeForEntity(document, entityId, name, dataType, length,
                                                   attributeObjectId, attributeCode, itemObjectId, itemCode).Some?
      modifies this
      ensures document == Attributes.CreateAttributeForEntity(old(document), entityId, name, dataType, length,
                                                              attributeObjectId, attributeCode, itemObjectId, itemCode).value
    {
      document := Attributes.CreateAttributeForEntity(document, entityId, name, dataType, length,
                                                      attributeObjectId, attributeCode, itemObjectId, itemCode).value;
    }

    method RemoveAttributeForEntity(entityId: string, attributeId: string)
      requires Attributes.RemoveAttributeForEntity(document, entityId, attributeId).Some?
      modifies this
      ensures document == Attributes.RemoveAttributeForEntity(old(document), entityId, attributeId).value
    {
      document := Attributes.RemoveAttributeForEntity(document, entityId, attributeId).value;
    }

    method RemoveIdentifierForEntity(entityId: string, attributeIdUsedForIdentifier: string)
      requires Identifiers.RemoveIdentifierForEntity(document, entityId, attributeIdUsedForIdentifier).Some?
      modifies this
      ensures document == Identifiers.RemoveIdentifierForEntity(old(document), entityId, attributeIdUsedForIdentifier).value
    {
      document := Identifiers.RemoveIdentifierForEntity(document, entityId, attributeIdUsedForIdentifier).value;
    }

    method AddIdentifierForEntity(entityId: string, attributeIdUsedForIdentifier: string, isPrimaryIdentifier: bool,
                                  objectId: string, code: string)
      requires Identifiers.AddIdentifierForEntity(document, entityId, attributeIdUsedForIdentifier,
                                                  isPrimaryIdentifier, objectId, code).Some?
      modifies this
      ensures document == Identifiers.AddIdentifierForEntity(old(document), entityId, attributeIdUsedForIdentifier,
                                                             isPrimaryIdentifier, objectId, code).value
    {
      document := Identifiers.AddIdentifierForEntity(document, entityId, attributeIdUsedForIdentifier,
                                                     isPrimaryIdentifier, objectId, code).value;
    }

    method DeleteEntity(entityId: string)
      requires Deletion.DeleteEntity(document, entityId).Some?
      modifies this
      ensures document == Deletion.DeleteEntity(old(document), entityId).value
    {
      document := Deletion.DeleteEntity(document, entityId).value;
    }

    method SetDataTypeAndLengthForDomain(domainId: string, name: string, dataType: string, length: int)
      requires Domains.SetDataTypeAndLengthForDomain(document, domainId, name, dataType, length).Some?
      modifies this
      ensures document == Domains.SetDataTypeAndLengthForDomain(old(document), domainId, name, dataType, length).value
    {
      document := Domains.SetDataTypeAndLengthForDomain(document, domainId, name, dataType, length).value;
    }

    /** `removeDomain(domainId)`: whether the domain was removed. */
    method RemoveDomain(domainId: string) returns (removed: bool)
      requires Domains.RemoveDomain(document, domainId).Some?
      modifies this
      ensures (removed, document) == Domains.RemoveDomain(old(document), domainId).value
    {
      removed, document := Domains.RemoveDomain(document, domainId).value.0, Domains.RemoveDomain(document, domainId).value.1;
    }

    method CreateDomain(name: string, dataType: string, length: int, objectId: string, code: string)
      requires Domains.CreateDomain(document, name, dataType, length, objectId, code).Some?
      modifies this
      ensures document == Domains.CreateDomain(old(document), name, dataType, length, objectId, code).value
    {
      document := Domains.CreateDomain(document, name, dataType, length, objectId, code).value;
    }

    method SetAttributeForRelation(relationId: string, attributeName: string, value: string)
      requires Relations.SetAttributeForRelation(document, relationId, attributeName, value).Some?
      modifies this
      ensures document == Relations.SetAttributeForRelation(old(document), relationId, attributeName, value).value
    {
      document := Relations.SetAttributeForRelation(document, relationId, attributeName, value).value;
    }

    method SetFromRefOfRelation(relationId: string, targetEntityId: string)
      requires Relations.SetFromRefOfRelation(document, relationId, targetEntityId).Some?
      modifies this
      ensures document == Relations.SetFromRefOfRelation(old(document), relationId, targetEntityId).value
    {
      document := Relations.SetFromRefOfRelation(document, relationId, targetEntityId).value;
    }

    method SetToRefOfRelation(relationId: string, targetEntityId: string)
      requires Relations.SetToRefOfRelation(document, relationId, targetEntityId).Some?
      modifies this
      ensures document == Relations.SetToRefOfRelation(old(document), relationId, targetEntityId).value
    {
      document := Relations.SetToRefOfRelation(document, relationId, targetEntityId).value;
    }

    method SetFromCardinalityOfRelation(relationId: string, nextCardinality: string)
      requires Relations.SetFromCardinalityOfRelation(document, relationId, nextCardinality).Some?
      modifies this
      ensures document == Relations.SetFromCardinalityOfRelation(old(document), relationId, nextCardinality).value
    {
      document := Relations.SetFromCardinalityOfRelation(document, relationId, nextCardinality).value;
    }

    method SetToCardinalityOfRelation(relationId: string, nextCardinality: string)
      requires Relations.SetToCardinalityOfRelation(document, relationId, nextCardinality).Some?
      modifies this
      ensures document == Relations.SetToCardinalityOfRelation(old(document), relationId, nextCardinality).value
    {
      document := Relations.SetToCardinalityOfRelation(document, relationId, nextCardinality).value;
    }

    method CreateRelation(sourceEntityId: string, targetEntityId: string, name: string, cardinality: string,
                          objectId: string, code: string)
      requires Relations.CreateRelation(document, sourceEntityId, targetEntityId, name, cardinality, objectId, code).Some?
      modifies this
      ensures document == Relations.CreateRelation(old(document), sourceEntityId, targetEntityId, name, cardinality, objectId, code).value
    {
      document := Relations.CreateRelation(document, sourceEntityId, targetEntityId, name, cardinality, objectId, code).value;
    }

    method DeleteRelation(relationId: string)
      requires Deletion.DeleteRelation(document, relationId).Some?
      modifies this
      ensures document == Deletion.DeleteRelation(old(document), relationId).value
    {
      document := Deletion.DeleteRelation(document, relationId).value;
    }
  }

  // ---------------------------------------------------------------------
  // The revision of src/parsers/CDMModel.ts.

  /** `CDMModel` of src/parsers/CDMModel.ts: the operations of `DataModel`
      without `deleteEntity`, with the wider symbol font list, a
      `deleteRelation` that leaves the symbols alone, a public
      `setRefOfObjectInRelation`, and no placeholder or preamble. */
  class CDMModel {
    var document: Node

    constructor ()
      ensures document == Empty("")
    {
      document := Empty("");
    }

    /** `loadFromXml(xml)`: the text is parsed as it is. */
    method LoadFromXml(xml: string, parse: string -> Node)
      modifies this
      ensures document == parse(xml)
    {
      document := parse(xml);
    }

    /** `getAsXml()`: the serialized document element alone. */
    method GetAsXml(serialize: Node -> string) returns (xml: string)
      ensures xml == GetAsXmlPlain(serialize(document))
    {
      xml := GetAsXmlPlain(serialize(document));
    }

    method FindNode(pathRelativeFromModel: string) returns (r: Lookup)
      ensures r == Resolve(document, ModelPath + Split(pathRelativeFromModel, '.'))
      ensures r.Found? <==> Ops.FindNode(document, Split(pathRelativeFromModel, '.')).Some?
    {
      ModelPathSplit(pathRelativeFromModel);
      r := FindNodeByPath(document, "o:RootObject.c:Children.o:Model." + pathRelativeFromModel);
    }

    method SetAttributeForEntity(entityId: string, attributeName: string, value: string)
      requires Ops.SetAttributeForEntity(document, entityId, attributeName, value).Some?
      modifies this
      ensures document == Ops.SetAttributeForEntity(old(document), entityId, attributeName, value).value
    {
      document := Ops.SetAttributeForEntity(document, entityId, attributeName, value).value;
    }

    method SetDataItemRefForEntity(entityId: string, attributeId: string, dataItemId: string)
      requires Ops.SetDataItemRefForEntity(document, entityId, attributeId, dataItemId).Some?
      modifies this
      ensures document == Ops.SetDataItemRefForEntity(old(document), entityId, attributeId, dataItemId).value
    {
      document := Ops.SetDataItemRefForEntity(document, entityId, attributeId, dataItemId).value;
    }

    method MoveEntity(entityId: string, nextCoordinates: Rectangle)
      requires Ops.MoveEntity(document, entityId, nextCoordinates).Some?
      modifies this
      ensures document == Ops.MoveEntity(old(document), entityId, nextCoordinates).value
    {
      document := Ops.MoveEntity(document, entityId, nextCoordinates).value;
    }

    method CreateEntity(name: string, objectId: string, code: string)
      requires Ops.CreateEntity(document, name, objectId, code, FontListEarlier).Some?
      modifies this
      ensures document == Ops.CreateEntity(old(document), name, objectId, code, FontListEarlier).value
    {
      document := Ops.CreateEntity(document, name, objectId, code, FontListEarlier).value;
    }

    method SetDomainForDataItem(dataItemId: string, nextDomainId: string)
      requires Ops.SetDomainForDataItem(document, dataItemId, nextDomainId).Some?
      modifies this
      ensures document == Ops.SetDomainForDataItem(old(document), dataItemId, nextDomainId).value
    {
      document := Ops.SetDomainForDataItem(document, dataItemId, nextDomainId).value;
    }

    method SetDataTypeAndLengthForDataItem(dataItemId: string, nextDataType: string, nextDataTypeLength: int)
      requires Ops.SetDataTypeAndLengthForDataItem(document, dataItemId, nextDataType, nextDataTypeLength).Some?
      modifies this
      ensures document == Ops.SetDataTypeAndLengthForDataItem(old(document), dataItemId, nextDataType, nextDataTypeLength).value
    {
      document := Ops.SetDataTypeAndLengthForDataItem(document, dataItemId, nextDataType, nextDataTypeLength).value;
    }

    method CreateAttributeForEntity(entityId: string, name: string, dataType: string, length: int,
                                    attributeObjectId: string, attributeCode: string, itemObjectId: string, itemCode: string)
      requires Attributes.CreateAttributeForEntity(document, entityId, name, dataType, length,
                                                   attributeObjectId, attributeCode, itemObjectId, itemCode).Some?
      modifies this
      ensures document == Attributes.CreateAttributeForEntity(old(document), entityId, name, dataType, length,
                                                              attributeObjectId, attributeCode, itemObjectId, itemCode).value
    {
      document := Attributes.CreateAttributeForEntity(document, entityId, name, dataType, length,
                                                      attributeObjectId, attributeCode, itemObjectId, itemCode).value;
    }

    method RemoveAttributeForEntity(entityId: string, attributeId: string)
      requires Attributes.RemoveAttributeForEntity(document, entityId, attributeId).Some?
      modifies this
      ensures document == Attributes.RemoveAttributeForEntity(old(document), entityId, attributeId).value
    {
      document := Attributes.RemoveAttributeForEntity(document, entityId, attributeId).value;
    }

    method RemoveIdentifierForEntity(entityId: string, attributeIdUsedForIdentifier: string)
      requires Identifiers.RemoveIdentifierForEntity(document, entityId, attributeIdUsedForIdentifier).Some?
      modifies this
      ensures document == Identifiers.RemoveIdentifierForEntity(old(document), entityId, attributeIdUsedForIdentifier).value
    {
      document := Identifiers.RemoveIdentifierForEntity(document, entityId, attributeIdUsedForIdentifier).value;
    }

    method AddIdentifierForEntity(entityId: string, attributeIdUsedForIdentifier: string, isPrimaryIdentifier: bool,
                                  objectId: string, code: string)
      requires Identifiers.AddIdentifierForEntity(document, entityId, attributeIdUsedForIdentifier,
                                                  isPrimaryIdentifier, objectId, code).Some?
      modifies this
      ensures document == Identifiers.AddIdentifierForEntity(old(document), entityId, attributeIdUsedForIdentifier,
                                                             isPrimaryIdentifier, objectId, code).value
    {
      document := Identifiers.AddIdentifierForEntity(document, entityId, attributeIdUsedForIdentifier,
                                                     isPrimaryIdentifier, objectId, code).value;
    }

    method SetDataTypeAndLengthForDomain(domainId: string, name: string, dataType: string, length: int)
      requires Domains.SetDataTypeAndLengthForDomain(document, domainId, name, dataType, length).Some?
      modifies this
      ensures document == Domains.SetDataTypeAndLengthForDomain(old(document), domainId, name, dataType, length).value
    {
      document := Domains.SetDataTypeAndLengthForDomain(document, domainId, name, dataType, length).value;
    }

    method RemoveDomain(domainId: string) returns (removed: bool)
      requires Domains.RemoveDomain(document, domainId).Some?
      modifies this
      ensures (removed, document) == Domains.RemoveDomain(old(document), domainId).value
    {
      removed, document := Domains.RemoveDomain(document, domainId).value.0, Domains.RemoveDomain(document, domainId).value.1;
    }

    method CreateDomain(name: string, dataType: string, length: int, objectId: string, code: string)
      requires Domains.CreateDomain(document, name, dataType, length, objectId, code).Some?
      modifies this
      ensures document == Domains.CreateDomain(old(document), name, dataType, length, objectId, code).value
    {
      document := Domains.CreateDomain(document, name, dataType, length, objectId, code).value;
    }

    method SetAttributeForRelation(relationId: string, attributeName: string, value: string)
      requires Relations.SetAttributeForRelation(document, relationId, attributeName, value).Some?
      modifies this
      ensures document == Relations.SetAttributeForRelation(old(document), relationId, attributeName, value).value
    {
      document := Relations.SetAttributeForRelation(document, relationId, attributeName, value).value;
    }

    /** `setRefOfObjectInRelation(relationId, objectName, targetEntityId)`;
        the object name is an element name, never the name of a text node. */
    method SetRefOfObjectInRelation(relationId: string, objectName: string, targetEntityId: string)
      requires objectName != "#text"
      requires Relations.SetRefOfObjectInRelation(document, relationId, objectName, targetEntityId).Some?
      modifies this
      ensures document == Relations.SetRefOfObjectInRelation(old(document), relationId, objectName, targetEntityId).value
    {
      document := Relations.SetRefOfObjectInRelation(document, relationId, objectName, targetEntityId).value;
    }

    method SetFromRefOfRelation(relationId: string, targetEntityId: string)
      requires Relations.SetFromRefOfRelation(document, relationId, targetEntityId).Some?
      modifies this
      ensures document == Relations.SetFromRefOfRelation(old(document), relationId, targetEntityId).value
    {
      document := Relations.SetFromRefOfRelation(document, relationId, targetEntityId).value;
    }

    method SetToRefOfRelation(relationId: string, targetEntityId: string)
      requires Relations.SetToRefOfRelation(document, relationId, targetEntityId).Some?
      modifies this
      ensures document == Relations.SetToRefOfRelation(old(document), relationId, targetEntityId).value
    {
      document := Relations.SetToRefOfRelation(document, relationId, targetEntityId).value;
    }

    method SetFromCardinalityOfRelation(relationId: string, nextCardinality: string)
      requires Relations.SetFromCardinalityOfRelation(document, relationId, nextCardinality).Some?
      modifies this
      ensures document == Relations.SetFromCardinalityOfRelation(old(document), relationId, nextCardinality).value
    {
      document := Relations.SetFromCardinalityOfRelation(document, relationId, nextCardinality).value;
    }

    method SetToCardinalityOfRelation(relationId: string, nextCardinality: string)
      requires Relations.SetToCardinalityOfRelation(document, relationId, nextCardinality).Some?
      modifies this
      ensures document == Relations.SetToCardinalityOfRelation(old(document), relationId, nextCardinality).value
    {
      document := Relations.SetToCardinalityOfRelation(document, relationId, nextCardinality).value;
    }

    method CreateRelation(sourceEntityId: string, targetEntityId: string, name: string, cardinality: string,
                          objectId: string, code: string)
      requires Relations.CreateRelation(document, sourceEntityId, targetEntityId, name, cardinality, objectId, code).Some?
      modifies this
      ensures document == Relations.CreateRelation(old(document), sourceEntityId, targetEntityId, name, cardinality, objectId, code).value
    {
      document := Relations.CreateRelation(document, sourceEntityId, targetEntityId, name, cardinality, objectId, code).value;
    }

    /** `deleteRelation(relationId)`: the relationship alone goes. */
    method DeleteRelation(relationId: string)
      requires Deletion.DeleteRelationKeepingSymbols(document, relationId).Some?
      modifies this
      ensures document == Deletion.DeleteRelationKeepingSymbols(old(document), relationId).value
    {
      document := Deletion.DeleteRelationKeepingSymbols(document, relationId).value;
    }
  }

  // ---------------------------------------------------------------------
  // The revision of src/parsers/CDMModel.tsx.

  /** `CDMModel` of src/parsers/CDMModel.tsx: path lookup and the four field
      and reference writes of entities and data items. */
  class CDMModelFirst {
    var document: Node

    constructor ()
      ensures document == Empty("")
    {
      document := Empty("");
    }

    method LoadFromXml(xml: string, parse: string -> Node)
      modifies this
      ensures document == parse(xml)
    {
      document := parse(xml);
    }

    method GetAsXml(serialize: Node -> string) returns (xml: string)
      ensures xml == GetAsXmlPlain(serialize(document))
    {
      xml := GetAsXmlPlain(serialize(document));
    }

    /** `findNode(pathRelativeFromModel)` through `getNestedAttribute`. */
    method FindNode(pathRelativeFromModel: string) returns (r: Lookup)
      ensures r == Resolve(document, ModelPath + Split(pathRelativeFromModel, '.'))
      ensures r.Found? <==> Ops.FindNode(document, Split(pathRelativeFromModel, '.')).Some?
    {
      ModelPathSplit(pathRelativeFromModel);
      r := FindNodeByPath(document, "o:RootObject.c:Children.o:Model." + pathRelativeFromModel);
    }

    method SetAttributeForEntity(entityId: string, attributeName: string, value: string)
      requires Ops.SetAttributeForEntity(document, entityId, attributeName, value).Some?
      modifies this
      ensures document == Ops.SetAttributeForEntity(old(document), entityId, attributeName, value).value
    {
      document := Ops.SetAttributeForEntity(document, entityId, attributeName, value).value;
    }

    method SetDataItemRefForEntity(entityId: string, attributeId: string, dataItemId: string)
      requires Ops.SetDataItemRefForEntity(document, entityId, attributeId, dataItemId).Some?
      modifies this
      ensures document == Ops.SetDataItemRefForEntity(old(document), entityId, attributeId, dataItemId).value
    {
      document := Ops.SetDataItemRefForEntity(document, entityId, attributeId, dataItemId).value;
    }

    method SetDomainForDataItem(dataItemId: string, nextDomainId: string)
      requires Ops.SetDomainForDataItem(document, dataItemId, nextDomainId).Some?
      modifies this
      ensures document == Ops.SetDomainForDataItem(old(document), dataItemId, nextDomainId).value
    {
      document := Ops.SetDomainForDataItem(document, dataItemId, nextDomainId).value;
    }

    method SetDataTypeAndLengthForDataItem(dataItemId: string, nextDataType: string, nextDataTypeLength: int)
      requires Ops.SetDataTypeAndLengthForDataItem(document, dataItemId, nextDataType, nextDataTypeLength).Some?
      modifies this
      ensures document == Ops.SetDataTypeAndLengthForDataItem(old(document), dataItemId, nextDataType, nextDataTypeLength).value
    {
      document := Ops.SetDataTypeAndLengthForDataItem(document, dataItemId, nextDataType, nextDataTypeLength).value;
    }
  }
}
