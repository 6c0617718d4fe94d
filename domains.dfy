/** The domain operations of `DataModel`: `setDataTypeAndLengthForDomain`,
    `removeDomain` and `createDomain`, over the model's `c:Domains` list. */
module Domains {
  import opened Xml
  import opened Numbers
  import opened Store
  import opened Ops
  import opened DataTypes

  /** `findDomainById(findNode('c:Domains'), domainId)`. */
  function FindDomain(doc: Node, domainId: string): Option<seq<nat>>
  {
    FindUnder(doc, ["c:Domains"], NamedWith("o:Domain", "Id", domainId))
  }

  /** `setAttributesOnNode(domain, {a:Name, a:DataType, a:Length})`: the
      type code carries the length digits, and the length is its decimal
      text. `None` where one of those fields exists without a child. */
  function Retype(d: Node, name: string, dataType: string, length: int): (r: Option<Node>)
    ensures r.Some? ==> NodeName(r.value) == NodeName(d)
    ensures r.Some? && d.Element? ==> r.value.Element? && Head(r.value) == Head(d)
  {
    SetFields(d, [("a:Name", name), ("a:DataType", BuildTypeIdentifier(dataType, length)),
                  ("a:Length", IntToString(length))])
  }

  /** A domain whose three fields are absent or hold text takes the three
      values; the type reads the label of the code it was built from and the
      length reads back as the number. */
  lemma RetypeReads(d: Node, name: string, dataType: string, length: int)
    requires Writable(d, "a:Name") && Writable(d, "a:DataType") && Writable(d, "a:Length")
    ensures Retype(d, name, dataType, length).Some?
    ensures var r := Retype(d, name, dataType, length).value;
      && FieldText(r, "a:Name") == Some(name)
      && FieldText(r, "a:DataType") == Some(BuildTypeIdentifier(dataType, length))
      && FieldText(r, "a:Length") == Some(IntToString(length))
      && ParseInt(FieldText(r, "a:Length").value) == Some(length)
      && (dataType in DataTypesById && length >= 0 ==>
            LabelForDataType(FieldText(r, "a:DataType").value) == Some(DataTypesById[dataType]))
  {
    SetThreeReads(d, "a:Name", name, "a:DataType", BuildTypeIdentifier(dataType, length), "a:Length", IntToString(length));
    ParseIntToString([], length);
    assert [] + IntToString(length) == IntToString(length);
    if dataType in DataTypesById && length >= 0 {
      LabelOfBuiltType(dataType, length);
    }
  }

  /** Every other field keeps its text. */
  lemma RetypeKeeps(d: Node, name: string, dataType: string, length: int, other: string)
    requires Retype(d, name, dataType, length).Some?
    requires other != "a:Name" && other != "a:DataType" && other != "a:Length"
    ensures FieldText(Retype(d, name, dataType, length).value, other) == FieldText(d, other)
  {
    SetThreeKeeps(d, "a:Name", name, "a:DataType", BuildTypeIdentifier(dataType, length), "a:Length", IntToString(length), other);
  }

  /** `setDataTypeAndLengthForDomain(domainId, name, dataType, length)`. */
  function SetDataTypeAndLengthForDomain(doc: Node, domainId: string, name: string, dataType: string, length: int): (r: Option<Node>)
    ensures r.Some? <==> (FindDomain(doc, domainId).Some?
      && Retype(At(doc, FindDomain(doc, domainId).value).value, name, dataType, length).Some?)
  {
    var a :- FindDomain(doc, domainId);
    var d :- Retype(At(doc, a).value, name, dataType, length);
    Some(Put(doc, a, d))
  }

  /** The retyped domain replaces the old one where it was, is still found
      under its id, and nothing apart from it changes. */
  lemma SetDataTypeAndLengthForDomainEffect(doc: Node, domainId: string, name: string, dataType: string, length: int, b: seq<nat>)
    requires SetDataTypeAndLengthForDomain(doc, domainId, name, dataType, length).Some?
    ensures var a := FindDomain(doc, domainId).value;
      var r := SetDataTypeAndLengthForDomain(doc, domainId, name, dataType, length).value;
      && At(r, a) == Retype(At(doc, a).value, name, dataType, length)
      && FindDomain(r, domainId) == Some(a)
      && (Apart(a, b) ==> At(r, b) == At(doc, b))
  {
    var a := FindDomain(doc, domainId).value;
    var d := Retype(At(doc, a).value, name, dataType, length).value;
    FoundReplaced(doc, ["c:Domains"], "o:Domain", domainId, d, b);
  }

  /** `removeDomain(domainId)`: `false` and no change while anything in the
      document refers to the domain, otherwise the domain is removed from
      `c:Domains` and the answer is `true`. `None` where there is no such
      domain to remove. */
  function RemoveDomain(doc: Node, domainId: string): (r: Option<(bool, Node)>)
    ensures UsageCount(doc, domainId) > 0 ==> r == Some((false, doc))
    ensures UsageCount(doc, domainId) == 0 ==> (r.Some? <==> FindDomain(doc, domainId).Some?)
    ensures r.Some? && r.value.0 ==> UsageCount(doc, domainId) == 0
  {
    if UsageCount(doc, domainId) > 0 then Some((false, doc))
    else
      var a :- FindDomain(doc, domainId);
      Some((true, RemoveAt(doc, a).value))
  }

  /** A removal takes out exactly the domain found, the first `o:Domain` with
      that id in `c:Domains`; nothing apart from `c:Domains` changes. */
  lemma RemoveDomainEffect(doc: Node, domainId: string, b: seq<nat>)
    requires RemoveDomain(doc, domainId).Some? && RemoveDomain(doc, domainId).value.0
    ensures FindNode(doc, ["c:Domains"]).Some? && FindDomain(doc, domainId).Some?
    ensures var ds, a := FindNode(doc, ["c:Domains"]).value, FindDomain(doc, domainId).value;
      var r := RemoveDomain(doc, domainId).value.1;
      && At(doc, ds).Some? && a == ds + [a[|ds|]] && a[|ds|] < |Kids(At(doc, ds).value)|
      && NamedWith("o:Domain", "Id", domainId)(Kids(At(doc, ds).value)[a[|ds|]])
      && At(r, ds) == Some(RemoveChildAt(At(doc, ds).value, a[|ds|]))
      && (Apart(ds, b) ==> At(r, b) == At(doc, b))
  {
    var ds := FindNode(doc, ["c:Domains"]).value;
    var a := FindDomain(doc, domainId).value;
    assert a[..|a| - 1] == ds && a[|a| - 1] == a[|ds|];
    RemoveAtEffect(doc, a, b);
  }

  /** The domain `createDomain` builds: a basic `o:Domain` with the allocated
      id, then its three type fields. */
  function NewDomain(id: string, name: string, dataType: string, length: int, objectId: string, code: string): (r: Node)
    ensures NodeName(r) == "o:Domain" && GetAttribute(r, "Id") == id
    ensures FieldText(r, "a:Name") == Some(name)
    ensures FieldText(r, "a:DataType") == Some(BuildTypeIdentifier(dataType, length))
    ensures FieldText(r, "a:Length") == Some(IntToString(length))
  {
    BasicRetyped(id, name, dataType, length, objectId, code);
    Retype(BuildBasicNode("o:Domain", id, name, objectId, code), name, dataType, length).value
  }

  /** The basic `o:Domain` takes the three type fields. */
  lemma BasicRetyped(id: string, name: string, dataType: string, length: int, objectId: string, code: string)
    ensures var b := BuildBasicNode("o:Domain", id, name, objectId, code);
      && Retype(b, name, dataType, length).Some?
      && var r := Retype(b, name, dataType, length).value;
      && NodeName(r) == "o:Domain" && GetAttribute(r, "Id") == id
      && FieldText(r, "a:Name") == Some(name)
      && FieldText(r, "a:DataType") == Some(BuildTypeIdentifier(dataType, length))
      && FieldText(r, "a:Length") == Some(IntToString(length))
  {
    var b := BuildBasicNode("o:Domain", id, name, objectId, code);
    TypeKeysNotBasic();
    BasicLacks("o:Domain", id, name, objectId, code, "a:DataType");
    BasicLacks("o:Domain", id, name, objectId, code, "a:Length");
    BasicNodeShape("o:Domain", id, name, objectId, code);
    assert b.Element?;
    TextWritable(b, "a:Name");
    AbsentWritable(b, "a:DataType");
    AbsentWritable(b, "a:Length");
    RetypeReads(b, name, dataType, length);
  }

  /** `createDomain(name, dataType, length)`; the new domain takes the next
      unique id, and `objectId` and `code` stand for its two `getUid()`
      values. `None` where the model holds no `c:Domains`. */
  function CreateDomain(doc: Node, name: string, dataType: string, length: int, objectId: string, code: string): (r: Option<Node>)
    ensures r.Some? <==> (FindNode(doc, ["c:Domains"]).Some?
      && At(doc, FindNode(doc, ["c:Domains"]).value).Some?
      && At(doc, FindNode(doc, ["c:Domains"]).value).value.Element?)
  {
    var ds :- FindNode(doc, ["c:Domains"]);
    AppendAt(doc, ds, NewDomain(NextUniqueId(doc), name, dataType, length, objectId, code))
  }

  /** The new domain is appended last to `c:Domains`, nothing apart from that
      list changes and, when the document holds ids, `findDomainById` finds
      it under the allocated id. */
  lemma CreateDomainEffect(doc: Node, name: string, dataType: string, length: int, objectId: string, code: string, b: seq<nat>)
    requires CreateDomain(doc, name, dataType, length, objectId, code).Some?
    ensures FindNode(doc, ["c:Domains"]).Some? && At(doc, FindNode(doc, ["c:Domains"]).value).Some?
    ensures var ds, r := FindNode(doc, ["c:Domains"]).value, CreateDomain(doc, name, dataType, length, objectId, code).value;
      var n := NewDomain(NextUniqueId(doc), name, dataType, length, objectId, code);
      && At(r, ds) == Some(AppendChild(At(doc, ds).value, n))
      && (Apart(ds, b) ==> At(r, b) == At(doc, b))
      && (Matches(doc, "Id") != [] ==> FindDomain(r, NextUniqueId(doc)) == Some(ds + [|Kids(At(doc, ds).value)|]))
  {
    var ds := FindNode(doc, ["c:Domains"]).value;
    var D := At(doc, ds).value;
    var n := NewDomain(NextUniqueId(doc), name, dataType, length, objectId, code);
    var r := Put(doc, ds, AppendChild(D, n));
    PutEffect(doc, ds, AppendChild(D, n), b);
    if Matches(doc, "Id") != [] {
      LocatePut(doc, ModelPath + ["c:Domains"], ds, AppendChild(D, n));
      FreshAmong(doc, ds, "o:Domain", n);
      FoundAt(r, ["c:Domains"], NamedWith("o:Domain", "Id", NextUniqueId(doc)), ds, |D.children|);
    }
  }
}
