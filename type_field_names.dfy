/** `printTypeFieldNames`: the object types of a schema's type map and the
    names of their fields. The type map is given as its entries in the order
    `Object.keys(gqlSchema.getTypeMap())` returns the keys, and the report is
    returned as records instead of being printed. */
module TypeFieldNames {
  import opened Wrappers

  /** The `kind` of the AST node that defined a named type. */
  datatype Kind =
    | ScalarTypeDefinition
    | ObjectTypeDefinition
    | InterfaceTypeDefinition
    | UnionTypeDefinition
    | EnumTypeDefinition
    | InputObjectTypeDefinition

  /** A `FieldDefinitionNode`, of which only the name is read. */
  datatype FieldDefinition = FieldDefinition(name: string)

  /** A type definition node: its kind, its name and its fields in
      declaration order (empty for kinds that have none). */
  datatype TypeDefinitionNode = TypeDefinitionNode(kind: Kind, name: string, fields: seq<FieldDefinition>)

  /** A `GraphQLNamedType`, of which only `astNode` is read; built-in types
      have none. */
  datatype NamedType = NamedType(astNode: Option<TypeDefinitionNode>)

  /** The entries of the type map, in the order `Object.keys` returns the keys. */
  type TypeMap = seq<(string, NamedType)>

  /** What is reported for one object type. */
  datatype TypeSummary = TypeSummary(typeName: string, fieldNames: seq<string>)

  /** `astNode != null && astNode.kind == 'ObjectTypeDefinition'`: the type
      has an AST node and it defines an object type. */
  predicate IsObjectType(t: NamedType) {
    t.astNode.Some? && t.astNode.value.kind == ObjectTypeDefinition
  }

  /** The nodes pushed onto `objectTypes`: those of the entries that pass
      `IsObjectType`, in type-map order. */
  function ObjectTypeNodes(entries: TypeMap): (nodes: seq<TypeDefinitionNode>)
    ensures |nodes| <= |entries|
    ensures forall n :: n in nodes ==> n.kind == ObjectTypeDefinition
  {
    if entries == [] then []
    else
      var last := entries[|entries| - 1].1;
      ObjectTypeNodes(entries[..|entries| - 1]) + (if IsObjectType(last) then [last.astNode.value] else [])
  }

  /** The names of `fields`, one per field, in declaration order. */
  function FieldNames(fields: seq<FieldDefinition>): (names: seq<string>)
    ensures |names| == |fields|
    ensures forall i :: 0 <= i < |fields| ==> names[i] == fields[i].name
  {
    if fields == [] then [] else FieldNames(fields[..|fields| - 1]) + [fields[|fields| - 1].name]
  }

  function Summary(node: TypeDefinitionNode): TypeSummary {
    TypeSummary(node.name, FieldNames(node.fields))
  }

  /** One summary per node, in the same order. */
  function Summaries(nodes: seq<TypeDefinitionNode>): (summaries: seq<TypeSummary>)
    ensures |summaries| == |nodes|
    ensures forall i :: 0 <= i < |nodes| ==> summaries[i] == Summary(nodes[i])
  {
    if nodes == [] then [] else Summaries(nodes[..|nodes| - 1]) + [Summary(nodes[|nodes| - 1])]
  }

  /** What `printTypeFieldNames` reports for a type map. */
  function TypeSummaries(typeMap: TypeMap): seq<TypeSummary> {
    Summaries(ObjectTypeNodes(typeMap))
  }

  /** `printTypeFieldNames`: collect the object type nodes in type-map order,
      then list each one's field names in declaration order. */
  method PrintTypeFieldNames(typeMap: TypeMap) returns (report: seq<TypeSummary>)
    ensures report == TypeSummaries(typeMap)
  {
    var objectTypes: seq<TypeDefinitionNode> := [];
    var i := 0;
    while i < |typeMap|
      invariant 0 <= i <= |typeMap|
      invariant objectTypes == ObjectTypeNodes(typeMap[..i])
    {
      var astNode := typeMap[i].1.astNode;
      if astNode.Some? && astNode.value.kind == ObjectTypeDefinition {
        objectTypes := objectTypes + [astNode.value];
      }
      assert typeMap[..i + 1][..i] == typeMap[..i];
      i := i + 1;
    }
    assert typeMap[..i] == typeMap;

    report := [];
    var j := 0;
    while j < |objectTypes|
      invariant 0 <= j <= |objectTypes|
      invariant report == Summaries(objectTypes[..j])
    {
      var objectType := objectTypes[j];
      var fields := objectType.fields;
      var fieldNames: seq<string> := [];
      var k := 0;
      while k < |fields|
        invariant 0 <= k <= |fields|
        invariant fieldNames == FieldNames(fields[..k])
      {
        fieldNames := fieldNames + [fields[k].name];
        assert fields[..k + 1][..k] == fields[..k];
        k := k + 1;
      }
      assert fields[..k] == fields;
      report := report + [TypeSummary(objectType.name, fieldNames)];
      assert objectTypes[..j + 1][..j] == objectTypes[..j];
      j := j + 1;
    }
    assert objectTypes[..j] == objectTypes;
  }

  lemma {:induction false} ObjectTypeNodesAppend(entries: TypeMap, more: TypeMap)
    ensures ObjectTypeNodes(entries + more) == ObjectTypeNodes(entries) + ObjectTypeNodes(more)
    decreases |more|
  {
    if more == [] {
      assert entries + more == entries;
    } else {
      var init := more[..|more| - 1];
      assert (entries + more)[..|entries + more| - 1] == entries + init;
      ObjectTypeNodesAppend(entries, init);
    }
  }

  lemma SummariesAppend(nodes: seq<TypeDefinitionNode>, more: seq<TypeDefinitionNode>)
    ensures Summaries(nodes + more) == Summaries(nodes) + Summaries(more)
  {
  }

  /** The report keeps the order of the type map: the report for two
      consecutive runs of entries is the report for the first followed by
      the report for the second. */
  lemma TypeSummariesAppend(typeMap: TypeMap, more: TypeMap)
    ensures TypeSummaries(typeMap + more) == TypeSummaries(typeMap) + TypeSummaries(more)
  {
    ObjectTypeNodesAppend(typeMap, more);
    SummariesAppend(ObjectTypeNodes(typeMap), ObjectTypeNodes(more));
  }

  /** A single entry is reported, under its node's name whatever its key,
      with every field name in declaration order, exactly when
      `astNode != null && astNode.kind == 'ObjectTypeDefinition'`;
      otherwise (a built-in type without an AST node, or a node of another
      kind) it contributes nothing. */
  lemma TypeSummaryOfEntry(key: string, t: NamedType)
    ensures IsObjectType(t) ==>
              TypeSummaries([(key, t)]) == [TypeSummary(t.astNode.value.name, FieldNames(t.astNode.value.fields))]
    ensures !IsObjectType(t) ==> TypeSummaries([(key, t)]) == []
  {
  }

  lemma {:induction false} ObjectTypeNodesMembership(entries: TypeMap, node: TypeDefinitionNode)
    ensures node in ObjectTypeNodes(entries) <==>
      exists i :: 0 <= i < |entries| && IsObjectType(entries[i].1) && entries[i].1.astNode.value == node
  {
    if entries != [] {
      var init := entries[..|entries| - 1];
      ObjectTypeNodesMembership(init, node);
      if exists i :: 0 <= i < |entries| && IsObjectType(entries[i].1) && entries[i].1.astNode.value == node {
        var i :| 0 <= i < |entries| && IsObjectType(entries[i].1) && entries[i].1.astNode.value == node;
        if i < |init| {
          assert init[i] == entries[i];
        }
      }
      if node in ObjectTypeNodes(init) {
        var i :| 0 <= i < |init| && IsObjectType(init[i].1) && init[i].1.astNode.value == node;
        assert entries[i] == init[i];
      }
    }
  }

  /** A summary is reported exactly when some entry of the type map is an
      object type whose node has that summary's name and field names. */
  lemma TypeSummariesMembership(typeMap: TypeMap, summary: TypeSummary)
    ensures summary in TypeSummaries(typeMap) <==>
      exists i :: 0 <= i < |typeMap| && IsObjectType(typeMap[i].1) && Summary(typeMap[i].1.astNode.value) == summary
  {
    var nodes := ObjectTypeNodes(typeMap);
    var report := TypeSummaries(typeMap);
    if summary in report {
      var j :| 0 <= j < |report| && report[j] == summary;
      ObjectTypeNodesMembership(typeMap, nodes[j]);
    }
    if exists i :: 0 <= i < |typeMap| && IsObjectType(typeMap[i].1) && Summary(typeMap[i].1.astNode.value) == summary {
      var i :| 0 <= i < |typeMap| && IsObjectType(typeMap[i].1) && Summary(typeMap[i].1.astNode.value) == summary;
      var node := typeMap[i].1.astNode.value;
      ObjectTypeNodesMembership(typeMap, node);
      var j :| 0 <= j < |nodes| && nodes[j] == node;
      assert report[j] == summary;
    }
  }

  lemma {:induction false} NoObjectTypeNodes(entries: TypeMap)
    requires forall i :: 0 <= i < |entries| ==> !IsObjectType(entries[i].1)
    ensures ObjectTypeNodes(entries) == []
  {
    if entries != [] {
      NoObjectTypeNodes(entries[..|entries| - 1]);
    }
  }

  /** Entries that are not object types, such as the built-in scalar and
      introspection types that have no AST node, leave the report unchanged
      wherever they appear in the type map. */
  lemma NonObjectEntriesAreDropped(before: TypeMap, others: TypeMap, after: TypeMap)
    requires forall i :: 0 <= i < |others| ==> !IsObjectType(others[i].1)
    ensures TypeSummaries(before + others + after) == TypeSummaries(before + after)
  {
    NoObjectTypeNodes(others);
    TypeSummariesAppend(before, others);
    TypeSummariesAppend(before + others, after);
    TypeSummariesAppend(before, after);
  }
}
