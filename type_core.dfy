/**
 * Type definitions and their conversion to type nodes (src/type/utils.ts and
 * src/type/index.ts, which import each other and so form one module here).
 * A type definition is a type node or a declaration that can be referred to, a
 * plain object of type definitions, or a primitive.
 */
module TypeCore {

  import opened Wrappers
  import opened Ast
  import opened Utils
  import opened RuntimeUtils

  /** A declaration that is referred to by its name in type position. */
  predicate IsNamedTypeDeclaration(n: Node) {
    n.syntax.TypeAliasDeclarationNode? || n.syntax.InterfaceDeclarationNode? || n.syntax.EnumDeclarationNode?
  }

  /** `isTypeReferenceLike`: a type node, or a type alias, interface or enum declaration. */
  function IsTypeReferenceLike(v: Value): (r: bool)
    ensures r ==> IsNode(v) && TypeOf(v) == "object"
    ensures r ==> IsTypeKind(KindOf(v.node)) ||
                  KindOf(v.node) in {TypeAliasDeclaration, InterfaceDeclaration, EnumDeclaration}
    ensures IsNode(v) && IsTypeNode(v.node) ==> r
    ensures IsNode(v) && IsNamedTypeDeclaration(v.node) ==> r
    ensures !IsNode(v) ==> !r
  {
    IsNode(v) && (IsTypeNode(v.node) || IsNamedTypeDeclaration(v.node))
  }

  /** What `isTypeDefinition` answers, which is also the static type `TypeDefinition`. */
  predicate TypeDefinition(v: Value)
    decreases v, 1
  {
    IsTypeReferenceLike(v) || TypeDefinitionObject(v) || IsPrimitive(v)
  }

  /** What `isTypeDefinitionObject` answers; a node's own fields are not inspected. */
  predicate TypeDefinitionObject(v: Value)
    decreases v, 0
  {
    v.Obj? && forall k :: 0 <= k < |v.entries| ==> TypeDefinition(v.entries[k].1)
  }

  method IsTypeDefinitionObject(v: Value) returns (r: bool)
    ensures r == TypeDefinitionObject(v)
    decreases v, 0
  {
    if TypeOf(v) != "object" || v == Null {
      return false;
    }
    if !v.Obj? {
      // A syntax node: counted as no definition object.
      return false;
    }
    var entries := v.entries;
    var k := 0;
    while k < |entries|
      invariant 0 <= k <= |entries|
      invariant forall j :: 0 <= j < k ==> TypeDefinition(entries[j].1)
    {
      var ok := IsTypeDefinition(entries[k].1);
      if !ok {
        return false;
      }
      k := k + 1;
    }
    return true;
  }

  method IsTypeDefinition(v: Value) returns (r: bool)
    ensures r == TypeDefinition(v)
    decreases v, 1
  {
    r := IsTypeReferenceLike(v);
    if !r {
      r := IsTypeDefinitionObject(v);
    }
    if !r {
      r := IsPrimitive(v);
    }
  }

  /** `Array.prototype.find` on node kinds: the first node of kind `kind`. */
  function FindKind(nodes: seq<Node>, kind: Kind): (r: Option<Node>)
    ensures r.Some? <==> exists k :: 0 <= k < |nodes| && KindOf(nodes[k]) == kind
    ensures r.Some? ==> r.value in nodes && KindOf(r.value) == kind
    ensures r.Some? ==>
              exists k :: 0 <= k < |nodes| && nodes[k] == r.value &&
                forall j :: 0 <= j < k ==> KindOf(nodes[j]) != kind
  {
    if |nodes| == 0 then None
    else if KindOf(nodes[0]) == kind then Some(nodes[0])
    else
      var rest := FindKind(nodes[1..], kind);
      assert forall k :: 1 <= k < |nodes| ==> nodes[k] == nodes[1..][k - 1];
      rest
  }

  /** The node is a union with an `undefined` member. */
  predicate HasUndefinedMember(n: Node) {
    n.syntax.UnionTypeNode? &&
    exists k :: 0 <= k < |n.syntax.types| && KindOf(n.syntax.types[k]) == UndefinedKeyword
  }

  /** The node is a reference to `Readonly`. */
  predicate IsReadonlyReference(n: Node) {
    n.syntax.TypeReferenceNode? && n.syntax.typeName == "Readonly"
  }

  /**
   * `reference` once its type arguments are converted: a name becomes a
   * reference to it, a type node is returned as it is, and a declaration
   * becomes a reference to its name.
   */
  function CreateReference(target: Value, typeArguments: seq<Node>): (r: Node)
    requires target.Str? || IsTypeReferenceLike(target)
    ensures IsTypeNode(r)
    ensures target.Str? ==> r == Make(TypeReferenceNode(target.s, typeArguments))
    ensures target.NodeV? && IsTypeNode(target.node) ==> r == target.node
    ensures target.NodeV? && IsNamedTypeDeclaration(target.node) ==>
              r == Make(TypeReferenceNode(target.node.syntax.name, typeArguments))
  {
    if target.Str? then Make(TypeReferenceNode(target.s, typeArguments))
    else if IsTypeNode(target.node) then target.node
    else Make(TypeReferenceNode(target.node.syntax.name, typeArguments))
  }

  /** `definitions.map(toTypeNode)`. */
  function TypeNodes(defs: seq<Value>): (r: seq<Node>)
    requires forall k :: 0 <= k < |defs| ==> TypeDefinition(defs[k])
    ensures |r| == |defs|
    ensures forall k :: 0 <= k < |defs| ==> r[k] == ToTypeNode(defs[k])
  {
    seq(|defs|, k requires 0 <= k < |defs| => ToTypeNode(defs[k]))
  }

  /** `toTypeNode`: a type node for every type definition. */
  function ToTypeNode(d: Value): (r: Node)
    requires TypeDefinition(d)
    ensures IsTypeNode(r)
    ensures d.NodeV? && IsTypeNode(d.node) ==> r == d.node
    ensures d.NodeV? && IsNamedTypeDeclaration(d.node) ==>
              r == Make(TypeReferenceNode(d.node.syntax.name, []))
    ensures !d.NodeV? ==> r == TypeLiteral(d)
    ensures r.comments == if d.NodeV? && IsTypeNode(d.node) then d.node.comments else []
    decreases d, 2
  {
    if IsTypeReferenceLike(d) then CreateReference(d, []) else TypeLiteral(d)
  }

  /**
   * `typeProperty`: a property signature for `name`. It is optional exactly when
   * the type is a union with an `undefined` member, readonly exactly when the
   * type is a `Readonly<...>` reference, and the type's synthetic comments move
   * onto the signature.
   */
  function TypeProperty(name: string, d: Value): (r: Node)
    requires TypeDefinition(d)
    ensures r.syntax.PropertySignatureNode? && r.syntax.name == name
    ensures r.syntax.questionToken.Some? <==> HasUndefinedMember(ToTypeNode(d))
    ensures r.syntax.questionToken.Some? ==> r.syntax.questionToken.value == CreateToken(QuestionToken)
    ensures r.syntax.modifiers ==
              if IsReadonlyReference(ToTypeNode(d)) then Some([CreateToken(ReadonlyKeyword)]) else None
    ensures r.syntax.propertyType.syntax == ToTypeNode(d).syntax
    ensures r.syntax.propertyType.comments == []
    ensures r.comments == ToTypeNode(d).comments
    decreases d, 3
  {
    var node := ToTypeNode(d);
    var optional := if node.syntax.UnionTypeNode? && FindKind(node.syntax.types, UndefinedKeyword).Some?
                    then Some(CreateToken(QuestionToken)) else None;
    var modifiers := if node.syntax.TypeReferenceNode? && node.syntax.typeName == "Readonly"
                     then [CreateToken(ReadonlyKeyword)] else [];
    var propertyComments := node.comments;
    var typeNode := if |propertyComments| > 0 then node.(comments := []) else node;
    var signature := Make(PropertySignatureNode(if |modifiers| > 0 then Some(modifiers) else None,
                                                name, optional, typeNode));
    if |propertyComments| > 0 then signature.(comments := propertyComments) else signature
  }

  /** `typeLiteral`: a literal type for a primitive, a type literal for an object. */
  function TypeLiteral(d: Value): (r: Node)
    requires IsPrimitive(d) || TypeDefinitionObject(d)
    ensures IsTypeNode(r) && r.comments == []
    ensures IsPrimitive(d) ==> r.syntax == LiteralTypeNode(PrimitiveLiteral(d))
    ensures d.Obj? ==>
              && r.syntax.TypeLiteralNode?
              && |r.syntax.members| == |d.entries|
              && forall k :: 0 <= k < |d.entries| ==>
                   r.syntax.members[k] == TypeProperty(d.entries[k].0, d.entries[k].1)
    decreases d, 1
  {
    if IsPrimitive(d) then Make(LiteralTypeNode(PrimitiveLiteral(d)))
    else
      var entries := d.entries;
      Make(TypeLiteralNode(
        seq(|entries|, k requires 0 <= k < |entries| => TypeProperty(entries[k].0, entries[k].1))))
  }

  /** `reference(node, typeArguments)`. */
  function Reference(target: Value, typeArguments: seq<Value>): (r: Node)
    requires target.Str? || IsTypeReferenceLike(target)
    requires forall k :: 0 <= k < |typeArguments| ==> TypeDefinition(typeArguments[k])
    ensures IsTypeNode(r)
    ensures target.Str? ==>
              && r.syntax.TypeReferenceNode? && r.syntax.typeName == target.s && r.comments == []
              && |r.syntax.typeArguments| == |typeArguments|
              && forall k :: 0 <= k < |typeArguments| ==> r.syntax.typeArguments[k] == ToTypeNode(typeArguments[k])
    ensures target.NodeV? && IsTypeNode(target.node) ==> r == target.node
    ensures target.NodeV? && IsNamedTypeDeclaration(target.node) ==>
              && r.syntax.TypeReferenceNode? && r.syntax.typeName == target.node.syntax.name
              && r.syntax.typeArguments == TypeNodes(typeArguments)
  {
    CreateReference(target, TypeNodes(typeArguments))
  }

  /** `array(definition)`: `Array<T>`. */
  function Array(d: Value): (r: Node)
    requires TypeDefinition(d)
    ensures IsTypeNode(r) && r.comments == []
    ensures r.syntax.TypeReferenceNode? && r.syntax.typeName == "Array"
    ensures r.syntax.typeArguments == [ToTypeNode(d)]
  {
    Make(TypeReferenceNode("Array", [ToTypeNode(d)]))
  }

  /** `typeof(value)`: a type query naming an enum or a variable. */
  function TypeQuery(v: Value): (r: Node)
    requires IsReferenceLike(v) && Referenceable(v.node)
    ensures IsTypeNode(r) && r.syntax.TypeQueryNode?
    ensures r.syntax.exprName == RuntimeReference(v.node)
    ensures r.syntax.exprName.syntax.IdentifierNode?
  {
    Make(TypeQueryNode(RuntimeReference(v.node)))
  }

  /** `indexOf(definition, index)`: the indexed access type `T[index]`. */
  function IndexOf(d: Value, index: Value): (r: Node)
    requires TypeDefinition(d)
    requires index.Str? || index.Num?
    ensures IsTypeNode(r) && r.syntax.IndexedAccessTypeNode?
    ensures r.syntax.objectType == ToTypeNode(d)
    ensures r.syntax.indexType == TypeLiteral(index)
    ensures r.syntax.indexType.syntax.LiteralTypeNode?
  {
    Make(IndexedAccessTypeNode(ToTypeNode(d), TypeLiteral(index)))
  }

  /** Converting a converted definition again changes nothing. */
  lemma ToTypeNodeIdempotent(d: Value)
    requires TypeDefinition(d)
    ensures TypeDefinition(NodeV(ToTypeNode(d)))
    ensures ToTypeNode(NodeV(ToTypeNode(d))) == ToTypeNode(d)
  {
  }

  /** A `toTypeNode` of a declaration is `reference` of it with no arguments. */
  lemma ToTypeNodeIsReference(d: Value)
    requires IsTypeReferenceLike(d)
    ensures TypeDefinition(d)
    ensures ToTypeNode(d) == Reference(d, [])
  {
  }

  /** The type definition a type node was converted from: the inverse of `ToTypeNode`. */
  function DefinitionOfType(n: Node): Value
    decreases n, 1
  {
    match n.syntax
    case LiteralTypeNode(lit) =>
      (match PrimitiveOfLiteral(lit) case Some(p) => p case None => NodeV(n))
    case TypeLiteralNode(members) =>
      Obj(seq(|members|, k requires 0 <= k < |members| => EntryOfSignature(members[k])))
    case _ => NodeV(n)
  }

  function EntryOfSignature(m: Node): (string, Value)
    decreases m, 0
  {
    match m.syntax
    case PropertySignatureNode(_, name, _, t) => (name, DefinitionOfType(t))
    case _ => ("", NodeV(m))
  }

  /**
   * A type definition the conversion can be read back from: every node in it is
   * an uncommented type node other than a literal type or a type literal.
   */
  predicate PlainTypeDefinition(d: Value)
    decreases d
  {
    IsPrimitive(d) ||
    (d.NodeV? && IsTypeNode(d.node) && d.node.comments == [] &&
     !d.node.syntax.LiteralTypeNode? && !d.node.syntax.TypeLiteralNode?) ||
    (d.Obj? && forall k :: 0 <= k < |d.entries| ==> PlainTypeDefinition(d.entries[k].1))
  }

  lemma SignatureRoundTrip(name: string, v: Value)
    requires TypeDefinition(v)
    requires ToTypeNode(v).comments == []
    requires DefinitionOfType(ToTypeNode(v)) == v
    ensures EntryOfSignature(TypeProperty(name, v)) == (name, v)
  {
    var p := TypeProperty(name, v);
    assert p.syntax.propertyType == ToTypeNode(v);
  }

  /** The conversion loses nothing: keys, their order and every primitive are recoverable. */
  lemma {:induction false} TypeLiteralRoundTrip(d: Value)
    requires PlainTypeDefinition(d)
    ensures TypeDefinition(d)
    ensures DefinitionOfType(ToTypeNode(d)) == d
    decreases d
  {
    if IsPrimitive(d) {
      PrimitiveLiteralRoundTrip(d);
    } else if d.Obj? {
      var es := d.entries;
      forall k | 0 <= k < |es|
        ensures TypeDefinition(es[k].1)
        ensures DefinitionOfType(ToTypeNode(es[k].1)) == es[k].1
        ensures ToTypeNode(es[k].1).comments == []
      {
        TypeLiteralRoundTrip(es[k].1);
      }
      assert TypeDefinitionObject(d);
      var r := ToTypeNode(d);
      var members := r.syntax.members;
      forall k | 0 <= k < |es|
        ensures EntryOfSignature(members[k]) == es[k]
      {
        SignatureRoundTrip(es[k].0, es[k].1);
      }
      assert DefinitionOfType(r).entries == es;
    }
  }
}
