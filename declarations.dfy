/** Interfaces, type aliases, enums and modules (src/type/declarations/). */
module Declarations {

  import opened Wrappers
  import opened Ast
  import opened Utils
  import opened RuntimeUtils
  import opened TypeCore
  import Composites
  import Decimal

  /** The single `export` modifier every generated declaration carries. */
  const Exported: Option<seq<Node>> := Some([CreateToken(ExportKeyword)])

  /**
   * `constructInterface`: an exported interface without type parameters or
   * heritage clauses whose members are the properties' signatures, in order.
   */
  function ConstructInterface(name: string, properties: Value): (r: Node)
    requires TypeDefinitionObject(properties)
    ensures r.comments == [] && r.syntax.InterfaceDeclarationNode?
    ensures r.syntax.modifiers == Exported && r.syntax.name == name
    ensures r.syntax.typeParameters == None && r.syntax.heritageClauses == None
    ensures |r.syntax.members| == |properties.entries|
    ensures forall k :: 0 <= k < |properties.entries| ==>
              r.syntax.members[k] == TypeProperty(properties.entries[k].0, properties.entries[k].1)
  {
    var entries := properties.entries;
    Make(InterfaceDeclarationNode(Exported, name, None, None,
      seq(|entries|, k requires 0 <= k < |entries| => TypeProperty(entries[k].0, entries[k].1))))
  }

  /** `interface` given its properties directly. */
  function Interface(name: string, properties: Value): (r: Node)
    requires TypeDefinitionObject(properties)
    ensures r == ConstructInterface(name, properties)
    ensures IsNamedTypeDeclaration(r) && ToTypeNode(NodeV(r)) == Make(TypeReferenceNode(name, []))
  {
    ConstructInterface(name, properties)
  }

  /**
   * Each interface member is optional exactly when its type is a union with
   * `undefined`, and readonly exactly when its type is `Readonly<…>`.
   */
  lemma InterfaceMemberMarkings(name: string, properties: Value, k: int)
    requires TypeDefinitionObject(properties) && 0 <= k < |properties.entries|
    ensures var m := Interface(name, properties).syntax.members[k];
            var t := ToTypeNode(properties.entries[k].1);
            && m.syntax.name == properties.entries[k].0
            && (m.syntax.questionToken == Some(CreateToken(QuestionToken)) <==> HasUndefinedMember(t))
            && (m.syntax.modifiers == Some([CreateToken(ReadonlyKeyword)]) <==> IsReadonlyReference(t))
  {
    var v := properties.entries[k].1;
    assert TypeDefinition(v);
    var m := TypeProperty(properties.entries[k].0, v);
    assert m.syntax.questionToken.Some? ==> m.syntax.questionToken == Some(CreateToken(QuestionToken));
  }

  /** `constructType`: an exported alias without type parameters for the definition's type node. */
  function ConstructType(name: string, d: Value): (r: Node)
    requires TypeDefinition(d)
    ensures r.comments == [] && r.syntax.TypeAliasDeclarationNode?
    ensures r.syntax.modifiers == Exported && r.syntax.name == name && r.syntax.typeParameters == None
    ensures r.syntax.aliasedType == ToTypeNode(d) && IsTypeNode(r.syntax.aliasedType)
  {
    Make(TypeAliasDeclarationNode(Exported, name, None, ToTypeNode(d)))
  }

  /** `type` given its definition directly. */
  function TypeAlias(name: string, d: Value): (r: Node)
    requires TypeDefinition(d)
    ensures r == ConstructType(name, d)
    ensures IsNamedTypeDeclaration(r) && ToTypeNode(NodeV(r)) == Make(TypeReferenceNode(name, []))
  {
    ConstructType(name, d)
  }

  /** `type("Foo", intersection([1, 2]))` aliases the intersection of the literal types 1 and 2. */
  lemma IntersectionAliasExample()
    ensures Composites.AllTypeDefinitions([Num(1), Num(2)])
    ensures TypeAlias("Foo", NodeV(Composites.Intersection([Num(1), Num(2)]))).syntax.aliasedType ==
              Make(IntersectionTypeNode([
                Make(LiteralTypeNode(Make(NumericLiteralNode("1")))),
                Make(LiteralTypeNode(Make(NumericLiteralNode("2"))))]))
  {
    assert Decimal.Text(1) == "1" && Decimal.Text(2) == "2";
    var one := Make(LiteralTypeNode(Make(NumericLiteralNode("1"))));
    var two := Make(LiteralTypeNode(Make(NumericLiteralNode("2"))));
    assert ToTypeNode(Num(1)) == one;
    assert ToTypeNode(Num(2)) == two;
    var i := Composites.Intersection([Num(1), Num(2)]);
    assert i.syntax.types == [one, two];
  }

  /** `enum`: an exported enum with one member per value, in order, none initialised. */
  function Enum(name: string, values: seq<string>): (r: Node)
    ensures r.comments == [] && r.syntax.EnumDeclarationNode?
    ensures r.syntax.modifiers == Exported && r.syntax.name == name
    ensures |r.syntax.members| == |values|
    ensures forall k :: 0 <= k < |values| ==> r.syntax.members[k] == Make(EnumMemberNode(values[k], None))
  {
    Make(EnumDeclarationNode(Exported, name,
      seq(|values|, k requires 0 <= k < |values| => Make(EnumMemberNode(values[k], None)))))
  }

  /**
   * An enum is referenced by its name on both sides: a type reference in type
   * position and an identifier in value position.
   */
  lemma EnumIsReferencedByName(name: string, values: seq<string>)
    ensures TypeDefinition(NodeV(Enum(name, values)))
    ensures ToTypeNode(NodeV(Enum(name, values))) == Make(TypeReferenceNode(name, []))
    ensures RuntimeDefinitionType(NodeV(Enum(name, values)))
    ensures ToRuntimeNode(NodeV(Enum(name, values)), true) == CreateIdentifier(name)
  {
  }

  /** An enum as an object property's value prints as the enum's name. */
  lemma EnumInObjectIsName(key: string, name: string, values: seq<string>)
    ensures var o := Obj([(key, NodeV(Enum(name, values)))]);
            RuntimeDefinitionObjectType(o) &&
            RuntimeLiteral(o).syntax.properties ==
              [Make(PropertyAssignmentNode(PrimitiveLiteral(Str(key)), CreateIdentifier(name)))]
  {
    var e := Enum(name, values);
    assert RuntimeDefinitionType(NodeV(e));
    var p := RuntimeProperty(key, NodeV(e));
    assert p == Make(PropertyAssignmentNode(PrimitiveLiteral(Str(key)), CreateIdentifier(name)));
  }

  /** The options of `module`; each one absent is false. */
  datatype ModuleOptions = ModuleOptions(declare: bool, namespace: bool, global: bool)

  const NoModuleOptions := ModuleOptions(false, false, false)

  /** Augments the global scope: the name is "global" or the option says so. */
  predicate IsGlobal(name: string, options: ModuleOptions) {
    name == "global" || options.global
  }

  /**
   * `module`: a module declaration over a block of the statements. Its flags
   * carry GlobalAugmentation for a global module, Namespace for a namespace and
   * nothing else; it is declared exactly when the options ask for it.
   */
  method ModuleDeclaration(name: string, statements: seq<Node>, options: ModuleOptions) returns (m: Node)
    ensures m.comments == [] && m.syntax.ModuleDeclarationNode? && m.syntax.name == name
    ensures m.syntax.body == Make(ModuleBlockNode(statements))
    ensures m.syntax.modifiers == if options.declare then Some([CreateToken(DeclareKeyword)]) else None
    ensures (m.syntax.flags & FlagGlobalAugmentation != 0) <==> IsGlobal(name, options)
    ensures (m.syntax.flags & FlagNamespace != 0) <==> options.namespace
    ensures m.syntax.flags & !(FlagGlobalAugmentation | FlagNamespace) == 0
    ensures !IsGlobal(name, options) && !options.namespace ==> m.syntax.flags == FlagsNone
  {
    var flags := FlagsNone;
    if IsGlobal(name, options) {
      flags := flags | FlagGlobalAugmentation;
    }
    if options.namespace {
      flags := flags | FlagNamespace;
    }
    var modifiers := if options.declare then Some([CreateToken(DeclareKeyword)]) else None;
    m := Make(ModuleDeclarationNode(modifiers, name, Make(ModuleBlockNode(statements)), flags));
  }

  /** `namespace`: `module` with the namespace option forced on and the others passed through. */
  method Namespace(name: string, statements: seq<Node>, options: ModuleOptions) returns (m: Node)
    ensures m.comments == [] && m.syntax.ModuleDeclarationNode? && m.syntax.name == name
    ensures m.syntax.body == Make(ModuleBlockNode(statements))
    ensures m.syntax.modifiers == if options.declare then Some([CreateToken(DeclareKeyword)]) else None
    ensures m.syntax.flags & FlagNamespace != 0
    ensures (m.syntax.flags & FlagGlobalAugmentation != 0) <==> IsGlobal(name, options)
    ensures m.syntax.flags & !(FlagGlobalAugmentation | FlagNamespace) == 0
  {
    m := ModuleDeclaration(name, statements, options.(namespace := true));
  }
}
