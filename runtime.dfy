/** `propertyOf` and `as` (src/runtime/index.ts). */
module Runtime {

  import opened Wrappers
  import opened Ast
  import opened Utils
  import opened RuntimeUtils
  import opened TypeCore
  import Statements
  import Primitives

  /**
   * `propertyOf`: a numeric key gives an element access by a numeric literal,
   * a string key a property access by that name, both on the definition's runtime node.
   */
  function PropertyOf(d: Value, key: Value): (r: Node)
    requires RuntimeDefinitionType(d)
    requires key.Str? || key.Num?
    ensures r.comments == []
    ensures key.Num? ==>
              && r.syntax.ElementAccessNode?
              && r.syntax.expression == ToRuntimeNode(d, true)
              && r.syntax.argument == PrimitiveLiteral(key)
              && PrimitiveOfLiteral(r.syntax.argument) == Some(key)
    ensures key.Str? ==> r == Make(PropertyAccessNode(ToRuntimeNode(d, true), key.s))
  {
    var node := ToRuntimeNode(d, true);
    if TypeOf(key) == "number" then
      PrimitiveLiteralRoundTrip(key);
      Make(ElementAccessNode(node, PrimitiveLiteral(key)))
    else
      Make(PropertyAccessNode(node, key.s))
  }

  /**
   * `as`: the definition's runtime node asserted to a type; "const" becomes the
   * reference `const`, anything else its type node. The string "const" is itself
   * a type definition, so `TypeDefinition(t)` covers both operand types.
   */
  function As(d: Value, t: Value): (r: Node)
    requires RuntimeDefinitionType(d)
    requires TypeDefinition(t)
    ensures r.comments == [] && r.syntax.AsExpressionNode?
    ensures r.syntax.expression == ToRuntimeNode(d, true)
    ensures t == Str("const") ==> r.syntax.asType == Make(TypeReferenceNode("const", []))
    ensures t != Str("const") ==> r.syntax.asType == ToTypeNode(t)
    ensures IsTypeNode(r.syntax.asType)
  {
    var asType := if t == Str("const") then Reference(Str("const"), []) else ToTypeNode(t);
    Make(AsExpressionNode(ToRuntimeNode(d, true), asType))
  }

  /**
   * `as(d, "const")` is a const assertion, not an assertion to the string literal
   * type `"const"` that `toTypeNode("const")` would give.
   */
  lemma AsConstIsConstAssertion(d: Value)
    requires RuntimeDefinitionType(d)
    ensures As(d, Str("const")).syntax.asType != ToTypeNode(Str("const"))
    ensures KindOf(ToTypeNode(Str("const"))) == LiteralType
  {
  }

  /** `propertyOf(let("myObject", …), "foo")` is the access `myObject.foo`. */
  lemma PropertyOfStatementByName(name: string, d: Value, key: string)
    requires RuntimeDefinitionType(d)
    ensures var s := Statements.LetStatement(name, d, Statements.NoOptions);
            RuntimeDefinitionType(NodeV(s)) &&
            PropertyOf(NodeV(s), Str(key)) == Make(PropertyAccessNode(CreateIdentifier(name), key))
  {
  }

  /** `propertyOf(let("myObject", …), 1)` is the access `myObject[1]`. */
  lemma PropertyOfStatementByIndex(name: string, d: Value, index: int)
    requires RuntimeDefinitionType(d)
    ensures var s := Statements.LetStatement(name, d, Statements.NoOptions);
            RuntimeDefinitionType(NodeV(s)) &&
            PropertyOf(NodeV(s), Num(index)) ==
              Make(ElementAccessNode(CreateIdentifier(name), PrimitiveLiteral(Num(index))))
  {
  }

  /** `as(var("myVariable", {}), string())` asserts the identifier `myVariable` to `string`. */
  lemma AsStringOnVariable(name: string)
    ensures var s := Statements.VarStatement(name, Obj([]), Statements.NoOptions);
            RuntimeDefinitionType(NodeV(s)) && TypeDefinition(NodeV(Primitives.StringType())) &&
            As(NodeV(s), NodeV(Primitives.StringType())) ==
              Make(AsExpressionNode(CreateIdentifier(name), Primitives.StringType()))
  {
  }
}
