/** `optional` and `readonly` (src/type/modifiers/). */
module Modifiers {

  import opened Wrappers
  import opened Ast
  import opened Utils
  import opened TypeCore
  import Composites
  import Primitives

  /** `optional(d)`: the union of `d` and `undefined`. */
  function Optional(d: Value): (r: Node)
    requires TypeDefinition(d)
    ensures r.syntax.UnionTypeNode? && IsTypeNode(r) && r.comments == []
    ensures r.syntax.types == [ToTypeNode(d), Primitives.UndefinedType()]
    ensures KindOf(r.syntax.types[1]) == UndefinedKeyword
  {
    Composites.Union([d, NodeV(Primitives.UndefinedType())])
  }

  /** `readonly(d)`: the reference `Readonly<d>`. */
  function Readonly(d: Value): (r: Node)
    requires TypeDefinition(d)
    ensures r.syntax.TypeReferenceNode? && IsTypeNode(r) && r.comments == []
    ensures r.syntax.typeName == "Readonly"
    ensures r.syntax.typeArguments == [ToTypeNode(d)]
  {
    Reference(Str("Readonly"), [d])
  }

  /** A property typed `optional(d)` always carries a question token. */
  lemma OptionalPropertyIsOptional(name: string, d: Value)
    requires TypeDefinition(d)
    ensures TypeDefinition(NodeV(Optional(d)))
    ensures TypeProperty(name, NodeV(Optional(d))).syntax.questionToken == Some(CreateToken(QuestionToken))
    ensures TypeProperty(name, NodeV(Optional(d))).syntax.modifiers == None
  {
    var u := Optional(d);
    assert KindOf(u.syntax.types[1]) == UndefinedKeyword;
    assert HasUndefinedMember(ToTypeNode(NodeV(u)));
  }

  /** A property typed `readonly(d)` carries exactly one readonly modifier. */
  lemma ReadonlyPropertyIsReadonly(name: string, d: Value)
    requires TypeDefinition(d)
    ensures TypeDefinition(NodeV(Readonly(d)))
    ensures TypeProperty(name, NodeV(Readonly(d))).syntax.modifiers == Some([CreateToken(ReadonlyKeyword)])
    ensures TypeProperty(name, NodeV(Readonly(d))).syntax.questionToken == None
  {
  }

  /** `readonly(optional(x))` is a reference, not a union: readonly but not optional. */
  lemma ReadonlyOptionalIsRequired(name: string, x: Value)
    requires TypeDefinition(x)
    ensures TypeDefinition(NodeV(Optional(x)))
    ensures TypeDefinition(NodeV(Readonly(NodeV(Optional(x)))))
    ensures var p := TypeProperty(name, NodeV(Readonly(NodeV(Optional(x)))));
            p.syntax.questionToken == None && p.syntax.modifiers == Some([CreateToken(ReadonlyKeyword)])
  {
  }
}
