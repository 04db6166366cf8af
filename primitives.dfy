/** Keyword types and `date` (src/type/primitives/index.ts). */
module Primitives {

  import opened Ast
  import opened Utils
  import TypeCore

  function KeywordType(k: Kind): (r: Node)
    requires IsKeywordTypeKind(k)
    ensures KindOf(r) == k && IsTypeNode(r) && r.comments == []
  {
    Make(KeywordTypeNode(k))
  }

  function StringType(): (r: Node)
    ensures KindOf(r) == StringKeyword && IsTypeNode(r) && r.comments == []
  {
    KeywordType(StringKeyword)
  }

  function NumberType(): (r: Node)
    ensures KindOf(r) == NumberKeyword && IsTypeNode(r) && r.comments == []
  {
    KeywordType(NumberKeyword)
  }

  function BigIntType(): (r: Node)
    ensures KindOf(r) == BigIntKeyword && IsTypeNode(r) && r.comments == []
  {
    KeywordType(BigIntKeyword)
  }

  function BooleanType(): (r: Node)
    ensures KindOf(r) == BooleanKeyword && IsTypeNode(r) && r.comments == []
  {
    KeywordType(BooleanKeyword)
  }

  /** `date()`: a reference to `Date` without type arguments. */
  function DateType(): (r: Node)
    ensures r == Make(TypeReferenceNode("Date", []))
    ensures KindOf(r) == TypeReference && IsTypeNode(r)
  {
    TypeCore.Reference(Str("Date"), [])
  }

  function AnyType(): (r: Node)
    ensures KindOf(r) == AnyKeyword && IsTypeNode(r) && r.comments == []
  {
    KeywordType(AnyKeyword)
  }

  function UnknownType(): (r: Node)
    ensures KindOf(r) == UnknownKeyword && IsTypeNode(r) && r.comments == []
  {
    KeywordType(UnknownKeyword)
  }

  /** `undefined()`: the kind `typeProperty` looks for in a union. */
  function UndefinedType(): (r: Node)
    ensures KindOf(r) == UndefinedKeyword && IsTypeNode(r) && r.comments == []
  {
    KeywordType(UndefinedKeyword)
  }

  function VoidType(): (r: Node)
    ensures KindOf(r) == VoidKeyword && IsTypeNode(r) && r.comments == []
  {
    KeywordType(VoidKeyword)
  }

  function NeverType(): (r: Node)
    ensures KindOf(r) == NeverKeyword && IsTypeNode(r) && r.comments == []
  {
    KeywordType(NeverKeyword)
  }
}
