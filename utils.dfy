/**
 * JavaScript values as the library receives them (src/utils.ts): the kinds of
 * value `typeof` tells apart, plain objects as insertion-ordered entries, and
 * syntax nodes.
 */
module Utils {

  import opened Ast

  datatype Value =
    | Undefined
    | Null
    | Str(s: string)
    | Num(n: int)
    | Bool(b: bool)
    | BigInt(i: int)
    | Symbol(description: string)
    | Function
    | Obj(entries: seq<(string, Value)>)
    | NodeV(node: Node)

  /** JavaScript's `typeof`. A syntax node is an object. */
  function TypeOf(v: Value): string {
    match v
    case Undefined => "undefined"
    case Null => "object"
    case Str(_) => "string"
    case Num(_) => "number"
    case Bool(_) => "boolean"
    case BigInt(_) => "bigint"
    case Symbol(_) => "symbol"
    case Function => "function"
    case Obj(_) => "object"
    case NodeV(_) => "object"
  }

  /** The `typeof` results that make a value primitive; `symbol` is deliberately absent. */
  const PrimitiveTypes: seq<string> := ["string", "number", "boolean", "bigint"]

  function IsPrimitive(v: Value): (r: bool)
    ensures r <==> v.Str? || v.Num? || v.Bool? || v.BigInt?
  {
    TypeOf(v) in PrimitiveTypes
  }

  /**
   * Whether the value carries a `kind` naming a syntax kind. Only nodes do in
   * this model; a plain object whose own `kind` entry is a number is not one.
   */
  predicate HasSyntaxKind(v: Value) {
    v.NodeV?
  }

  function IsNode(v: Value): (r: bool)
    ensures r <==> v.NodeV?
    ensures r ==> TypeOf(v) == "object" && v != Null
  {
    TypeOf(v) == "object" && v != Null && HasSyntaxKind(v)
  }
}
