/**
 * Runtime definitions and their conversion to expression nodes (src/runtime/utils.ts):
 * primitives become literals, plain objects become object literals, enum
 * declarations and variable statements become references to their names, and
 * any other node is used as it is.
 */
module RuntimeUtils {

  import opened Wrappers
  import opened Ast
  import opened Utils
  import Decimal

  /** `isReferenceLike`: an enum declaration or a variable statement. */
  function IsReferenceLike(v: Value): (r: bool)
    ensures r ==> IsNode(v) && TypeOf(v) == "object"
    ensures r ==> KindOf(v.node) in {EnumDeclaration, VariableStatement}
    ensures !IsNode(v) ==> !r
    ensures v.NodeV? && (v.node.syntax.EnumDeclarationNode? || v.node.syntax.VariableStatementNode?) ==> r
  {
    IsNode(v) && (v.node.syntax.EnumDeclarationNode? || v.node.syntax.VariableStatementNode?)
  }

  /**
   * The shape `runtimeReference` reads a name from: an enum, or a variable
   * statement whose first declaration is named by an identifier (the source
   * casts `declarations[0].name` to an identifier).
   */
  predicate Referenceable(n: Node) {
    match n.syntax
    case EnumDeclarationNode(_, _, _) => true
    case VariableStatementNode(_, list) =>
      list.syntax.VariableDeclarationListNode? && |list.syntax.declarations| > 0 &&
      list.syntax.declarations[0].syntax.VariableDeclarationNode?
    case _ => false
  }

  /**
   * The static type `RuntimeDefinition`: a reference-like node, a plain object
   * of runtime definitions, a primitive, or any other node.
   */
  predicate RuntimeDefinitionType(v: Value)
    decreases v, 1
  {
    if v.NodeV? then IsReferenceLike(v) ==> Referenceable(v.node)
    else IsPrimitive(v) || RuntimeDefinitionObjectType(v)
  }

  /** The static type `RuntimeDefinitionObject`. */
  predicate RuntimeDefinitionObjectType(v: Value)
    decreases v, 0
  {
    v.Obj? && forall k :: 0 <= k < |v.entries| ==> RuntimeDefinitionType(v.entries[k].1)
  }

  /** What `isRuntimeDefinition` answers. Unlike the static type, it admits no other node. */
  predicate RuntimeDefinition(v: Value)
    decreases v, 1
  {
    IsReferenceLike(v) || RuntimeDefinitionObject(v) || IsPrimitive(v)
  }

  /** What `isRuntimeDefinitionObject` answers; a node's own fields are not inspected. */
  predicate RuntimeDefinitionObject(v: Value)
    decreases v, 0
  {
    v.Obj? && forall k :: 0 <= k < |v.entries| ==> RuntimeDefinition(v.entries[k].1)
  }

  method IsRuntimeDefinitionObject(v: Value) returns (r: bool)
    ensures r == RuntimeDefinitionObject(v)
    decreases v, 0
  {
    if TypeOf(v) != "object" || v == Null {
      return false;
    }
    if !v.Obj? {
      // A syntax node: counted as no definition object.
      return false;
    }
    var entries := v.entries;
    var k := 0;
    while k < |entries|
      invariant 0 <= k <= |entries|
      invariant forall j :: 0 <= j < k ==> RuntimeDefinition(entries[j].1)
    {
      var ok := IsRuntimeDefinition(entries[k].1);
      if !ok {
        return false;
      }
      k := k + 1;
    }
    return true;
  }

  method IsRuntimeDefinition(v: Value) returns (r: bool)
    ensures r == RuntimeDefinition(v)
    decreases v, 1
  {
    r := IsReferenceLike(v);
    if !r {
      r := IsRuntimeDefinitionObject(v);
    }
    if !r {
      r := IsPrimitive(v);
    }
  }

  /** `runtimeReference`: an identifier naming the enum or the statement's first variable. */
  function RuntimeReference(n: Node): (r: Node)
    requires Referenceable(n)
    ensures r.syntax.IdentifierNode? && r.comments == []
    ensures n.syntax.EnumDeclarationNode? ==> r.syntax.text == n.syntax.name
    ensures n.syntax.VariableStatementNode? ==>
              r.syntax.text == n.syntax.declarationList.syntax.declarations[0].syntax.name
  {
    var name := if n.syntax.VariableStatementNode?
                then n.syntax.declarationList.syntax.declarations[0].syntax.name
                else n.syntax.name;
    CreateIdentifier(name)
  }

  /** The primitive cases of `runtimeLiteral`. */
  function PrimitiveLiteral(p: Value): (r: Node)
    requires IsPrimitive(p)
    ensures r.comments == []
    ensures KindOf(r) == match p
                          case Str(_) => StringLiteral
                          case Num(_) => NumericLiteral
                          case Bool(b) => (if b then TrueKeyword else FalseKeyword)
                          case BigInt(_) => BigIntLiteral
  {
    match p
    case Str(s) => Make(StringLiteralNode(s))
    case Num(n) => Make(NumericLiteralNode(Decimal.Text(n)))
    case Bool(b) => Make(BooleanLiteralNode(b))
    case BigInt(i) => Make(BigIntLiteralNode(Decimal.Text(i)))
  }

  /** The primitive a literal node spells, if it is one: the inverse of `PrimitiveLiteral`. */
  function PrimitiveOfLiteral(lit: Node): Option<Value> {
    match lit.syntax
    case StringLiteralNode(t) => Some(Str(t))
    case NumericLiteralNode(t) => (match Decimal.Parse(t) case Some(i) => Some(Num(i)) case None => None)
    case BooleanLiteralNode(b) => Some(Bool(b))
    case BigIntLiteralNode(t) => (match Decimal.Parse(t) case Some(i) => Some(BigInt(i)) case None => None)
    case _ => None
  }

  lemma PrimitiveLiteralRoundTrip(p: Value)
    requires IsPrimitive(p)
    ensures PrimitiveOfLiteral(PrimitiveLiteral(p)) == Some(p)
  {
    if p.Num? {
      NumericTextRoundTrip(p.n);
    } else if p.BigInt? {
      BigIntTextRoundTrip(p.i);
    }
  }

  lemma NumericTextRoundTrip(n: int)
    ensures PrimitiveOfLiteral(Make(NumericLiteralNode(Decimal.Text(n)))) == Some(Num(n))
  {
    Decimal.TextRoundTrip(n);
  }

  lemma BigIntTextRoundTrip(i: int)
    ensures PrimitiveOfLiteral(Make(BigIntLiteralNode(Decimal.Text(i)))) == Some(BigInt(i))
  {
    Decimal.TextRoundTrip(i);
  }

  /** `toRuntimeNode`, with its `reference` flag (true at every call site in the library). */
  function ToRuntimeNode(d: Value, reference: bool): (r: Node)
    requires RuntimeDefinitionType(d)
    ensures reference && IsReferenceLike(d) ==> r == RuntimeReference(d.node)
    ensures !(reference && IsReferenceLike(d)) && d.NodeV? ==> r == d.node
    ensures !d.NodeV? ==> r == RuntimeLiteral(d)
    ensures r.comments == if d.NodeV? && !(reference && IsReferenceLike(d)) then d.node.comments else []
    decreases d, 1
  {
    if reference && IsReferenceLike(d) then RuntimeReference(d.node)
    else if IsNode(d) then d.node
    else RuntimeLiteral(d)
  }

  /**
   * `runtimeProperty`: an assignment keyed by the string literal of `name`. The
   * value node's synthetic comments move onto the assignment.
   */
  function RuntimeProperty(name: string, d: Value): (r: Node)
    requires RuntimeDefinitionType(d)
    ensures r.syntax.PropertyAssignmentNode?
    ensures r.syntax.propertyName == PrimitiveLiteral(Str(name))
    ensures r.syntax.propertyValue.syntax == ToRuntimeNode(d, true).syntax
    ensures r.syntax.propertyValue.comments == []
    ensures r.comments == ToRuntimeNode(d, true).comments
    decreases d, 2
  {
    var node := ToRuntimeNode(d, true);
    var propertyComments := node.comments;
    var value := if |propertyComments| != 0 then node.(comments := []) else node;
    var assignment := Make(PropertyAssignmentNode(PrimitiveLiteral(Str(name)), value));
    if |propertyComments| != 0 then assignment.(comments := propertyComments) else assignment
  }

  /** `runtimeLiteral`: a literal for a primitive, a multi-line object literal for an object. */
  function RuntimeLiteral(d: Value): (r: Node)
    requires IsPrimitive(d) || RuntimeDefinitionObjectType(d)
    ensures r.comments == []
    ensures IsPrimitive(d) ==> r == PrimitiveLiteral(d)
    ensures d.Obj? ==>
              && r.syntax.ObjectLiteralNode?
              && r.syntax.multiLine
              && |r.syntax.properties| == |d.entries|
              && forall k :: 0 <= k < |d.entries| ==>
                   r.syntax.properties[k] == RuntimeProperty(d.entries[k].0, d.entries[k].1)
    decreases d, 0
  {
    if IsPrimitive(d) then PrimitiveLiteral(d)
    else
      var entries := d.entries;
      Make(ObjectLiteralNode(
        seq(|entries|, k requires 0 <= k < |entries| => RuntimeProperty(entries[k].0, entries[k].1)),
        true))
  }

  /** The runtime definition an expression node was converted from: the inverse of `ToRuntimeNode`. */
  function DefinitionOfExpression(n: Node): Value
    decreases n, 1
  {
    match n.syntax
    case ObjectLiteralNode(props, _) =>
      Obj(seq(|props|, k requires 0 <= k < |props| => EntryOfAssignment(props[k])))
    case _ =>
      match PrimitiveOfLiteral(n)
      case Some(p) => p
      case None => NodeV(n)
  }

  function EntryOfAssignment(a: Node): (string, Value)
    decreases a, 0
  {
    match a.syntax
    case PropertyAssignmentNode(key, value) =>
      (if key.syntax.StringLiteralNode? then key.syntax.text else "", DefinitionOfExpression(value))
    case _ => ("", NodeV(a))
  }

  /**
   * A runtime definition the conversion can be read back from: every node in it
   * is uncommented and none is a reference, a literal or an object literal.
   */
  predicate PlainRuntimeDefinition(d: Value)
    decreases d
  {
    IsPrimitive(d) ||
    (d.NodeV? && !IsReferenceLike(d) && d.node.comments == [] &&
     PrimitiveOfLiteral(d.node).None? && !d.node.syntax.ObjectLiteralNode?) ||
    (d.Obj? && forall k :: 0 <= k < |d.entries| ==> PlainRuntimeDefinition(d.entries[k].1))
  }

  lemma PropertyRoundTrip(name: string, v: Value)
    requires RuntimeDefinitionType(v)
    requires ToRuntimeNode(v, true).comments == []
    requires DefinitionOfExpression(ToRuntimeNode(v, true)) == v
    ensures EntryOfAssignment(RuntimeProperty(name, v)) == (name, v)
  {
    var p := RuntimeProperty(name, v);
    var value := ToRuntimeNode(v, true);
    assert p.syntax == PropertyAssignmentNode(Make(StringLiteralNode(name)), value);
  }

  /** The conversion loses nothing: keys, their order and every primitive are recoverable. */
  lemma {:induction false} RuntimeLiteralRoundTrip(d: Value)
    requires PlainRuntimeDefinition(d)
    ensures RuntimeDefinitionType(d)
    ensures DefinitionOfExpression(ToRuntimeNode(d, true)) == d
    decreases d
  {
    if IsPrimitive(d) {
      PrimitiveLiteralRoundTrip(d);
    } else if d.Obj? {
      var es := d.entries;
      forall k | 0 <= k < |es|
        ensures RuntimeDefinitionType(es[k].1)
        ensures DefinitionOfExpression(ToRuntimeNode(es[k].1, true)) == es[k].1
        ensures ToRuntimeNode(es[k].1, true).comments == []
      {
        RuntimeLiteralRoundTrip(es[k].1);
      }
      assert RuntimeDefinitionObjectType(d);
      var r := ToRuntimeNode(d, true);
      var props := r.syntax.properties;
      forall k | 0 <= k < |es|
        ensures EntryOfAssignment(props[k]) == es[k]
      {
        PropertyRoundTrip(es[k].0, es[k].1);
      }
      assert DefinitionOfExpression(r).entries == es;
    }
  }
}
