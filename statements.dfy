/** Exported variable statements: `const`, `let` and `var` (src/runtime/statements.ts). */
module Statements {

  import opened Wrappers
  import opened Ast
  import opened Utils
  import opened RuntimeUtils

  datatype VariableStatementKind = Const | Let | Var

  /** The options of `variableStatement`: an optional declared type and the kind. */
  datatype VariableStatementOptions = VariableStatementOptions(declaredType: Option<Node>, kind: VariableStatementKind)

  /**
   * The options of the `const`/`let`/`var` shorthands. Their static type omits
   * `kind`, but a caller may still pass one; the shorthand overrides it.
   */
  datatype ShorthandOptions = ShorthandOptions(declaredType: Option<Node>, kind: Option<VariableStatementKind>)

  /** The shorthands' default options, `{}`. */
  const NoOptions := ShorthandOptions(None, None)

  /** The flag lookup keyed by kind. */
  function KindFlags(kind: VariableStatementKind): NodeFlags {
    match kind
    case Const => FlagConst
    case Let => FlagLet
    case Var => FlagsNone
  }

  /** The single declaration named `name`, typed and initialised as the statement builders make it. */
  predicate DeclaresOnly(s: Node, name: string, declaredType: Option<Node>, initializer: Node, flags: NodeFlags) {
    && s.comments == []
    && s.syntax.VariableStatementNode?
    && s.syntax.modifiers == Some([CreateToken(ExportKeyword)])
    && s.syntax.declarationList.syntax.VariableDeclarationListNode?
    && s.syntax.declarationList.syntax.flags == flags
    && s.syntax.declarationList.syntax.declarations ==
         [Make(VariableDeclarationNode(name, declaredType, Some(initializer)))]
  }

  /**
   * `variableStatement`: one exported declaration initialised by the runtime node
   * of `d`; its list's flags are Const for `const`, Let for `let` and none for `var`.
   */
  function VariableStatement(name: string, d: Value, options: VariableStatementOptions): (r: Node)
    requires RuntimeDefinitionType(d)
    ensures DeclaresOnly(r, name, options.declaredType, ToRuntimeNode(d, true), KindFlags(options.kind))
    ensures options.kind == Const ==> r.syntax.declarationList.syntax.flags & FlagConst != 0
    ensures options.kind == Let ==> r.syntax.declarationList.syntax.flags & FlagLet != 0
    ensures options.kind != Const ==> r.syntax.declarationList.syntax.flags & FlagConst == 0
    ensures options.kind != Let ==> r.syntax.declarationList.syntax.flags & FlagLet == 0
    ensures Referenceable(r) && RuntimeReference(r) == CreateIdentifier(name)
  {
    var node := ToRuntimeNode(d, true);
    Make(VariableStatementNode(
      Some([CreateToken(ExportKeyword)]),
      Make(VariableDeclarationListNode(
        [Make(VariableDeclarationNode(name, options.declaredType, Some(node)))],
        KindFlags(options.kind)))))
  }

  /** `const`: a const declaration, whatever kind the options name. */
  function ConstStatement(name: string, d: Value, options: ShorthandOptions): (r: Node)
    requires RuntimeDefinitionType(d)
    ensures DeclaresOnly(r, name, options.declaredType, ToRuntimeNode(d, true), FlagConst)
    ensures Referenceable(r) && RuntimeReference(r) == CreateIdentifier(name)
  {
    VariableStatement(name, d, VariableStatementOptions(options.declaredType, Const))
  }

  /** `let`: a let declaration, whatever kind the options name. */
  function LetStatement(name: string, d: Value, options: ShorthandOptions): (r: Node)
    requires RuntimeDefinitionType(d)
    ensures DeclaresOnly(r, name, options.declaredType, ToRuntimeNode(d, true), FlagLet)
    ensures Referenceable(r) && RuntimeReference(r) == CreateIdentifier(name)
  {
    VariableStatement(name, d, VariableStatementOptions(options.declaredType, Let))
  }

  /** `var`: a declaration without block-scope flags, whatever kind the options name. */
  function VarStatement(name: string, d: Value, options: ShorthandOptions): (r: Node)
    requires RuntimeDefinitionType(d)
    ensures DeclaresOnly(r, name, options.declaredType, ToRuntimeNode(d, true), FlagsNone)
    ensures Referenceable(r) && RuntimeReference(r) == CreateIdentifier(name)
  {
    VariableStatement(name, d, VariableStatementOptions(options.declaredType, Var))
  }

  /**
   * A statement used as a runtime definition stands for its variable: converting
   * it yields an identifier, and converting it as a value yields the statement itself.
   */
  lemma StatementIsReferencedByName(name: string, d: Value, options: VariableStatementOptions)
    requires RuntimeDefinitionType(d)
    ensures RuntimeDefinitionType(NodeV(VariableStatement(name, d, options)))
    ensures ToRuntimeNode(NodeV(VariableStatement(name, d, options)), true) == CreateIdentifier(name)
    ensures ToRuntimeNode(NodeV(VariableStatement(name, d, options)), false) == VariableStatement(name, d, options)
  {
  }

  /** A statement as an object property's value prints as the name of its variable. */
  lemma StatementInObjectIsName(key: string, name: string, d: Value)
    requires RuntimeDefinitionType(d)
    ensures var o := Obj([(key, NodeV(ConstStatement(name, d, NoOptions)))]);
            RuntimeDefinitionObjectType(o) &&
            RuntimeLiteral(o).syntax.properties ==
              [Make(PropertyAssignmentNode(PrimitiveLiteral(Str(key)), CreateIdentifier(name)))]
  {
    var s := ConstStatement(name, d, NoOptions);
    assert RuntimeDefinitionType(NodeV(s));
    var p := RuntimeProperty(key, NodeV(s));
    assert p == Make(PropertyAssignmentNode(PrimitiveLiteral(Str(key)), CreateIdentifier(name)));
  }

  /** The three kinds give three different flag sets. */
  lemma KindFlagsDistinct(a: VariableStatementKind, b: VariableStatementKind)
    ensures KindFlags(a) == KindFlags(b) <==> a == b
  {
  }
}
