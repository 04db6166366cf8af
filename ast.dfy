/**
 * The syntax trees the compiler's node factory builds, as far as this library
 * creates or inspects them. Factory calls are plain constructors here: a fresh
 * node carries no synthetic comments and stores its children as given.
 */
module Ast {

  import opened Wrappers

  /** The syntax kinds the library creates or tests for, named as in the compiler. */
  datatype Kind =
    | StringKeyword | NumberKeyword | BigIntKeyword | BooleanKeyword
    | AnyKeyword | UnknownKeyword | UndefinedKeyword | VoidKeyword | NeverKeyword
    | TypeReference | LiteralType | TypeLiteral | UnionType | IntersectionType
    | TupleType | NamedTupleMember | IndexedAccessType | TypeQuery
    | PropertySignature
    | Identifier | StringLiteral | NumericLiteral | BigIntLiteral | TrueKeyword | FalseKeyword
    | ObjectLiteralExpression | PropertyAssignment | PropertyAccessExpression
    | ElementAccessExpression | AsExpression
    | VariableStatement | VariableDeclarationList | VariableDeclaration
    | InterfaceDeclaration | TypeAliasDeclaration | EnumDeclaration | EnumMember
    | ModuleDeclaration | ModuleBlock
    | ExportKeyword | DeclareKeyword | ReadonlyKeyword | QuestionToken

  /** Node flags are a bit set; the bit positions are those of the compiler's NodeFlags. */
  type NodeFlags = bv32

  const FlagsNone: NodeFlags := 0
  const FlagLet: NodeFlags := 1
  const FlagConst: NodeFlags := 2
  const FlagNamespace: NodeFlags := 16
  const FlagGlobalAugmentation: NodeFlags := 1024

  datatype CommentKind = MultiLineCommentTrivia | SingleLineCommentTrivia

  /** A comment attached to a node for the printer, not taken from any source text. */
  datatype SynthesizedComment = SynthesizedComment(kind: CommentKind, text: string, hasTrailingNewLine: bool)

  /** A node: its shape, and the synthetic leading comments attached to it. */
  datatype Node = Node(syntax: Syntax, comments: seq<SynthesizedComment>)

  /**
   * One constructor per node shape. A `seq` of type arguments that is empty
   * stands for none (the factory drops an empty type-argument list); `Option`
   * fields are the ones the library passes as `undefined`.
   */
  datatype Syntax =
    | KeywordTypeNode(keyword: Kind)
    | TypeReferenceNode(typeName: string, typeArguments: seq<Node>)
    | LiteralTypeNode(literal: Node)
    | TypeLiteralNode(members: seq<Node>)
    | UnionTypeNode(types: seq<Node>)
    | IntersectionTypeNode(types: seq<Node>)
    | TupleTypeNode(elements: seq<Node>)
    | NamedTupleMemberNode(dotDotDotToken: Option<Node>, name: string, questionToken: Option<Node>, memberType: Node)
    | IndexedAccessTypeNode(objectType: Node, indexType: Node)
    | TypeQueryNode(exprName: Node)
    | PropertySignatureNode(modifiers: Option<seq<Node>>, name: string, questionToken: Option<Node>, propertyType: Node)
    | Token(token: Kind)
    | IdentifierNode(text: string)
    | StringLiteralNode(text: string)
    | NumericLiteralNode(text: string)
    | BigIntLiteralNode(text: string)
    | BooleanLiteralNode(value: bool)
    | ObjectLiteralNode(properties: seq<Node>, multiLine: bool)
    | PropertyAssignmentNode(propertyName: Node, propertyValue: Node)
    | PropertyAccessNode(expression: Node, name: string)
    | ElementAccessNode(expression: Node, argument: Node)
    | AsExpressionNode(expression: Node, asType: Node)
    | VariableStatementNode(modifiers: Option<seq<Node>>, declarationList: Node)
    | VariableDeclarationListNode(declarations: seq<Node>, flags: NodeFlags)
    | VariableDeclarationNode(name: string, declaredType: Option<Node>, initializer: Option<Node>)
    | InterfaceDeclarationNode(modifiers: Option<seq<Node>>, name: string, typeParameters: Option<seq<Node>>,
                               heritageClauses: Option<seq<Node>>, members: seq<Node>)
    | TypeAliasDeclarationNode(modifiers: Option<seq<Node>>, name: string, typeParameters: Option<seq<Node>>, aliasedType: Node)
    | EnumDeclarationNode(modifiers: Option<seq<Node>>, name: string, members: seq<Node>)
    | EnumMemberNode(name: string, initializer: Option<Node>)
    | ModuleDeclarationNode(modifiers: Option<seq<Node>>, name: string, body: Node, flags: NodeFlags)
    | ModuleBlockNode(statements: seq<Node>)

  /** A node as the factory returns it: no synthetic comments yet. */
  function Make(s: Syntax): Node {
    Node(s, [])
  }

  /** A node's `kind`, which depends on its syntax alone. */
  function KindOf(n: Node): Kind {
    SyntaxKind(n.syntax)
  }

  function SyntaxKind(s: Syntax): Kind {
    match s
    case KeywordTypeNode(k) => k
    case TypeReferenceNode(_, _) => TypeReference
    case LiteralTypeNode(_) => LiteralType
    case TypeLiteralNode(_) => TypeLiteral
    case UnionTypeNode(_) => UnionType
    case IntersectionTypeNode(_) => IntersectionType
    case TupleTypeNode(_) => TupleType
    case NamedTupleMemberNode(_, _, _, _) => NamedTupleMember
    case IndexedAccessTypeNode(_, _) => IndexedAccessType
    case TypeQueryNode(_) => TypeQuery
    case PropertySignatureNode(_, _, _, _) => PropertySignature
    case Token(k) => k
    case IdentifierNode(_) => Identifier
    case StringLiteralNode(_) => StringLiteral
    case NumericLiteralNode(_) => NumericLiteral
    case BigIntLiteralNode(_) => BigIntLiteral
    case BooleanLiteralNode(b) => if b then TrueKeyword else FalseKeyword
    case ObjectLiteralNode(_, _) => ObjectLiteralExpression
    case PropertyAssignmentNode(_, _) => PropertyAssignment
    case PropertyAccessNode(_, _) => PropertyAccessExpression
    case ElementAccessNode(_, _) => ElementAccessExpression
    case AsExpressionNode(_, _) => AsExpression
    case VariableStatementNode(_, _) => VariableStatement
    case VariableDeclarationListNode(_, _) => VariableDeclarationList
    case VariableDeclarationNode(_, _, _) => VariableDeclaration
    case InterfaceDeclarationNode(_, _, _, _, _) => InterfaceDeclaration
    case TypeAliasDeclarationNode(_, _, _, _) => TypeAliasDeclaration
    case EnumDeclarationNode(_, _, _) => EnumDeclaration
    case EnumMemberNode(_, _) => EnumMember
    case ModuleDeclarationNode(_, _, _, _) => ModuleDeclaration
    case ModuleBlockNode(_) => ModuleBlock
  }

  predicate IsKeywordTypeKind(k: Kind) {
    k in {StringKeyword, NumberKeyword, BigIntKeyword, BooleanKeyword, AnyKeyword,
          UnknownKeyword, UndefinedKeyword, VoidKeyword, NeverKeyword}
  }

  /** The compiler's `isTypeNode`, restricted to the kinds modelled here. */
  predicate IsTypeNode(n: Node) {
    IsTypeKind(KindOf(n))
  }

  predicate IsTypeKind(k: Kind) {
    IsKeywordTypeKind(k) ||
    k in {TypeReference, LiteralType, TypeLiteral, UnionType, IntersectionType,
          TupleType, NamedTupleMember, IndexedAccessType, TypeQuery}
  }

  /** A modifier or punctuation token as the factory creates it. */
  function CreateToken(k: Kind): Node {
    Make(Token(k))
  }

  /** An identifier as the factory creates it. */
  function CreateIdentifier(text: string): Node {
    Make(IdentifierNode(text))
  }
}
