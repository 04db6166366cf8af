# tanu.js in Dafny

tanu.js lets a program describe TypeScript declarations with plain JavaScript
values and builds the compiler's syntax trees from them. A *type definition* is
a type node, a type alias, interface or enum declaration, a plain object of
type definitions, or a primitive. A *runtime definition* is a node, an object
of runtime definitions, or a primitive. The library turns a type definition into
a type node and a runtime definition into an expression:

- a primitive becomes a literal;
- an object becomes a type literal of property signatures or an object literal
  of property assignments;
- a declaration that can be referred to becomes a reference to its name;
- any other node is used as it is.

On top of this it builds unions, intersections, tuples, optional and readonly
types, keyword types, interfaces, type aliases, enums, modules, exported
variable statements, property and element accesses, `as` expressions and
documentation comments.

This project models that conversion. JavaScript values are the datatype
`Utils.Value`. Syntax nodes are `Ast.Node`, which pairs a `Syntax` value (one
constructor per factory shape this library builds) with the node's list of
synthetic leading comments. Calls to the compiler's node factory become
datatype constructors. The places where the source changes a node's comment
list in place become functions that return the updated node.

- `isTypeDefinitionObject` and `isRuntimeDefinitionObject` loop with early
  returns, so they are methods. Each is proved equal to a predicate, and the
  functional code uses those predicates.
- The source's static parameter types are the preconditions. `toTypeNode`
  needs `TypeDefinition`. `toRuntimeNode` needs `RuntimeDefinitionType`, which
  also requires a variable statement used as a reference to have a first
  declaration, because `runtimeReference` reads its name from there.
- Number and bigint literal text is the decimal form of an integer, `Decimal.Text`.
- `module` computes its flags step by step like the source, so it is a method.
  Flags are bit-vectors with the compiler's bit positions for Let (1),
  Const (2), Namespace (16) and GlobalAugmentation (1024). Only the fact that
  they are distinct single bits is used.

Each conversion has a partner:

- `TypeCore.DefinitionOfType` and `RuntimeUtils.DefinitionOfExpression` read a
  definition back from the nodes built for it. The round-trip lemmas show that
  nothing is lost: keys, order, nesting and every primitive come back.
- `Decimal.Parse` reads an integer's text back.
- The comment text is shown to split into exactly the lines the library means
  to print.

## Model

| member | source | states |
|---|---|---|
| Utils.IsPrimitive | src/utils.ts:5-16 | a value is primitive exactly when it is a string, number, boolean or bigint; symbol, null, undefined, functions, objects and nodes are not |
| Utils.IsNode | src/utils.ts:18-25 | a value is a node exactly when it is a syntax node; a node is a non-null object |
| Decimal.TextRoundTrip | src/runtime/utils.ts:87-90 | the decimal text given to numeric and bigint literals can be parsed back to the same integer |
| RuntimeUtils.IsReferenceLike | src/runtime/utils.ts:14-16 | only a node can be reference-like, and it is one exactly when it is an enum declaration or a variable statement; its kind is then EnumDeclaration or VariableStatement |
| RuntimeUtils.IsRuntimeDefinitionObject | src/runtime/utils.ts:18-26 | the loop answers false for non-objects, null and nodes, false as soon as one value is not a runtime definition, and true otherwise |
| RuntimeUtils.IsRuntimeDefinition | src/runtime/utils.ts:28-30 | true exactly for reference-like nodes, runtime definition objects and primitives, tested in that order |
| RuntimeUtils.RuntimeReference | src/runtime/utils.ts:37-43 | an uncommented identifier: the enum's name, or the name of the variable statement's first declaration |
| RuntimeUtils.PrimitiveLiteral | src/runtime/utils.ts:86-90 | a string gives a StringLiteral, a number a NumericLiteral, true and false TrueKeyword and FalseKeyword, a bigint a BigIntLiteral, each without comments |
| RuntimeUtils.PrimitiveLiteralRoundTrip | src/runtime/utils.ts:86-90 | the primitive can be read back from its literal |
| RuntimeUtils.ToRuntimeNode | src/runtime/utils.ts:32-35 | a reference-like node, when referencing, becomes its name identifier; any other node is returned as it is, with its comments; anything else becomes its runtime literal |
| RuntimeUtils.RuntimeProperty | src/runtime/utils.ts:52-69 | a property assignment keyed by the name's string literal; the value node keeps its syntax and loses its comments, which the assignment carries instead |
| RuntimeUtils.RuntimeLiteral | src/runtime/utils.ts:85-98 | a primitive gives its literal; an object gives a multi-line object literal with one assignment per entry, in entry order |
| RuntimeUtils.RuntimeLiteralRoundTrip | src/runtime/utils.ts:85-98 | for primitives, objects of them and uncommented nodes that are not references, literals or object literals, the definition is read back from its expression: keys, order and values all come back |
| TypeCore.IsTypeReferenceLike | src/type/utils.ts:13-23 | only a node can be type-reference-like; every type node is one, and so is every type alias, interface or enum declaration; its kind is then a type kind or one of those declarations |
| TypeCore.IsTypeDefinitionObject | src/type/utils.ts:25-35 | the loop answers false for non-objects, null and nodes, false as soon as one value is not a type definition, and true otherwise |
| TypeCore.IsTypeDefinition | src/type/utils.ts:37-43 | true exactly for type-reference-like nodes, type definition objects and primitives, tested in that order |
| TypeCore.FindKind | src/type/utils.ts:64-66 | finds a node exactly when one of the given kind exists, and what it finds is the first node of that kind in the list |
| TypeCore.ToTypeNode | src/type/utils.ts:45-49 | the result is a type node: a type node input is returned as it is; an alias, interface or enum becomes a reference to its name without arguments; anything else goes through typeLiteral |
| TypeCore.TypeProperty | src/type/utils.ts:58-91 | a signature with the given name that has a question token exactly when the type node is a union with an undefined member; modifiers are exactly `[readonly]` when it is a reference to `Readonly`, and absent otherwise; the type node keeps its syntax, loses its comments, and the signature carries them |
| TypeCore.TypeLiteral | src/type/utils.ts:112-121 | a primitive gives a literal type around its runtime literal; an object gives a type literal with one signature per entry, keys and order kept |
| TypeCore.CreateReference | src/type/index.ts:52-62 | a string names a reference with the given arguments; a type node is returned as it is; a declaration is referred to by its name |
| TypeCore.TypeNodes | src/type/index.ts:57 | the definitions converted one by one, length and order kept |
| TypeCore.Reference | src/type/index.ts:52-62 | a string names a reference whose arguments are the converted definitions in order; a type node is returned as it is, ignoring the arguments; a declaration is referenced by its name |
| TypeCore.Array | src/type/index.ts:68-70 | a reference to `Array` with exactly one argument, the converted definition |
| TypeCore.TypeQuery | src/type/index.ts:77-79 | a type query whose expression is the runtime reference of the enum or variable, an identifier |
| TypeCore.IndexOf | src/type/index.ts:81-83 | an indexed access type whose object is the converted definition and whose index is the literal type of the key |
| TypeCore.ToTypeNodeIdempotent | src/type/utils.ts:45-49 | converting a converted definition again changes nothing |
| TypeCore.ToTypeNodeIsReference | src/type/utils.ts:45-49 | converting a type-reference-like node is `reference` of it with no arguments |
| TypeCore.TypeLiteralRoundTrip | src/type/utils.ts:112-121 | for primitives, objects of them and uncommented non-literal type nodes, the definition is read back from its type node |
| Runtime.PropertyOf | src/runtime/index.ts:32-41 | a numeric key gives an element access by that number's literal; a string key gives a property access by that name; both access the definition's runtime node |
| Runtime.As | src/runtime/index.ts:43-51 | an as-expression over the definition's runtime node; "const" asserts to the reference `const`, any other type definition to its type node |
| Runtime.AsConstIsConstAssertion | src/runtime/index.ts:49 | `as(d, "const")` is not an assertion to the literal type that converting "const" would give |
| Runtime.PropertyOfStatementByName | test/runtime.test.ts:170-178 | a string key on a let statement accesses its variable by name, as `myObject.foo` |
| Runtime.PropertyOfStatementByIndex | test/runtime.test.ts:180-188 | a numeric key on a let statement indexes its variable, as `myObject[1]` |
| Runtime.AsStringOnVariable | test/runtime.test.ts:192-198 | `as(var("myVariable", {}), string())` asserts the identifier `myVariable` to `string` |
| Statements.VariableStatement | src/runtime/statements.ts:14-32 | exactly one export modifier and exactly one declaration, with the given name, the given type annotation and the definition's runtime node as initializer; the list's flags are Const for const, Let for let and neither for var; the statement is referred to by that name |
| Statements.ConstStatement | src/runtime/statements.ts:39-45 | a const declaration in that shape, whatever kind the caller's options hold |
| Statements.LetStatement | src/runtime/statements.ts:52-58 | a let declaration in that shape, whatever kind the caller's options hold |
| Statements.VarStatement | src/runtime/statements.ts:65-71 | a declaration without block-scope flags in that shape, whatever kind the caller's options hold |
| Statements.StatementIsReferencedByName | src/runtime/utils.ts:32-43 | a built statement converts to its variable's identifier when referenced, and to itself otherwise |
| Statements.StatementInObjectIsName | test/runtime.test.ts:127-135 | a const statement as an object property's value becomes its variable's identifier |
| Statements.KindFlagsDistinct | src/runtime/statements.ts:25-29 | the three kinds give three different flag sets |
| Common.CommentText | src/common.ts:33 | `* text ` for one line; `*\n * ` + the lines joined by `\n * ` + `\n ` for an array; it always opens with `*` and closes with a space |
| Common.Comment | src/common.ts:30-37 | a type definition is converted as a type, anything else as a runtime node; exactly one multi-line comment with a trailing newline is appended after the comments the node already has |
| Common.LineCommentIsOneLine | src/common.ts:33 | a one-line comment without line breaks is the single line `* text ` |
| Common.LinesCommentLayout | src/common.ts:33 | a comment of lines splits into the opening `*`, one ` * line` per given line in order, and the closing line; an empty array gives a single blank ` * ` line |
| Common.CommentMovesToProperty | src/type/utils.ts:78-90 | a commented type definition used as a property: the comment ends up on the signature, after the type's own comments, and the type is left without comments |
| Common.CommentedStatementIsIdentifier | test/runtime.test.ts:159-166 | a variable statement is not a type definition, so commenting it gives its variable's identifier carrying the comment |
| Common.CommentMovesToAssignment | src/runtime/utils.ts:58-68 | a commented identifier as an object property's value: the comment moves onto the assignment and the identifier is left without it |
| Declarations.ConstructInterface | src/type/declarations/interface.ts:10-20 | exactly one export modifier, the given name, no type parameters or heritage clauses, and one member per entry, the entry's property signature, in order |
| Declarations.Interface | src/type/declarations/interface.ts:34-40 | a properties object is built directly, and the interface is referred to by its name in type position |
| Declarations.InterfaceMemberMarkings | src/type/declarations/interface.ts:16-19 | each member is optional exactly when its type is a union with undefined, and readonly exactly when its type is `Readonly<…>` |
| Declarations.ConstructType | src/type/declarations/type.ts:8-15 | exactly one export modifier, the given name, no type parameters, and the converted definition as the aliased type |
| Declarations.TypeAlias | src/type/declarations/type.ts:23-31 | a definition is built directly, and the alias is referred to by its name in type position |
| Declarations.IntersectionAliasExample | src/example.ts:64 | `type("Foo", intersection([1, 2]))` aliases the intersection of the literal types 1 and 2 |
| Declarations.Enum | src/type/declarations/enum.ts:14-24 | exactly one export modifier, the given name, and one member per value, named by it, in order, none with an initializer; no values give no members |
| Declarations.EnumIsReferencedByName | src/type/utils.ts:45-49 | an enum becomes a reference to its name in type position and its name identifier in value position |
| Declarations.EnumInObjectIsName | test/runtime.test.ts:117-125 | an enum as an object property's value becomes its name identifier |
| Declarations.ModuleDeclaration | src/type/declarations/module.ts:9-28 | GlobalAugmentation is set exactly when the name is "global" or the option is set; Namespace exactly when the option is set; no other flag, so none at all without either; a declare modifier exactly when asked for; the body is a block of the statements in order |
| Declarations.Namespace | src/type/declarations/module.ts:34-40 | always carries the Namespace flag and passes the other options through |
| Composites.Tuple | src/type/composites/tuple.ts:18-33 | an array gives element i as the converted definition i, length kept; an object gives one named member per entry, in order, named by its key, typed by the converted value, with no rest or question token |
| Composites.Union | src/type/composites/union.ts:16-18 | a union type with one member per definition, member i being the converted definition i |
| Composites.Intersection | src/type/composites/intersection.ts:9-13 | an intersection type with one member per definition, member i being the converted definition i |
| Composites.UnionOfStrings | src/type/composites/union.ts:11-12 | a union of strings is a union of their string literal types |
| Composites.IntersectionPropertyIsRequired | src/type/utils.ts:64-68 | a property typed by an intersection never gets a question token |
| Modifiers.Optional | src/type/modifiers/optional.ts:11-13 | a union of exactly two members: the converted definition, then `undefined` |
| Modifiers.Readonly | src/type/modifiers/readonly.ts:3-5 | a reference to `Readonly` with exactly one argument, the converted definition |
| Modifiers.OptionalPropertyIsOptional | src/type/utils.ts:64-68 | a property typed `optional(d)` always has a question token and no modifiers |
| Modifiers.ReadonlyPropertyIsReadonly | src/type/utils.ts:70-76 | a property typed `readonly(d)` has exactly one readonly modifier and no question token |
| Modifiers.ReadonlyOptionalIsRequired | src/type/utils.ts:64-76 | a property typed `readonly(optional(x))` is readonly but has no question token, its type being a reference and not a union |
| Primitives.StringType | src/type/primitives/index.ts:8-10 | the string keyword type |
| Primitives.NumberType | src/type/primitives/index.ts:15-17 | the number keyword type |
| Primitives.BigIntType | src/type/primitives/index.ts:23-25 | the bigint keyword type |
| Primitives.BooleanType | src/type/primitives/index.ts:30-32 | the boolean keyword type |
| Primitives.DateType | src/type/primitives/index.ts:38-40 | a reference to `Date` without arguments |
| Primitives.AnyType | src/type/primitives/index.ts:42-44 | the any keyword type |
| Primitives.UnknownType | src/type/primitives/index.ts:46-48 | the unknown keyword type |
| Primitives.UndefinedType | src/type/primitives/index.ts:55-57 | the undefined keyword type, the kind typeProperty looks for |
| Primitives.VoidType | src/type/primitives/index.ts:64-66 | the void keyword type |
| Primitives.NeverType | src/type/primitives/index.ts:68-70 | the never keyword type |

## Left out

- Printing (src/generate.ts) is the compiler's printer, which is not part of this model. Tests that compare printed text are used only for the node shapes they imply.
- Lazy declarations: `setLazy` (src/utils.ts:27-42) and the function-valued branches of `interface` and `type` defer a mutation to a later turn of the event loop behind a proxy. Only the branches that take their properties or definition directly are modelled.
- Object identity: the source mutates a node's comment list in place and returns or reuses the same object. The model returns a new node value instead, so the effect on other holders of the same node is not captured.
- The factory's parenthesizer is not modelled. It wraps some union, intersection and accessed expressions in parentheses.
- Numbers are integers. NaN, Infinity, fractions and exponent notation are not modelled.
- Negative numbers are modelled as a literal whose text starts with a minus sign. Newer compilers reject such a numeric literal, and the model does not.
- `isNode` answers true only for syntax nodes. The source accepts any object with a `kind` property, own or inherited, that the `SyntaxKind` enum maps to a name. That includes a number that is a kind, and through the enum's reverse mapping also a string naming a kind, such as `{kind: "Identifier"}`. The model treats none of these plain objects as nodes. Nodes are also never treated as definition objects, because their own fields are not inspected.
- Kind tests such as `isEnumDeclaration` are modelled by the node's constructor. A token or keyword-type value built with a declaration's kind is not a value the factory produces, and it is not treated as that declaration.
- A variable statement with no declarations makes `runtimeReference` throw a TypeError at src/runtime/utils.ts:39. The model excludes such a statement by precondition (`Referenceable`) instead of modelling the exception. No statement this library builds has zero declarations.
- Objects are insertion-ordered lists of entries. JavaScript's `Object.entries` puts integer-like keys first, and that reordering is not modelled. Arrays given as runtime definitions become objects keyed by index. An `Obj` may repeat a key, which no JavaScript object can; the model then gives each duplicate its own member or assignment.
- Type names and identifiers are strings. Qualified names are not modelled, and an identifier's escaped text is taken to be its text.
- The variable declaration's exclamation token is always absent in the source, so the model has no field for it.
- src/types/index.ts is an older duplicate of src/type/ and is not part of this model.
- The demo (src/example.ts), its generated output and the tool configuration are not modelled.
