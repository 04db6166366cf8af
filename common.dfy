/** `comment`: a documentation comment attached to a converted definition (src/common.ts). */
module Common {

  import opened Wrappers
  import opened Ast
  import opened Utils
  import opened RuntimeUtils
  import opened TypeCore
  import Statements

  /** The comment argument: one line, or an array of lines. */
  datatype CommentValue = Line(text: string) | Lines(lines: seq<string>)

  /** `Array.prototype.join`. */
  function Join(parts: seq<string>, separator: string): string {
    if |parts| == 0 then ""
    else if |parts| == 1 then parts[0]
    else parts[0] + separator + Join(parts[1..], separator)
  }

  /** The comment's text between its delimiters: `* text ` or `*\n * line\n * line\n `. */
  function CommentText(value: CommentValue): (s: string)
    ensures |s| >= 2 && s[0] == '*' && s[|s| - 1] == ' '
    ensures value.Line? ==> s == "* " + value.text + " "
    ensures value.Lines? ==> s == "*\n * " + Join(value.lines, "\n * ") + "\n "
  {
    match value
    case Line(text) => "* " + text + " "
    case Lines(lines) => "*\n * " + Join(lines, "\n * ") + "\n "
  }

  /** The synthetic multi-line comment `comment` adds, followed by a newline. */
  function DocComment(value: CommentValue): SynthesizedComment {
    SynthesizedComment(MultiLineCommentTrivia, CommentText(value), true)
  }

  /**
   * `comment`: the definition converted as a type when it is one and as a runtime
   * node otherwise, with the comment appended after any comments it already has.
   */
  function Comment(d: Value, value: CommentValue): (r: Node)
    requires TypeDefinition(d) || RuntimeDefinitionType(d)
    ensures TypeDefinition(d) ==>
              r.syntax == ToTypeNode(d).syntax && r.comments == ToTypeNode(d).comments + [DocComment(value)]
    ensures !TypeDefinition(d) ==>
              r.syntax == ToRuntimeNode(d, true).syntax && r.comments == ToRuntimeNode(d, true).comments + [DocComment(value)]
    ensures |r.comments| > 0 && r.comments[|r.comments| - 1] == DocComment(value)
  {
    var node := if TypeDefinition(d) then ToTypeNode(d) else ToRuntimeNode(d, true);
    node.(comments := node.comments + [DocComment(value)])
  }

  /** Splitting a text at its line breaks. */
  function SplitLines(s: string): (r: seq<string>)
    ensures |r| > 0
  {
    if |s| == 0 then [""]
    else
      var rest := SplitLines(s[1..]);
      if s[0] == '\n' then [""] + rest else [[s[0]] + rest[0]] + rest[1..]
  }

  predicate NoLineBreak(s: string) {
    forall k :: 0 <= k < |s| ==> s[k] != '\n'
  }

  lemma {:induction false} SplitAfterLine(a: string, b: string)
    requires NoLineBreak(a)
    ensures SplitLines(a + b) == [a + SplitLines(b)[0]] + SplitLines(b)[1..]
    decreases |a|
  {
    if |a| > 0 {
      assert (a + b)[1..] == a[1..] + b;
      SplitAfterLine(a[1..], b);
      assert [a[0]] + (a[1..] + SplitLines(b)[0]) == a + SplitLines(b)[0];
    } else {
      var r := SplitLines(b);
      assert a + b == b && a + r[0] == r[0];
      assert r == [r[0]] + r[1..];
    }
  }

  lemma SplitBreak(a: string, b: string)
    requires NoLineBreak(a)
    ensures SplitLines(a + "\n" + b) == [a] + SplitLines(b)
  {
    var nb := "\n" + b;
    assert a + "\n" + b == a + nb;
    assert nb[0] == '\n' && nb[1..] == b;
    assert SplitLines(nb) == [""] + SplitLines(b);
    SplitAfterLine(a, nb);
    assert a + "" == a;
  }

  lemma {:induction false} SplitJoinedLines(lines: seq<string>, tail: string)
    requires |lines| > 0
    requires forall k :: 0 <= k < |lines| ==> NoLineBreak(lines[k])
    ensures SplitLines(" * " + Join(lines, "\n * ") + "\n" + tail) ==
              seq(|lines|, k requires 0 <= k < |lines| => " * " + lines[k]) + SplitLines(tail)
    decreases |lines|
  {
    var first := " * " + lines[0];
    assert NoLineBreak(first);
    if |lines| == 1 {
      SplitBreak(first, tail);
    } else {
      var rest := " * " + Join(lines[1..], "\n * ") + "\n" + tail;
      assert " * " + Join(lines, "\n * ") + "\n" + tail == first + "\n" + rest;
      SplitBreak(first, rest);
      SplitJoinedLines(lines[1..], tail);
    }
  }

  /** A one-line comment without line breaks prints on one line. */
  lemma LineCommentIsOneLine(text: string)
    requires NoLineBreak(text)
    ensures SplitLines(CommentText(Line(text))) == ["* " + text + " "]
  {
    var s := "* " + text + " ";
    assert NoLineBreak(s);
    SplitAfterLine(s, "");
    assert s + "" == s;
  }

  /**
   * A comment of lines puts the opening `*` on a line of its own, each given line
   * on its own line after ` * `, and the closing on a last line. An empty array
   * still gives one blank ` * ` line.
   */
  lemma LinesCommentLayout(lines: seq<string>)
    requires forall k :: 0 <= k < |lines| ==> NoLineBreak(lines[k])
    ensures SplitLines(CommentText(Lines(lines))) ==
              ["*"] +
              (if |lines| == 0 then [" * "] else seq(|lines|, k requires 0 <= k < |lines| => " * " + lines[k])) +
              [" "]
  {
    if |lines| == 0 {
      assert CommentText(Lines(lines)) == "*" + "\n" + (" * " + "\n" + " ");
      SplitBreak("*", " * " + "\n" + " ");
      SplitBreak(" * ", " ");
      LineCommentSplit(" ");
      return;
    }
    var body := " * " + Join(lines, "\n * ") + "\n" + " ";
    assert CommentText(Lines(lines)) == "*" + "\n" + body;
    SplitBreak("*", body);
    SplitJoinedLines(lines, " ");
    LineCommentSplit(" ");
  }

  lemma LineCommentSplit(s: string)
    requires NoLineBreak(s)
    ensures SplitLines(s) == [s]
  {
    SplitAfterLine(s, "");
    assert s + "" == s;
  }

  /**
   * A commented type definition used as a property: the comment moves from the
   * type onto the property signature, after the comments the type already had.
   */
  lemma CommentMovesToProperty(name: string, d: Value, value: CommentValue)
    requires TypeDefinition(d)
    ensures TypeDefinition(NodeV(Comment(d, value)))
    ensures var p := TypeProperty(name, NodeV(Comment(d, value)));
            && p.comments == ToTypeNode(d).comments + [DocComment(value)]
            && p.syntax.propertyType.syntax == ToTypeNode(d).syntax
            && p.syntax.propertyType.comments == []
  {
    var c := Comment(d, value);
    CommentOnTypeNode(ToTypeNode(d), c);
    PropertyOfTypeNode(name, c);
  }

  lemma CommentOnTypeNode(n: Node, c: Node)
    requires IsTypeNode(n) && c.syntax == n.syntax
    ensures IsTypeNode(c) && TypeDefinition(NodeV(c))
  {
    assert KindOf(c) == KindOf(n);
  }

  lemma PropertyOfTypeNode(name: string, c: Node)
    requires IsTypeNode(c)
    ensures TypeDefinition(NodeV(c))
    ensures var p := TypeProperty(name, NodeV(c));
            && p.comments == c.comments
            && p.syntax.propertyType.syntax == c.syntax
            && p.syntax.propertyType.comments == []
  {
    assert ToTypeNode(NodeV(c)) == c;
  }

  /**
   * A variable statement is not a type definition, so commenting it yields an
   * identifier naming its variable.
   */
  lemma CommentedStatementIsIdentifier(name: string, d: Value, value: CommentValue)
    requires RuntimeDefinitionType(d)
    ensures var s := Statements.VarStatement(name, d, Statements.NoOptions);
            && !TypeDefinition(NodeV(s)) && RuntimeDefinitionType(NodeV(s))
            && Comment(NodeV(s), value) == CreateIdentifier(name).(comments := [DocComment(value)])
  {
    var s := Statements.VarStatement(name, d, Statements.NoOptions);
    assert KindOf(s) == VariableStatement;
    assert !IsTypeReferenceLike(NodeV(s));
    assert ToRuntimeNode(NodeV(s), true) == CreateIdentifier(name);
  }

  /**
   * A commented identifier used as an object property: the comment moves onto
   * the property assignment and the identifier is left without it.
   */
  lemma CommentMovesToAssignment(name: string, value: CommentValue, key: string)
    ensures var c := CreateIdentifier(name).(comments := [DocComment(value)]);
            && RuntimeDefinitionObjectType(Obj([(key, NodeV(c))]))
            && RuntimeLiteral(Obj([(key, NodeV(c))])).syntax.properties ==
                 [Make(PropertyAssignmentNode(PrimitiveLiteral(Str(key)), CreateIdentifier(name))).(comments := [DocComment(value)])]
  {
    var c := CreateIdentifier(name).(comments := [DocComment(value)]);
    assert !IsReferenceLike(NodeV(c)) && RuntimeDefinitionType(NodeV(c));
    assert RuntimeDefinitionObjectType(Obj([(key, NodeV(c))]));
    var p := RuntimeProperty(key, NodeV(c));
    assert p == Make(PropertyAssignmentNode(PrimitiveLiteral(Str(key)), CreateIdentifier(name))).(comments := [DocComment(value)]);
  }
}
