/** Tuples, unions and intersections (src/type/composites/). */
module Composites {

  import opened Wrappers
  import opened Ast
  import opened Utils
  import opened RuntimeUtils
  import opened TypeCore

  predicate AllTypeDefinitions(defs: seq<Value>) {
    forall k :: 0 <= k < |defs| ==> TypeDefinition(defs[k])
  }

  /** The argument of `tuple`: an array of definitions, or an object whose keys name the members. */
  datatype TupleDefinitions =
    | Positional(definitions: seq<Value>)
    | Named(entries: seq<(string, Value)>)

  predicate ValidTupleDefinitions(defs: TupleDefinitions) {
    match defs
    case Positional(ds) => AllTypeDefinitions(ds)
    case Named(es) => forall k :: 0 <= k < |es| ==> TypeDefinition(es[k].1)
  }

  /** `tuple`: positional elements, or named members without rest or question tokens. */
  function Tuple(defs: TupleDefinitions): (r: Node)
    requires ValidTupleDefinitions(defs)
    ensures r.syntax.TupleTypeNode? && IsTypeNode(r) && r.comments == []
    ensures defs.Positional? ==>
              && |r.syntax.elements| == |defs.definitions|
              && forall k :: 0 <= k < |defs.definitions| ==> r.syntax.elements[k] == ToTypeNode(defs.definitions[k])
    ensures defs.Named? ==>
              && |r.syntax.elements| == |defs.entries|
              && forall k :: 0 <= k < |defs.entries| ==>
                   r.syntax.elements[k].syntax ==
                     NamedTupleMemberNode(None, defs.entries[k].0, None, ToTypeNode(defs.entries[k].1))
  {
    match defs
    case Positional(ds) => Make(TupleTypeNode(TypeNodes(ds)))
    case Named(es) =>
      Make(TupleTypeNode(seq(|es|, k requires 0 <= k < |es| =>
        Make(NamedTupleMemberNode(None, es[k].0, None, ToTypeNode(es[k].1))))))
  }

  /** `union`: one member per definition, in order. */
  function Union(defs: seq<Value>): (r: Node)
    requires AllTypeDefinitions(defs)
    ensures r.syntax.UnionTypeNode? && IsTypeNode(r) && r.comments == []
    ensures |r.syntax.types| == |defs|
    ensures forall k :: 0 <= k < |defs| ==> r.syntax.types[k] == ToTypeNode(defs[k])
  {
    Make(UnionTypeNode(TypeNodes(defs)))
  }

  /** `intersection`: one member per definition, in order. */
  function Intersection(defs: seq<Value>): (r: Node)
    requires AllTypeDefinitions(defs)
    ensures r.syntax.IntersectionTypeNode? && IsTypeNode(r) && r.comments == []
    ensures |r.syntax.types| == |defs|
    ensures forall k :: 0 <= k < |defs| ==> r.syntax.types[k] == ToTypeNode(defs[k])
  {
    Make(IntersectionTypeNode(TypeNodes(defs)))
  }

  function Strings(names: seq<string>): (r: seq<Value>)
    ensures |r| == |names| && AllTypeDefinitions(r)
    ensures forall k :: 0 <= k < |names| ==> r[k] == Str(names[k])
  {
    seq(|names|, k requires 0 <= k < |names| => Str(names[k]))
  }

  /** `union(["small", "medium", "large"])`: a union of string literal types. */
  lemma UnionOfStrings(names: seq<string>)
    ensures var u := Union(Strings(names));
            |u.syntax.types| == |names| &&
            forall k :: 0 <= k < |names| ==>
              u.syntax.types[k].syntax == LiteralTypeNode(Make(StringLiteralNode(names[k])))
  {
  }

  /** A property typed by an intersection is never optional: only unions are inspected. */
  lemma IntersectionPropertyIsRequired(name: string, defs: seq<Value>)
    requires AllTypeDefinitions(defs)
    ensures TypeDefinition(NodeV(Intersection(defs)))
    ensures TypeProperty(name, NodeV(Intersection(defs))).syntax.questionToken == None
  {
  }
}
