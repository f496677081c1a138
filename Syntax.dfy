/** The part of the C# syntax tree the generator looks at. The host compiler parses
    the sources; the model receives the declarations ready-made. */
module Syntax {
  import opened Wrappers

  /** An ancestor of a class declaration, nearest first, as `Ancestors()` lists them.
      `BlockNamespace` is `namespace N { ... }` (its name may be missing);
      `FileScopedNamespace` is `namespace N;`, which the generator recognises by the
      runtime type name of the node; every other kind of node is `OtherNode`. */
  datatype Ancestor =
    | BlockNamespace(name: Option<string>)
    | FileScopedNamespace(fileScopedName: string)
    | OtherNode

  /** A field declaration: the identifiers it declares (`int _a, _b;` declares two),
      the text of its type, and the names of its attributes, every attribute list
      flattened in source order. */
  datatype Field = Field(declaratorNames: seq<string>, typeText: string, attributeNames: seq<string>)

  /** A member of a class body: a field, or anything else (methods, properties, ...). */
  datatype Member = FieldMember(field: Field) | OtherMember

  /** A class declaration: its identifier, its ancestors (nearest first) and its
      members in declaration order. */
  datatype ClassDecl = ClassDecl(name: string, ancestors: seq<Ancestor>, members: seq<Member>)

  /** A syntax node handed to the syntax receiver. */
  datatype SyntaxNode = ClassNode(decl: ClassDecl) | OtherSyntaxNode

  /** The class declarations among `nodes`, in visit order. */
  function ClassesIn(nodes: seq<SyntaxNode>): seq<ClassDecl> {
    if nodes == [] then []
    else
      var last := nodes[|nodes| - 1];
      ClassesIn(nodes[..|nodes| - 1]) + (if last.ClassNode? then [last.decl] else [])
  }
}
