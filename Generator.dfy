/** The source generator: it collects the class declarations of a compilation, picks
    the fields marked `[SimpleStyledProperty]` or `[SimpleAttachedProperty]`, and
    emits for every class that has one a partial class declaring an Avalonia property
    descriptor and a CLR property per marked field. */
module Generator {
  import opened Wrappers
  import opened Text
  import opened Syntax

  const StyledAttributeName: string := "SimpleStyledProperty"
  const AttachedAttributeName: string := "SimpleAttachedProperty"

  /** Suffix of the hint name under which a class's generated source is added. */
  const SourceHintSuffix: string := ".AvaloniaEasyProperties.cs"

  /** The exceptions that escape the generator. */
  datatype GenError =
    | NoDeclarator                        // `Variables.First()` on a declaration without declarators
    | FieldNameWithoutUnderscore(fieldName: string)  // "Field name must start with _"
    | IndexOutOfRange(fieldName: string)  // `modFieldName[0]` on the empty rest of the field name `_`
    | UnknownAttribute(attributeName: string)  // the default branch of the dispatch

  /** What `context.AddSource` receives: a hint name and the source text. */
  datatype GeneratedSource = GeneratedSource(hintName: string, text: string)

  /** What one iteration of the per-field loop contributes: nothing (the `continue`),
      or a code fragment and a line of the warning-killer method. */
  datatype FieldOutcome = Skipped | Emitted(code: string, killerLine: string)

  // ---------------------------------------------------------------------------
  // Attribute classification

  /** Both overloads of `IsExtensionAttribute`: an attribute is recognised by its
      simple name as written, nothing else. */
  function IsExtensionAttribute(name: string): (r: bool)
    ensures r <==> name == "SimpleStyledProperty" || name == "SimpleAttachedProperty"
  {
    if name == StyledAttributeName then true
    else if name == AttachedAttributeName then true
    else false
  }

  /** `AttributeLists.Any(al => al.Attributes.Any(IsExtensionAttribute))`. */
  function AnyExtensionAttribute(names: seq<string>): (r: bool)
    ensures r <==> exists i | 0 <= i < |names| :: IsExtensionAttribute(names[i])
  {
    if names == [] then false
    else IsExtensionAttribute(names[0]) || AnyExtensionAttribute(names[1..])
  }

  predicate IsExtensionField(f: Field) {
    AnyExtensionAttribute(f.attributeNames)
  }

  /** `Members.OfType<FieldDeclarationSyntax>().Where(...)`: the fields that carry a
      recognised attribute, in declaration order. */
  function ExtensionFields(members: seq<Member>): (r: seq<Field>)
    ensures |r| <= |members|
    ensures forall i | 0 <= i < |r| :: IsExtensionField(r[i])
  {
    if members == [] then []
    else
      var head := if members[0].FieldMember? && IsExtensionField(members[0].field) then [members[0].field] else [];
      head + ExtensionFields(members[1..])
  }

  /** `HasExtensionFields`: some field member carries a recognised attribute. */
  function HasExtensionFields(c: ClassDecl): (r: bool)
    ensures r <==> exists i | 0 <= i < |c.members| :: c.members[i].FieldMember? && IsExtensionField(c.members[i].field)
  {
    AnyExtensionMember(c.members)
  }

  function AnyExtensionMember(members: seq<Member>): (r: bool)
    ensures r <==> exists i | 0 <= i < |members| :: members[i].FieldMember? && IsExtensionField(members[i].field)
  {
    if members == [] then false
    else (members[0].FieldMember? && IsExtensionField(members[0].field)) || AnyExtensionMember(members[1..])
  }

  /** `SelectMany(al => al.Attributes).FirstOrDefault(a => IsExtensionAttribute(...))`:
      the first recognised attribute name, if any. */
  function FirstExtensionAttribute(names: seq<string>): (r: Option<string>)
    ensures r.Some? <==> AnyExtensionAttribute(names)
    ensures r.Some? ==> IsExtensionAttribute(r.value)
    ensures r.Some? ==> exists i | 0 <= i < |names| ::
              names[i] == r.value && forall j | 0 <= j < i :: !IsExtensionAttribute(names[j])
  {
    if names == [] then None
    else if IsExtensionAttribute(names[0]) then Some(names[0])
    else
      var r := FirstExtensionAttribute(names[1..]);
      if r.Some? then
        var k :| 0 <= k < |names[1..]| && names[1..][k] == r.value
                 && forall j | 0 <= j < k :: !IsExtensionAttribute(names[1..][j]);
        assert names[k + 1] == r.value;
        assert forall j | 0 <= j < k + 1 :: !IsExtensionAttribute(names[j]) by {
          forall j | 0 <= j < k + 1 ensures !IsExtensionAttribute(names[j]) {
            if j > 0 { assert names[j] == names[1..][j - 1]; }
          }
        }
        r
      else r
  }

  // ---------------------------------------------------------------------------
  // Namespace lookup

  predicate IsBlockNamespace(a: Ancestor) { a.BlockNamespace? }

  predicate IsFileScopedNamespace(a: Ancestor) { a.FileScopedNamespace? }

  /** `i` is the nearest ancestor satisfying `p`. */
  predicate IsNearest(ancestors: seq<Ancestor>, i: int, p: Ancestor -> bool) {
    && 0 <= i < |ancestors|
    && p(ancestors[i])
    && forall j | 0 <= j < i :: !p(ancestors[j])
  }

  /** `Ancestors().Where(p).FirstOrDefault()`, as an index into the ancestors. */
  function Nearest(ancestors: seq<Ancestor>, p: Ancestor -> bool): (r: Option<nat>)
    ensures r.Some? ==> IsNearest(ancestors, r.value, p)
    ensures r.None? ==> forall j | 0 <= j < |ancestors| :: !p(ancestors[j])
  {
    if ancestors == [] then None
    else if p(ancestors[0]) then Some(0)
    else
      match Nearest(ancestors[1..], p)
      case None => None
      case Some(k) =>
        assert forall j | 0 < j <= k :: ancestors[j] == ancestors[1..][j - 1];
        Some(k + 1)
  }

  /** `GetNamespace`: the name of the nearest block namespace; when that namespace has
      no name, or there is none, the name of the nearest file-scoped namespace;
      otherwise null. */
  function GetNamespace(c: ClassDecl): (r: Option<string>)
    ensures forall i | IsNearest(c.ancestors, i, IsBlockNamespace) && c.ancestors[i].name.Some? ::
              r == c.ancestors[i].name
    ensures (forall i | IsNearest(c.ancestors, i, IsBlockNamespace) :: c.ancestors[i].name.None?) ==>
              && (forall k | IsNearest(c.ancestors, k, IsFileScopedNamespace) ::
                    r == Some(c.ancestors[k].fileScopedName))
              && ((forall k | 0 <= k < |c.ancestors| :: !c.ancestors[k].FileScopedNamespace?) ==> r == None)
  {
    var nsDecl := Nearest(c.ancestors, IsBlockNamespace);
    var namespaceName := if nsDecl.Some? then c.ancestors[nsDecl.value].name else None;
    if namespaceName.None? then
      var fileScopedNsDecl := Nearest(c.ancestors, IsFileScopedNamespace);
      if fileScopedNsDecl.Some? then Some(c.ancestors[fileScopedNsDecl.value].fileScopedName) else None
    else
      namespaceName
  }

  /** A null namespace interpolates as the empty string. */
  function NamespaceText(ns: Option<string>): string {
    if ns.Some? then ns.value else ""
  }

  // ---------------------------------------------------------------------------
  // Name derivation and the two property templates

  /** The property name of a field: the field name without its first character, the
      new first character upper-cased. `fieldName.Substring(1)` needs a non-empty name;
      indexing the rest faults when the name is the single character `_`. */
  function DerivePropertyName(fieldName: string): (r: Result<string, GenError>)
    requires |fieldName| >= 1
    ensures r.Success? <==> |fieldName| >= 2
    ensures r.Failure? ==> r.error == IndexOutOfRange(fieldName)
    ensures r.Success? ==> |r.value| == |fieldName| - 1
    ensures r.Success? ==> r.value[0] == ToUpper(fieldName[1]) && r.value[1..] == fieldName[2..]
  {
    var modFieldName := fieldName[1..];
    if modFieldName == [] then Failure(IndexOutOfRange(fieldName))
    else Success([ToUpper(modFieldName[0])] + modFieldName[1..])
  }

  /** The accessor part of both fragments: an empty line, then the CLR property
      `public {type} {N}` whose getter and setter go through `{N}Property`. */
  function AccessorLines(propertyName: string, typeText: string): seq<string> {
    [
      "",
      "public " + typeText + " " + propertyName,
      "{",
      "\tget => GetValue (" + propertyName + "Property);",
      "\tset => SetValue (" + propertyName + "Property, value);",
      "}",
      ""]
  }

  /** The fragment of a styled property: the descriptor registered on the class, then a
      CLR property whose accessors go through it. */
  function StyledPropertyTemplate(className: string, propertyName: string, typeText: string): string {
    JoinLines(StyledPropertyLines(className, propertyName, typeText))
  }

  function StyledPropertyLines(className: string, propertyName: string, typeText: string): seq<string> {
    ["", StyledDescriptor(className, propertyName, typeText)] + AccessorLines(propertyName, typeText)
  }

  function StyledDescriptor(className: string, propertyName: string, typeText: string): string {
    "public static readonly StyledProperty<" + typeText + "> " + propertyName
      + "Property = AvaloniaProperty.Register<" + className + ", " + typeText
      + "> (nameof (" + propertyName + "));"
  }

  /** The fragment of an attached property: as the styled one, with the descriptor
      registered as attached to `TemplatedControl`. */
  function AttachedPropertyTemplate(className: string, propertyName: string, typeText: string): string {
    JoinLines(AttachedPropertyLines(className, propertyName, typeText))
  }

  function AttachedPropertyLines(className: string, propertyName: string, typeText: string): seq<string> {
    ["", AttachedDescriptor(className, propertyName, typeText)] + AccessorLines(propertyName, typeText)
  }

  function AttachedDescriptor(className: string, propertyName: string, typeText: string): string {
    "public static readonly AttachedProperty<" + typeText + "> " + propertyName
      + "Property = AvaloniaProperty.RegisterAttached<" + className + ", TemplatedControl, " + typeText
      + "> (nameof (" + propertyName + "));"
  }

  /** `GenerateCodeForSimpleStyledProperty`. */
  function StyledPropertyCode(className: string, fieldName: string, typeText: string): (r: Result<string, GenError>)
    requires |fieldName| >= 1
    ensures r.Success? <==> |fieldName| >= 2
    ensures r.Failure? ==> r.error == IndexOutOfRange(fieldName)
  {
    match DerivePropertyName(fieldName)
    case Failure(e) => Failure(e)
    case Success(name) => Success(StyledPropertyTemplate(className, name, typeText))
  }

  /** `GenerateCodeForSimpleAttachedProperty`. */
  function AttachedPropertyCode(className: string, fieldName: string, typeText: string): (r: Result<string, GenError>)
    requires |fieldName| >= 1
    ensures r.Success? <==> |fieldName| >= 2
    ensures r.Failure? ==> r.error == IndexOutOfRange(fieldName)
  {
    match DerivePropertyName(fieldName)
    case Failure(e) => Failure(e)
    case Success(name) => Success(AttachedPropertyTemplate(className, name, typeText))
  }

  /** The self-assignment that silences the "assigned but never used" warning. */
  function KillerLine(fieldName: string): string {
    fieldName + "=" + fieldName + ";\n"
  }

  // ---------------------------------------------------------------------------
  // The per-class code, as functions specifying the loop of GeneratePartialClassCode

  /** One iteration of the `foreach` over the selected fields. */
  function FieldStep(className: string, field: Field): Result<FieldOutcome, GenError> {
    if field.declaratorNames == [] then Failure(NoDeclarator)
    else
      var fieldName := field.declaratorNames[0];
      if !StartsWith(fieldName, "_") then Failure(FieldNameWithoutUnderscore(fieldName))
      else
        match FirstExtensionAttribute(field.attributeNames)
        case None => Success(Skipped)
        case Some(attribute) =>
          var code :=
            if attribute == StyledAttributeName then StyledPropertyCode(className, fieldName, field.typeText)
            else if attribute == AttachedAttributeName then AttachedPropertyCode(className, fieldName, field.typeText)
            else Failure(UnknownAttribute(attribute));
          match code
          case Failure(e) => Failure(e)
          case Success(text) => Success(Emitted(text, KillerLine(fieldName)))
  }

  /** `generatedCode` and `warningKiller` after the loop has run over `fields`, or
      the first exception it throws. */
  function Fragments(className: string, fields: seq<Field>): Result<(string, string), GenError> {
    if fields == [] then Success(("", ""))
    else
      match Fragments(className, fields[..|fields| - 1])
      case Failure(e) => Failure(e)
      case Success((generatedCode, warningKiller)) =>
        match FieldStep(className, fields[|fields| - 1])
        case Failure(e) => Failure(e)
        case Success(Skipped) => Success((generatedCode, warningKiller))
        case Success(Emitted(code, line)) => Success((generatedCode + code, warningKiller + line))
  }

  /** The wrapper template: usings, the namespace, the partial class holding the
      fragments, and the warning-killer method. */
  function PartialClassText(ns: Option<string>, className: string, generatedCode: string, warningKiller: string): string {
    JoinLines(PartialClassLines(ns, className, generatedCode, warningKiller))
  }

  function PartialClassLines(ns: Option<string>, className: string, generatedCode: string, warningKiller: string): seq<string> {
    [
      "",
      "using System;",
      "using Avalonia;",
      "using Avalonia.Media;\t\t\t\t// IBrush, ...",
      "using Avalonia.Media.Imaging;\t\t// Bitmap, ...",
      "using Avalonia.Controls.Primitives;\t// TemplatedControl",
      "using System.Windows.Input;\t\t\t// ICommand",
      "namespace " + NamespaceText(ns),
      "{",
      "\tpublic partial class " + className,
      "\t{",
      generatedCode,
      "\t\t",
      "// disable self-assignment warning",
      "#pragma warning disable CS1717",
      "void warningKiller ()",
      "{",
      "\t" + warningKiller,
      "}",
      "\t}",
      "}",
      ""]
  }

  /** What `GeneratePartialClassCode` returns or throws. */
  function PartialClassCode(c: ClassDecl): Result<string, GenError> {
    match Fragments(c.name, ExtensionFields(c.members))
    case Failure(e) => Failure(e)
    case Success((generatedCode, warningKiller)) =>
      Success(PartialClassText(GetNamespace(c), c.name, generatedCode, warningKiller))
  }

  function SourceHintName(className: string): string {
    className + SourceHintSuffix
  }

  /** What one iteration of `Execute`'s loop adds for class `c`: nothing when it has
      no extension field or its code is blank, else its source; or the exception. */
  function ClassStep(c: ClassDecl): Result<seq<GeneratedSource>, GenError> {
    if !HasExtensionFields(c) then Success([])
    else
      match PartialClassCode(c)
      case Failure(e) => Failure(e)
      case Success(code) =>
        if IsBlank(code) then Success([]) else Success([GeneratedSource(SourceHintName(c.name), code)])
  }

  /** What `Execute` adds to the compilation for `classes`, or the first exception
      that escapes it (the host then discards everything the generator added). */
  function GenerateAll(classes: seq<ClassDecl>): Result<seq<GeneratedSource>, GenError> {
    if classes == [] then Success([])
    else
      match GenerateAll(classes[..|classes| - 1])
      case Failure(e) => Failure(e)
      case Success(sources) =>
        match ClassStep(classes[|classes| - 1])
        case Failure(e) => Failure(e)
        case Success(added) => Success(sources + added)
  }

  lemma FragmentsSnoc(className: string, fields: seq<Field>, i: nat)
    requires i < |fields|
    ensures Fragments(className, fields[..i + 1]) ==
      match Fragments(className, fields[..i])
      case Failure(e) => Failure(e)
      case Success((generatedCode, warningKiller)) =>
        match FieldStep(className, fields[i])
        case Failure(e) => Failure(e)
        case Success(Skipped) => Success((generatedCode, warningKiller))
        case Success(Emitted(code, line)) => Success((generatedCode + code, warningKiller + line))
  {
    assert fields[..i + 1][..i] == fields[..i];
  }

  /** For a selected field whose name starts with `_`, the loop body dispatches on the
      first recognised attribute and never reaches the `Unknown attribute` default. */
  lemma FieldStepDispatch(className: string, field: Field)
    requires IsExtensionField(field)
    requires field.declaratorNames != [] && StartsWith(field.declaratorNames[0], "_")
    ensures
      var fieldName := field.declaratorNames[0];
      var attribute := FirstExtensionAttribute(field.attributeNames).value;
      var code :=
        if attribute == StyledAttributeName then StyledPropertyCode(className, fieldName, field.typeText)
        else AttachedPropertyCode(className, fieldName, field.typeText);
      FieldStep(className, field)
        == if code.Failure? then Failure(code.error) else Success(Emitted(code.value, KillerLine(fieldName)))
  {
  }

  /** A fault part-way through the loop is what `GeneratePartialClassCode` throws. */
  lemma PartialClassCodeFailsAt(c: ClassDecl, k: nat)
    requires k <= |ExtensionFields(c.members)|
    requires Fragments(c.name, ExtensionFields(c.members)[..k]).Failure?
    ensures PartialClassCode(c) == Failure(Fragments(c.name, ExtensionFields(c.members)[..k]).error)
  {
    FragmentsFailurePersists(c.name, ExtensionFields(c.members), k);
  }

  lemma {:induction false} FragmentsFailurePersists(className: string, fields: seq<Field>, k: nat)
    requires k <= |fields| && Fragments(className, fields[..k]).Failure?
    ensures Fragments(className, fields) == Fragments(className, fields[..k])
    decreases |fields|
  {
    if k < |fields| {
      var init := fields[..|fields| - 1];
      assert init[..k] == fields[..k];
      FragmentsFailurePersists(className, init, k);
    } else {
      assert fields[..k] == fields;
    }
  }

  lemma GenerateAllSnoc(classes: seq<ClassDecl>, i: nat)
    requires i < |classes|
    ensures GenerateAll(classes[..i + 1]) ==
      match GenerateAll(classes[..i])
      case Failure(e) => Failure(e)
      case Success(sources) =>
        match ClassStep(classes[i])
        case Failure(e) => Failure(e)
        case Success(added) => Success(sources + added)
  {
    assert classes[..i + 1][..i] == classes[..i];
  }

  /** One iteration of `Execute`'s loop for a class with an extension field, given
      what `GeneratePartialClassCode` returned for it. */
  lemma ClassStepOfCode(c: ClassDecl, code: Result<string, GenError>)
    requires HasExtensionFields(c) && code == PartialClassCode(c)
    ensures ClassStep(c) ==
      if code.Failure? then Failure(code.error)
      else if IsBlank(code.value) then Success([])
      else Success([GeneratedSource(SourceHintName(c.name), code.value)])
  {
  }

  lemma {:induction false} GenerateAllFailurePersists(classes: seq<ClassDecl>, k: nat)
    requires k <= |classes| && GenerateAll(classes[..k]).Failure?
    ensures GenerateAll(classes) == GenerateAll(classes[..k])
    decreases |classes|
  {
    if k < |classes| {
      var init := classes[..|classes| - 1];
      assert init[..k] == classes[..k];
      GenerateAllFailurePersists(init, k);
    } else {
      assert classes[..k] == classes;
    }
  }

  // ---------------------------------------------------------------------------
  // The imperative parts

  /** `GeneratePartialClassCode`: accumulates one fragment and one warning-killer line
      per selected field, in declaration order, then fills the wrapper template. */
  method GeneratePartialClassCode(c: ClassDecl) returns (r: Result<string, GenError>)
    ensures r == PartialClassCode(c)
  {
    var ns := GetNamespace(c);
    var className := c.name;
    var fields := ExtensionFields(c.members);
    var generatedCode := "";
    var warningKiller := "";
    var i := 0;
    assert fields[..i] == [];
    while i < |fields|
      invariant 0 <= i <= |fields|
      invariant Fragments(className, fields[..i]) == Success((generatedCode, warningKiller))
    {
      var field := fields[i];
      FragmentsSnoc(className, fields, i);
      if field.declaratorNames == [] {
        PartialClassCodeFailsAt(c, i + 1);
        return Failure(NoDeclarator);
      }
      var fieldName := field.declaratorNames[0];
      var typeText := field.typeText;
      if !StartsWith(fieldName, "_") {
        PartialClassCodeFailsAt(c, i + 1);
        return Failure(FieldNameWithoutUnderscore(fieldName));
      }
      var attribute := FirstExtensionAttribute(field.attributeNames);
      // every selected field carries a recognised attribute: the source's
      // `if (attribute == null) continue;` never runs
      assert attribute.Some?;
      var code: Result<string, GenError>;
      if attribute.value == StyledAttributeName {
        code := StyledPropertyCode(className, fieldName, typeText);
      } else {
        // nor does the `Unknown attribute` default of the dispatch
        assert attribute.value == AttachedAttributeName;
        code := AttachedPropertyCode(className, fieldName, typeText);
      }
      FieldStepDispatch(className, field);
      if code.Failure? {
        PartialClassCodeFailsAt(c, i + 1);
        return Failure(code.error);
      }
      assert Fragments(className, fields[..i + 1])
          == Success((generatedCode + code.value, warningKiller + KillerLine(fieldName)));
      generatedCode := generatedCode + code.value;
      warningKiller := warningKiller + KillerLine(fieldName);
      i := i + 1;
    }
    assert fields[..i] == fields;
    r := Success(PartialClassText(ns, className, generatedCode, warningKiller));
  }

  /** The syntax receiver: it keeps, in visit order, every class declaration the
      host compiler shows it. */
  class SyntaxReceiver {
    var classes: seq<ClassDecl>
    ghost var visited: seq<SyntaxNode>

    ghost predicate Valid()
      reads this
    {
      classes == ClassesIn(visited)
    }

    constructor ()
      ensures Valid() && visited == [] && classes == []
    {
      classes := [];
      visited := [];
    }

    /** `OnVisitSyntaxNode`: appends the node when it is a class declaration. */
    method OnVisitSyntaxNode(node: SyntaxNode)
      requires Valid()
      modifies this
      ensures Valid() && visited == old(visited) + [node]
      ensures classes == old(classes) + (if node.ClassNode? then [node.decl] else [])
    {
      if node.ClassNode? {
        classes := classes + [node.decl];
      }
      visited := visited + [node];
      assert visited[..|visited| - 1] == old(visited);
    }
  }

  /** `Execute`: for each collected class in order, skips it when it has no extension
      field, otherwise generates its code and adds it under `<class>.AvaloniaEasyProperties.cs`
      unless it is blank. An exception from a class ends the run. */
  method Execute(receiver: SyntaxReceiver?) returns (r: Result<seq<GeneratedSource>, GenError>)
    requires receiver != null ==> receiver.Valid()
    ensures receiver == null ==> r == Success([])
    ensures receiver != null ==> r == GenerateAll(ClassesIn(receiver.visited))
  {
    if receiver == null {
      return Success([]);
    }
    var classes := receiver.classes;
    var sources: seq<GeneratedSource> := [];
    var i := 0;
    while i < |classes|
      invariant 0 <= i <= |classes|
      invariant GenerateAll(classes[..i]) == Success(sources)
    {
      var classDeclaration := classes[i];
      GenerateAllSnoc(classes, i);
      if HasExtensionFields(classDeclaration) {
        var code := GeneratePartialClassCode(classDeclaration);
        ClassStepOfCode(classDeclaration, code);
        if code.Failure? {
          GenerateAllFailurePersists(classes, i + 1);
          return Failure(code.error);
        }
        if !IsBlank(code.value) {
          // context.AddSource
          sources := sources + [GeneratedSource(SourceHintName(classDeclaration.name), code.value)];
        } else {
          assert sources + [] == sources;
        }
      } else {
        assert sources + [] == sources;
      }
      i := i + 1;
    }
    assert classes[..i] == classes;
    r := Success(sources);
  }
}
