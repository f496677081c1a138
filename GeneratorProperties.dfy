/** What the generator promises, stated over the functions that specify it. */
module GeneratorProperties {
  import opened Wrappers
  import opened Text
  import opened Syntax
  import opened Generator

  // ---------------------------------------------------------------------------
  // Classification

  /** Matching is on the name as written: neither the namespace-qualified name nor the
      name with the `Attribute` suffix is recognised. */
  lemma ExtensionAttributeNameAsWritten(name: string)
    ensures StartsWith(name, "AvaloniaEasyProperties.") ==> !IsExtensionAttribute(name)
    ensures EndsWith(name, "Attribute") ==> !IsExtensionAttribute(name)
  {
    if IsExtensionAttribute(name) {
      assert name[0] == 'S' && name[|name| - 1] == 'y';
    }
  }

  /** The selected fields are exactly the field members carrying a recognised
      attribute. */
  lemma {:induction false} ExtensionFieldsSelectExactly(members: seq<Member>)
    ensures forall i | 0 <= i < |members| && members[i].FieldMember? && IsExtensionField(members[i].field) ::
              members[i].field in ExtensionFields(members)
    ensures forall f | f in ExtensionFields(members) :: FieldMember(f) in members && IsExtensionField(f)
  {
    if members != [] {
      ExtensionFieldsSelectExactly(members[1..]);
      forall i | 0 < i < |members| ensures members[i] == members[1..][i - 1] { }
    }
  }

  /** Selection keeps declaration order: selecting from two runs of members one after
      the other gives the two selections one after the other. */
  lemma {:induction false} ExtensionFieldsKeepOrder(a: seq<Member>, b: seq<Member>)
    ensures ExtensionFields(a + b) == ExtensionFields(a) + ExtensionFields(b)
  {
    if a == [] {
      assert a + b == b;
    } else {
      assert (a + b)[1..] == a[1..] + b;
      ExtensionFieldsKeepOrder(a[1..], b);
    }
  }

  /** `HasExtensionFields` and the `Where` filter of `GeneratePartialClassCode` agree:
      a class passes the first exactly when the second selects some field. */
  lemma {:induction false} HasExtensionFieldsIffSelection(c: ClassDecl)
    ensures HasExtensionFields(c) <==> ExtensionFields(c.members) != []
  {
    ExtensionFieldsSelectExactly(c.members);
    if ExtensionFields(c.members) != [] {
      var f := ExtensionFields(c.members)[0];
      assert f in ExtensionFields(c.members);
    }
  }

  // ---------------------------------------------------------------------------
  // Name derivation

  /** The field name a property name is derived from, by the convention `_direction`
      for `Direction`. */
  function FieldNameFor(propertyName: string): string
    requires propertyName != []
  {
    "_" + [ToLower(propertyName[0])] + propertyName[1..]
  }

  /** Deriving the property name of the conventional field name gives the property
      name back. */
  lemma DerivePropertyNameOfFieldNameFor(propertyName: string)
    requires propertyName != [] && IsAsciiUpper(propertyName[0])
    ensures DerivePropertyName(FieldNameFor(propertyName)) == Success(propertyName)
  {
    var fieldName := FieldNameFor(propertyName);
    assert fieldName[1] == ToLower(propertyName[0]) && fieldName[2..] == propertyName[1..];
    assert propertyName == [propertyName[0]] + propertyName[1..];
  }

  /** A field named by the convention (an underscore, then a lower-case ASCII letter)
      is the conventional field name of its derived property name. */
  lemma FieldNameForOfDerivePropertyName(fieldName: string)
    requires |fieldName| >= 2 && fieldName[0] == '_' && IsAsciiLower(fieldName[1])
    ensures DerivePropertyName(fieldName).Success?
    ensures FieldNameFor(DerivePropertyName(fieldName).value) == fieldName
  {
    var p := DerivePropertyName(fieldName).value;
    assert p[1..] == fieldName[2..];
    assert fieldName == [fieldName[0]] + [fieldName[1]] + fieldName[2..];
  }

  /** Two field names derive the same property name exactly when they agree after the
      second character and their second characters upper-case alike; the first
      character is never looked at. So `_direction` and `_Direction` collide. */
  lemma DerivedNamesCollide(a: string, b: string)
    requires |a| >= 2 && |b| >= 2
    ensures DerivePropertyName(a) == DerivePropertyName(b) <==> ToUpper(a[1]) == ToUpper(b[1]) && a[2..] == b[2..]
  {
    var ra, rb := DerivePropertyName(a).value, DerivePropertyName(b).value;
    if ToUpper(a[1]) == ToUpper(b[1]) && a[2..] == b[2..] {
      assert ra == [ra[0]] + ra[1..] && rb == [rb[0]] + rb[1..];
    }
  }

  lemma DerivedNameExamples()
    ensures DerivePropertyName("_direction") == Success("Direction")
    ensures DerivePropertyName("_customBackground") == Success("CustomBackground")
    ensures DerivePropertyName("_Direction") == DerivePropertyName("_direction")
    ensures DerivePropertyName("_") == Failure(IndexOutOfRange("_"))
  {
    DerivePropertyNameOfFieldNameFor("Direction");
    DerivePropertyNameOfFieldNameFor("CustomBackground");
  }

  // ---------------------------------------------------------------------------
  // The two property templates

  /** Each fragment is a line feed, its descriptor line, a line feed and the accessor
      part: the styled and the attached fragment differ in the descriptor alone. */
  lemma PropertyTemplatesShape(className: string, propertyName: string, typeText: string)
    ensures StyledPropertyTemplate(className, propertyName, typeText)
            == "\n" + StyledDescriptor(className, propertyName, typeText) + "\n" + JoinLines(AccessorLines(propertyName, typeText))
    ensures AttachedPropertyTemplate(className, propertyName, typeText)
            == "\n" + AttachedDescriptor(className, propertyName, typeText) + "\n" + JoinLines(AccessorLines(propertyName, typeText))
  {
    var styled := StyledPropertyLines(className, propertyName, typeText);
    var attached := AttachedPropertyLines(className, propertyName, typeText);
    JoinLinesTwoHeads(styled);
    JoinLinesTwoHeads(attached);
    assert styled[2..] == AccessorLines(propertyName, typeText) == attached[2..];
    assert "" + "\n" == "\n";
  }

  // ---------------------------------------------------------------------------
  // One field

  /** The declaration meets the generator's naming rule: it declares a first
      identifier, that identifier starts with `_`, and something follows the `_`. */
  predicate WellNamed(f: Field) {
    f.declaratorNames != [] && StartsWith(f.declaratorNames[0], "_") && |f.declaratorNames[0]| >= 2
  }

  /** The fragment a selected, well-named field contributes: the template of its first
      recognised attribute, filled with the derived property name. */
  function FieldCode(className: string, f: Field): string
    requires IsExtensionField(f) && WellNamed(f)
  {
    var propertyName := DerivePropertyName(f.declaratorNames[0]).value;
    if FirstExtensionAttribute(f.attributeNames).value == StyledAttributeName
    then StyledPropertyTemplate(className, propertyName, f.typeText)
    else AttachedPropertyTemplate(className, propertyName, f.typeText)
  }

  /** For a selected field the loop body never skips it and never reaches the
      `Unknown attribute` branch: it faults exactly when the naming rule is broken, with
      the fault of the first rule broken, and otherwise emits the fragment of its first
      recognised attribute and a self-assignment of the field. */
  lemma SelectedFieldStep(className: string, f: Field)
    requires IsExtensionField(f)
    ensures FieldStep(className, f).Success? <==> WellNamed(f)
    ensures WellNamed(f) ==>
              FieldStep(className, f) == Success(Emitted(FieldCode(className, f), KillerLine(f.declaratorNames[0])))
    ensures f.declaratorNames == [] ==> FieldStep(className, f) == Failure(NoDeclarator)
    ensures f.declaratorNames != [] && !StartsWith(f.declaratorNames[0], "_") ==>
              FieldStep(className, f) == Failure(FieldNameWithoutUnderscore(f.declaratorNames[0]))
    ensures f.declaratorNames != [] && f.declaratorNames[0] == "_" ==>
              FieldStep(className, f) == Failure(IndexOutOfRange("_"))
  {
    if f.declaratorNames != [] && StartsWith(f.declaratorNames[0], "_") {
      FieldStepDispatch(className, f);
    }
  }

  /** Only the first declarator counts: `[SimpleStyledProperty] int _a, _b;` generates
      for `_a` alone. */
  lemma FirstDeclaratorOnly(className: string, f: Field)
    requires f.declaratorNames != []
    ensures FieldStep(className, f) == FieldStep(className, f.(declaratorNames := f.declaratorNames[..1]))
  {
  }

  // ---------------------------------------------------------------------------
  // One class

  /** The loop over selected fields completes exactly when every one of them is well
      named. */
  lemma {:induction false} FragmentsSucceedIff(className: string, fields: seq<Field>)
    requires forall i | 0 <= i < |fields| :: IsExtensionField(fields[i])
    ensures Fragments(className, fields).Success? <==> forall i | 0 <= i < |fields| :: WellNamed(fields[i])
  {
    if fields != [] {
      var init := fields[..|fields| - 1];
      FragmentsSucceedIff(className, init);
      SelectedFieldStep(className, fields[|fields| - 1]);
      assert forall i | 0 <= i < |init| :: fields[i] == init[i];
    }
  }

  /** The fragments of `fields`, one per field, in order. */
  function FieldCodes(className: string, fields: seq<Field>): (r: seq<string>)
    requires forall i | 0 <= i < |fields| :: IsExtensionField(fields[i]) && WellNamed(fields[i])
  {
    seq(|fields|, i requires 0 <= i < |fields| && IsExtensionField(fields[i]) && WellNamed(fields[i]) =>
      FieldCode(className, fields[i]))
  }

  /** The self-assignments of `fields`, one per field, in order. */
  function KillerLines(fields: seq<Field>): (r: seq<string>)
    requires forall i | 0 <= i < |fields| :: WellNamed(fields[i])
  {
    seq(|fields|, i requires 0 <= i < |fields| && WellNamed(fields[i]) => KillerLine(fields[i].declaratorNames[0]))
  }

  /** `generatedCode` is one fragment per selected field and `warningKiller` one
      self-assignment per selected field, both in declaration order. */
  lemma {:induction false} FragmentsInDeclarationOrder(className: string, fields: seq<Field>)
    requires forall i | 0 <= i < |fields| :: IsExtensionField(fields[i]) && WellNamed(fields[i])
    ensures Fragments(className, fields) == Success((Concat(FieldCodes(className, fields)), Concat(KillerLines(fields))))
  {
    if fields != [] {
      var n := |fields|;
      var init := fields[..n - 1];
      FragmentsInDeclarationOrder(className, init);
      SelectedFieldStep(className, fields[n - 1]);
      FieldCodesInit(className, fields);
      KillerLinesInit(fields);
    }
  }

  lemma FieldCodesInit(className: string, fields: seq<Field>)
    requires fields != []
    requires forall i | 0 <= i < |fields| :: IsExtensionField(fields[i]) && WellNamed(fields[i])
    ensures FieldCodes(className, fields)[..|fields| - 1] == FieldCodes(className, fields[..|fields| - 1])
  {
  }

  lemma KillerLinesInit(fields: seq<Field>)
    requires fields != []
    requires forall i | 0 <= i < |fields| :: WellNamed(fields[i])
    ensures KillerLines(fields)[..|fields| - 1] == KillerLines(fields[..|fields| - 1])
  {
  }

  /** The warning-killer body has exactly one line per selected field. */
  lemma WarningKillerLinePerField(className: string, fields: seq<Field>)
    requires forall i | 0 <= i < |fields| ::
               IsExtensionField(fields[i]) && WellNamed(fields[i]) && NoNewline(fields[i].declaratorNames[0])
    ensures Fragments(className, fields).Success?
    ensures CountChar('\n', Fragments(className, fields).value.1) == |fields|
  {
    FragmentsInDeclarationOrder(className, fields);
    KillerLinesCount(fields);
  }

  /** The self-assignments hold one line feed each. */
  lemma {:induction false} KillerLinesCount(fields: seq<Field>)
    requires forall i | 0 <= i < |fields| :: WellNamed(fields[i]) && NoNewline(fields[i].declaratorNames[0])
    ensures CountChar('\n', Concat(KillerLines(fields))) == |fields|
  {
    if fields != [] {
      var n := |fields|;
      KillerLinesInit(fields);
      KillerLinesCount(fields[..n - 1]);
      KillerLineCount(fields[n - 1].declaratorNames[0]);
      CountCharAppend('\n', Concat(KillerLines(fields[..n - 1])), KillerLine(fields[n - 1].declaratorNames[0]));
    }
  }

  lemma KillerLineCount(name: string)
    requires NoNewline(name)
    ensures CountChar('\n', KillerLine(name)) == 1
  {
    CountCharAppend('\n', name + "=" + name + ";", "\n");
    CountCharAppend('\n', name + "=" + name, ";");
    CountCharAppend('\n', name + "=", name);
    CountCharAppend('\n', name, "=");
    CountCharAbsent('\n', name);
    assert KillerLine(name) == name + "=" + name + ";" + "\n";
  }

  /** `GeneratePartialClassCode` completes exactly when every selected field is well
      named; a field that does not start with `_` makes it throw. */
  lemma PartialClassCodeSucceedsIff(c: ClassDecl)
    ensures PartialClassCode(c).Success? <==> forall f | f in ExtensionFields(c.members) :: WellNamed(f)
  {
    var fields := ExtensionFields(c.members);
    FragmentsSucceedIff(c.name, fields);
    AllWellNamedAt(fields);
    assert PartialClassCode(c).Success? <==> Fragments(c.name, fields).Success?;
  }

  lemma AllWellNamedAt(fields: seq<Field>)
    ensures (forall f | f in fields :: WellNamed(f)) <==> (forall i | 0 <= i < |fields| :: WellNamed(fields[i]))
  {
  }

  /** The generated text is never blank: it starts with a line feed and `using`. */
  lemma PartialClassTextNotBlank(ns: Option<string>, className: string, generatedCode: string, warningKiller: string)
    ensures !IsBlank(PartialClassText(ns, className, generatedCode, warningKiller))
  {
    var text := PartialClassText(ns, className, generatedCode, warningKiller);
    JoinLinesSecondLine(PartialClassLines(ns, className, generatedCode, warningKiller));
    assert text[1] == 'u';
  }

  /** A class outside every namespace is not moved to the global namespace: its
      namespace line is `namespace ` with nothing after it. */
  lemma NoNamespaceLine(c: ClassDecl, generatedCode: string, warningKiller: string)
    requires forall k | 0 <= k < |c.ancestors| :: c.ancestors[k].OtherNode?
    ensures GetNamespace(c) == None
    ensures PartialClassLines(GetNamespace(c), c.name, generatedCode, warningKiller)[7] == "namespace "
  {
    assert "namespace " + "" == "namespace ";
  }

  // ---------------------------------------------------------------------------
  // The whole run

  /** The collected classes that have an extension field, in collection order. */
  function ExtensionClasses(classes: seq<ClassDecl>): seq<ClassDecl>
  {
    if classes == [] then []
    else
      var last := classes[|classes| - 1];
      ExtensionClasses(classes[..|classes| - 1]) + (if HasExtensionFields(last) then [last] else [])
  }

  /** Every selected field of `c` is well named. */
  predicate AllWellNamed(c: ClassDecl) {
    forall f | f in ExtensionFields(c.members) :: WellNamed(f)
  }

  /** One iteration of `Execute`'s loop throws exactly when the class has a misnamed
      selected field; otherwise it adds the class's source when the class has an
      extension field, and nothing when it has none. */
  lemma ClassStepOutcome(c: ClassDecl)
    ensures ClassStep(c).Success? <==> AllWellNamed(c)
    ensures ClassStep(c).Success? ==>
              ClassStep(c).value == if HasExtensionFields(c) then [GeneratedSource(SourceHintName(c.name), PartialClassCode(c).value)] else []
  {
    PartialClassCodeSucceedsIff(c);
    HasExtensionFieldsIffSelection(c);
    if !HasExtensionFields(c) {
      assert ExtensionFields(c.members) == [];
      assert ClassStep(c) == Success([]);
    } else {
      var code := PartialClassCode(c);
      if code.Success? {
        var fragments := Fragments(c.name, ExtensionFields(c.members)).value;
        assert code.value == PartialClassText(GetNamespace(c), c.name, fragments.0, fragments.1);
        PartialClassTextNotBlank(GetNamespace(c), c.name, fragments.0, fragments.1);
      }
      ClassStepOfCode(c, code);
    }
  }

  /** What a completed iteration of `Execute`'s loop adds for one class. */
  lemma ClassStepAdds(c: ClassDecl)
    requires ClassStep(c).Success?
    ensures HasExtensionFields(c) ==> PartialClassCode(c).Success?
    ensures HasExtensionFields(c) ==>
              ClassStep(c).value == [GeneratedSource(c.name + ".AvaloniaEasyProperties.cs", PartialClassCode(c).value)]
    ensures !HasExtensionFields(c) ==> ClassStep(c).value == []
  {
    ClassStepOutcome(c);
  }

  /** A run over one class is that class's iteration. */
  lemma GenerateAllSingle(c: ClassDecl)
    ensures GenerateAll([c]) == ClassStep(c)
  {
    assert [c][..0] == [];
    if ClassStep(c).Success? {
      assert [] + ClassStep(c).value == ClassStep(c).value;
    }
  }

  /** The run over the classes seen so far plus one more is the run so far followed by
      that class's iteration. */
  lemma GenerateAllSnocStep(classes: seq<ClassDecl>, c: ClassDecl)
    ensures GenerateAll(classes + [c]) ==
      match GenerateAll(classes)
      case Failure(e) => Failure(e)
      case Success(sources) =>
        match ClassStep(c)
        case Failure(e) => Failure(e)
        case Success(added) => Success(sources + added)
  {
    assert (classes + [c])[..|classes|] == classes;
  }

  /** A run over a class that completes and a class that adds nothing is the first
      class's iteration. */
  lemma GenerateAllPair(first: ClassDecl, second: ClassDecl)
    requires ClassStep(first).Success? && ClassStep(second) == Success([])
    ensures GenerateAll([first, second]) == ClassStep(first)
  {
    GenerateAllSingle(first);
    GenerateAllSnocStep([first], second);
    assert [first] + [second] == [first, second];
    assert ClassStep(first).value + [] == ClassStep(first).value;
  }

  /** A run completes exactly when every selected field of every collected class is
      well named: one misnamed field anywhere and nothing is generated at all. */
  lemma {:induction false} GenerateAllSucceedsIff(classes: seq<ClassDecl>)
    ensures GenerateAll(classes).Success? <==> forall i | 0 <= i < |classes| :: AllWellNamed(classes[i])
  {
    GenerateAllSucceedsIffSteps(classes);
    forall i | 0 <= i < |classes| ensures ClassStep(classes[i]).Success? <==> AllWellNamed(classes[i]) {
      ClassStepOutcome(classes[i]);
    }
  }

  lemma {:induction false} GenerateAllSucceedsIffSteps(classes: seq<ClassDecl>)
    ensures GenerateAll(classes).Success? <==> forall i | 0 <= i < |classes| :: ClassStep(classes[i]).Success?
  {
    if classes != [] {
      var n := |classes|;
      var init := classes[..n - 1];
      GenerateAllSucceedsIffSteps(init);
      assert forall i | 0 <= i < n - 1 :: classes[i] == init[i];
    }
  }

  /** `source` is what `Execute` adds for class `c`. */
  predicate IsSourceOf(c: ClassDecl, source: GeneratedSource) {
    PartialClassCode(c).Success? && source == GeneratedSource(c.name + ".AvaloniaEasyProperties.cs", PartialClassCode(c).value)
  }

  /** `p` relates `xs` and `ys` position by position (stated from the end, as the run
      grows). */
  predicate Pairwise<A, B>(p: (A, B) -> bool, xs: seq<A>, ys: seq<B>) {
    && |xs| == |ys|
    && (xs != [] ==> Pairwise(p, xs[..|xs| - 1], ys[..|ys| - 1]) && p(xs[|xs| - 1], ys[|ys| - 1]))
  }

  lemma {:induction false} PairwiseAt<A, B>(p: (A, B) -> bool, xs: seq<A>, ys: seq<B>)
    requires Pairwise(p, xs, ys)
    ensures |xs| == |ys|
    ensures forall i | 0 <= i < |xs| :: p(xs[i], ys[i])
  {
    if xs != [] {
      var n := |xs|;
      PairwiseAt(p, xs[..n - 1], ys[..n - 1]);
    }
  }

  lemma PairwiseSnoc<A, B>(p: (A, B) -> bool, xs: seq<A>, ys: seq<B>, x: A, y: B)
    requires Pairwise(p, xs, ys) && p(x, y)
    ensures Pairwise(p, xs + [x], ys + [y])
  {
    assert (xs + [x])[..|xs|] == xs && (ys + [y])[..|ys|] == ys;
  }

  /** A successful run adds one source per class that has an extension field, in
      collection order, keyed `<class name>.AvaloniaEasyProperties.cs` and holding that
      class's generated code: no such class is dropped for being blank. */
  lemma GenerateAllSources(classes: seq<ClassDecl>)
    requires GenerateAll(classes).Success?
    ensures |GenerateAll(classes).value| == |ExtensionClasses(classes)|
    ensures forall i | 0 <= i < |ExtensionClasses(classes)| ::
              var c := ExtensionClasses(classes)[i];
              && PartialClassCode(c).Success?
              && GenerateAll(classes).value[i] == GeneratedSource(c.name + ".AvaloniaEasyProperties.cs", PartialClassCode(c).value)
  {
    GenerateAllSourcesInOrder(classes);
    PairwiseAt(IsSourceOf, ExtensionClasses(classes), GenerateAll(classes).value);
  }

  lemma {:induction false} GenerateAllSourcesInOrder(classes: seq<ClassDecl>)
    requires GenerateAll(classes).Success?
    ensures Pairwise(IsSourceOf, ExtensionClasses(classes), GenerateAll(classes).value)
  {
    if classes != [] {
      var n := |classes|;
      var init := classes[..n - 1];
      var c := classes[n - 1];
      GenerateAllSnoc(classes, n - 1);
      assert classes[..n] == classes && classes[..n - 1] == init;
      GenerateAllSourcesInOrder(init);
      ClassStepAdds(c);
      var initSources := GenerateAll(init).value;
      var initSelected := ExtensionClasses(init);
      if HasExtensionFields(c) {
        var source := ClassStep(c).value[0];
        assert IsSourceOf(c, source);
        PairwiseSnoc(IsSourceOf, initSelected, initSources, c, source);
        assert ExtensionClasses(classes) == initSelected + [c];
        assert GenerateAll(classes).value == initSources + [source];
      } else {
        assert ExtensionClasses(classes) == initSelected;
        assert GenerateAll(classes).value == initSources + [] == initSources;
      }
    }
  }

  // ---------------------------------------------------------------------------
  // The syntax receiver

  /** The receiver keeps the class declarations of the nodes it visits and nothing
      else. */
  lemma {:induction false} ClassesInExactly(nodes: seq<SyntaxNode>)
    ensures forall d :: d in ClassesIn(nodes) <==> ClassNode(d) in nodes
  {
    if nodes != [] {
      var init := nodes[..|nodes| - 1];
      ClassesInExactly(init);
      assert nodes == init + [nodes[|nodes| - 1]];
    }
  }

  /** Visiting one run of nodes after another collects the classes of the first run,
      then those of the second, each in visit order. */
  lemma {:induction false} ClassesInAppend(a: seq<SyntaxNode>, b: seq<SyntaxNode>)
    ensures ClassesIn(a + b) == ClassesIn(a) + ClassesIn(b)
  {
    if b == [] {
      assert a + b == a;
    } else {
      var init := b[..|b| - 1];
      ClassesInAppend(a, init);
      assert (a + b)[..|a + b| - 1] == a + init;
    }
  }

  // ---------------------------------------------------------------------------
  // Scenarios

  /** A class in namespace `ns` holding some other member and a styled `int` field
      `_direction`. */
  function StyledClass(name: string, ns: string): ClassDecl {
    ClassDecl(name, [BlockNamespace(Some(ns))],
              [OtherMember, FieldMember(Field(["_direction"], "int", ["SimpleStyledProperty"]))])
  }

  /** A class whose only field carries an unrelated attribute. */
  function UnmarkedClass(name: string): ClassDecl {
    ClassDecl(name, [], [FieldMember(Field(["_direction"], "int", ["Obsolete"]))])
  }

  /** A class whose attached field is named without the leading `_`. */
  function MisnamedClass(name: string): ClassDecl {
    ClassDecl(name, [], [FieldMember(Field(["direction"], "int", ["SimpleAttachedProperty"]))])
  }

  /** The styled field `_direction` becomes the `DirectionProperty` fragment and one
      self-assignment. */
  lemma StyledFieldScenario(name: string)
    ensures Fragments(name, [Field(["_direction"], "int", ["SimpleStyledProperty"])])
            == Success((StyledPropertyTemplate(name, "Direction", "int"), KillerLine("_direction")))
  {
    var fields := [Field(["_direction"], "int", ["SimpleStyledProperty"])];
    var f := fields[0];
    var code := StyledPropertyTemplate(name, "Direction", "int");
    DerivedNameExamples();
    assert WellNamed(f) by { assert StartsWith("_direction", "_"); }
    SelectedFieldStep(name, f);
    assert FirstExtensionAttribute(f.attributeNames) == Some(StyledAttributeName);
    assert FieldCode(name, f) == code;
    FragmentsSnoc(name, fields, 0);
    assert fields[..0] == [] && fields[..1] == fields;
    assert "" + code == code && "" + KillerLine("_direction") == KillerLine("_direction");
  }

  /** The class holding it wraps that fragment in its own namespace. */
  lemma StyledClassCode(name: string, ns: string)
    ensures PartialClassCode(StyledClass(name, ns))
            == Success(PartialClassText(Some(ns), name, StyledPropertyTemplate(name, "Direction", "int"), KillerLine("_direction")))
  {
    var c := StyledClass(name, ns);
    assert ExtensionFields(c.members) == [Field(["_direction"], "int", ["SimpleStyledProperty"])];
    assert GetNamespace(c) == Some(ns) by {
      assert IsNearest(c.ancestors, 0, IsBlockNamespace);
    }
    StyledFieldScenario(name);
  }

  /** ... and generates one source under its own hint name. */
  lemma StyledClassScenario(name: string, ns: string)
    ensures ClassStep(StyledClass(name, ns)) == Success([GeneratedSource(name + ".AvaloniaEasyProperties.cs",
              PartialClassText(Some(ns), name, StyledPropertyTemplate(name, "Direction", "int"), KillerLine("_direction")))])
  {
    var c := StyledClass(name, ns);
    StyledClassCode(name, ns);
    assert HasExtensionFields(c) by {
      assert c.members[1].FieldMember? && IsExtensionField(c.members[1].field);
    }
    PartialClassTextNotBlank(Some(ns), name, StyledPropertyTemplate(name, "Direction", "int"), KillerLine("_direction"));
    ClassStepOfCode(c, PartialClassCode(c));
  }

  lemma StyledClassSucceeds(name: string, ns: string)
    ensures ClassStep(StyledClass(name, ns)).Success?
  {
    StyledClassScenario(name, ns);
  }

  lemma UnmarkedClassScenario(name: string)
    ensures ClassStep(UnmarkedClass(name)) == Success([])
  {
    assert !HasExtensionFields(UnmarkedClass(name));
  }

  lemma MisnamedClassScenario(name: string)
    ensures ClassStep(MisnamedClass(name)) == Failure(FieldNameWithoutUnderscore("direction"))
  {
    var fields := ExtensionFields(MisnamedClass(name).members);
    assert fields == [Field(["direction"], "int", ["SimpleAttachedProperty"])];
    assert !StartsWith("direction", "_") by { assert "direction"[..1][0] == 'd'; }
    assert FieldStep(name, fields[0]) == Failure(FieldNameWithoutUnderscore("direction"));
    FragmentsSnoc(name, fields, 0);
    assert fields[..0] == [] && fields[..1] == fields;
    assert HasExtensionFields(MisnamedClass(name)) by {
      assert IsExtensionField(MisnamedClass(name).members[0].field);
    }
  }

  /** A run over a styled class and an unmarked one yields the styled class's source
      alone. */
  lemma UnmarkedClassAddsNothing(a: string, b: string, ns: string)
    ensures GenerateAll([StyledClass(a, ns), UnmarkedClass(b)]) == ClassStep(StyledClass(a, ns))
  {
    StyledClassSucceeds(a, ns);
    UnmarkedClassScenario(b);
    GenerateAllPair(StyledClass(a, ns), UnmarkedClass(b));
  }

  /** Adding a class with a misnamed field after them aborts the whole run. */
  lemma MisnamedClassAbortsRun(a: string, b: string, c: string, ns: string)
    ensures GenerateAll([StyledClass(a, ns), UnmarkedClass(b), MisnamedClass(c)]) == Failure(FieldNameWithoutUnderscore("direction"))
  {
    UnmarkedClassAddsNothing(a, b, ns);
    StyledClassSucceeds(a, ns);
    MisnamedClassScenario(c);
    GenerateAllSnocStep([StyledClass(a, ns), UnmarkedClass(b)], MisnamedClass(c));
    assert [StyledClass(a, ns), UnmarkedClass(b)] + [MisnamedClass(c)] == [StyledClass(a, ns), UnmarkedClass(b), MisnamedClass(c)];
  }
}
