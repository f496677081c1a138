# AvaloniaSimpleProperties generator, modelled in Dafny

AvaloniaSimpleProperties is a C# source generator. It runs inside the compiler and
reads the user's classes. For each field marked `[SimpleStyledProperty]` or
`[SimpleAttachedProperty]`, it adds Avalonia property code. The field must be named
with a leading underscore, such as `_direction`. The added code sits in a partial
class of the same name and has two parts:

- a static `StyledProperty<T>` or `AttachedProperty<T>` descriptor named
  `DirectionProperty`;
- a CLR property `Direction` whose getter and setter go through that descriptor.

A `warningKiller` method assigns every marked field to itself. This silences the
"assigned but never used" warning.

The model follows the structure of `Generator.cs`:

- `Syntax.dfy`: the part of the Roslyn syntax tree the generator reads. This covers
  class declarations, their ancestors (block and file-scoped namespaces), their field
  members and the attribute names on those fields.
- `Text.dfy`: the .NET string operations the generator uses:
  - ordinal `StartsWith`;
  - `char.ToUpper` on ASCII;
  - `string.IsNullOrWhiteSpace`;
  - multi-line verbatim literals, written as `JoinLines` of their lines.
- `Generator.dfy`: the generator.
  - The pure parts are functions: attribute recognition, field selection,
    `GetNamespace`, property-name derivation and the two property templates.
  - Three things are imperative, as in the source:
    - `GeneratePartialClassCode`'s loop over the selected fields is a method;
    - `Execute`'s loop over the collected classes is a method;
    - the syntax receiver is a class whose `OnVisitSyntaxNode` appends to its list.
  - Each loop is proved against a function giving its result: `PartialClassCode`
    for one class, `GenerateAll` for the run.
  - An exception thrown by the generator is a `Failure` of the run. The host compiler
    then discards everything the generator produced.
- `GeneratorProperties.dfy`: what the generator promises, proved over those
  functions. This covers:
  - selection and its order;
  - the naming rule and its faults;
  - name derivation and its inverse;
  - the shape of the templates;
  - one fragment and one self-assignment per field;
  - when a run completes;
  - the sources a run adds;
  - a few concrete classes.

## Model

| member | source | states |
|---|---|---|
| Generator.IsExtensionAttribute | AvaloniaSimpleProperties/Generator.cs:65-79 | an attribute is recognised exactly when its name as written is `SimpleStyledProperty` or `SimpleAttachedProperty` |
| GeneratorProperties.ExtensionAttributeNameAsWritten | AvaloniaSimpleProperties/Generator.cs:74-79 | a namespace-qualified name (`AvaloniaEasyProperties.…`) or a name with the `Attribute` suffix is never recognised |
| Generator.AnyExtensionAttribute | AvaloniaSimpleProperties/Generator.cs:59 | a field's attributes qualify exactly when some attribute is recognised |
| Generator.HasExtensionFields | AvaloniaSimpleProperties/Generator.cs:56-60 | a class qualifies exactly when some field member carries a recognised attribute |
| Generator.AnyExtensionMember | AvaloniaSimpleProperties/Generator.cs:58-59 | the `Any` over the field members holds exactly when some member is such a field |
| Generator.ExtensionFields | AvaloniaSimpleProperties/Generator.cs:130-131 | the selection is no longer than the member list and holds only fields with a recognised attribute |
| GeneratorProperties.ExtensionFieldsSelectExactly | AvaloniaSimpleProperties/Generator.cs:130-131 | the selection holds every field member with a recognised attribute and nothing else |
| GeneratorProperties.ExtensionFieldsKeepOrder | AvaloniaSimpleProperties/Generator.cs:130-131 | the selection keeps declaration order: the selection of a concatenation is the concatenation of the selections |
| GeneratorProperties.HasExtensionFieldsIffSelection | AvaloniaSimpleProperties/Generator.cs:40 | `HasExtensionFields` holds exactly when `GeneratePartialClassCode` would select some field |
| Generator.FirstExtensionAttribute | AvaloniaSimpleProperties/Generator.cs:145-147 | the first recognised attribute name: present exactly when some attribute is recognised, recognised itself, and preceded by no recognised name |
| Generator.Nearest | AvaloniaSimpleProperties/Generator.cs:88 | `FirstOrDefault` over the ancestors: the index of the nearest matching ancestor, or none when no ancestor matches |
| Generator.GetNamespace | AvaloniaSimpleProperties/Generator.cs:83-119 | the name of the nearest block namespace when it has one; otherwise the name of the nearest file-scoped namespace, or null when there is none |
| Generator.DerivePropertyName | AvaloniaSimpleProperties/Generator.cs:202-203 | succeeds exactly when the field name has two or more characters; the result drops the first character and upper-cases the new first; the single `_` faults with an index error |
| GeneratorProperties.DerivePropertyNameOfFieldNameFor | AvaloniaSimpleProperties/Generator.cs:222-223 | deriving from the conventional field name `_x…` of a property name `X…` gives that property name back |
| GeneratorProperties.FieldNameForOfDerivePropertyName | AvaloniaSimpleProperties/Generator.cs:222-223 | a field named `_` plus a lower-case letter plus the rest is the conventional field name of its derived property |
| GeneratorProperties.DerivedNamesCollide | AvaloniaSimpleProperties/Generator.cs:202-203 | two field names derive the same property exactly when their second characters upper-case alike and the rest agrees; the first character is ignored |
| GeneratorProperties.DerivedNameExamples | AvaloniaSimpleProperties/Generator.cs:222-223 | `_direction` gives `Direction`, `_customBackground` gives `CustomBackground`, `_Direction` collides with `_direction`, and `_` faults |
| Generator.StyledPropertyCode | AvaloniaSimpleProperties/Generator.cs:220-235 | the styled fragment exists exactly when the field name has two or more characters; otherwise the index fault |
| Generator.AttachedPropertyCode | AvaloniaSimpleProperties/Generator.cs:200-215 | the attached fragment exists exactly when the field name has two or more characters; otherwise the index fault |
| GeneratorProperties.PropertyTemplatesShape | AvaloniaSimpleProperties/Generator.cs:200-235 | `StyledPropertyTemplate` and `AttachedPropertyTemplate`: each fragment is a line feed, its descriptor line, a line feed, then the accessor lines the two share. The descriptor is `StyledDescriptor` (`StyledProperty<T>` registered with `Register<C, T>`) or `AttachedDescriptor` (`AttachedProperty<T>` registered with `RegisterAttached<C, TemplatedControl, T>`) |
| GeneratorProperties.SelectedFieldStep | AvaloniaSimpleProperties/Generator.cs:141-165 | `FieldStep`, the body of the field loop: a selected field is never skipped: the loop body faults exactly when the naming rule is broken, with the fault of the first broken rule, and otherwise emits the fragment of its first recognised attribute and the self-assignment of the field name |
| Generator.FieldStepDispatch | AvaloniaSimpleProperties/Generator.cs:153-163 | for a selected field with a `_` name, the dispatch picks the template of the first recognised attribute and never reaches the `Unknown attribute` default |
| GeneratorProperties.FirstDeclaratorOnly | AvaloniaSimpleProperties/Generator.cs:141 | only a declaration's first declarator matters; `int _a, _b;` generates for `_a` alone |
| GeneratorProperties.FragmentsSucceedIff | AvaloniaSimpleProperties/Generator.cs:139-168 | the loop over the selected fields completes exactly when every one of them is well named |
| GeneratorProperties.FragmentsInDeclarationOrder | AvaloniaSimpleProperties/Generator.cs:133-168 | `Fragments`, the state after the field loop: `generatedCode` is the fragments of the fields and `warningKiller` their self-assignments, concatenated in declaration order |
| GeneratorProperties.WarningKillerLinePerField | AvaloniaSimpleProperties/Generator.cs:165 | the warning-killer body holds exactly one line per selected field |
| GeneratorProperties.KillerLinesCount | AvaloniaSimpleProperties/Generator.cs:165 | the concatenated self-assignments hold one line feed per field |
| GeneratorProperties.KillerLineCount | AvaloniaSimpleProperties/Generator.cs:165 | `KillerLine`: one self-assignment `f=f;` holds exactly one line feed when the field name holds none |
| Generator.PartialClassCodeFailsAt | AvaloniaSimpleProperties/Generator.cs:139-168 | a fault part-way through the loop is what `GeneratePartialClassCode` throws: later fields do not run |
| GeneratorProperties.PartialClassCodeSucceedsIff | AvaloniaSimpleProperties/Generator.cs:143 | `PartialClassCode`: `GeneratePartialClassCode` returns exactly when every selected field is well named; otherwise it throws |
| GeneratorProperties.PartialClassTextNotBlank | AvaloniaSimpleProperties/Generator.cs:174-195 | `PartialClassText`, the wrapper template as `PartialClassLines` lists it: the wrapper text is never blank (it starts with a line feed and `using`), so the blank-code test of `Execute` never skips a class |
| GeneratorProperties.NoNamespaceLine | AvaloniaSimpleProperties/Generator.cs:181 | `NamespaceText`: a class outside every namespace gets null from `GetNamespace`, and its namespace line is `namespace ` with nothing after it |
| Generator.GeneratePartialClassCode | AvaloniaSimpleProperties/Generator.cs:123-198 | the loop returns the wrapper text around the accumulated fragments and self-assignments, or the first exception, as `PartialClassCode` gives them |
| GeneratorProperties.ClassStepOutcome | AvaloniaSimpleProperties/Generator.cs:40-49 | `ClassStep`, one iteration of the run's loop: one iteration throws exactly when the class has a selected field that is not well named; otherwise it adds the class's source when the class has an extension field, and nothing when it has none |
| GeneratorProperties.ClassStepAdds | AvaloniaSimpleProperties/Generator.cs:44-49 | `SourceHintName`: a completed iteration adds `<class>.AvaloniaEasyProperties.cs` with the class's code, or nothing for a class without extension fields |
| Generator.GenerateAllFailurePersists | AvaloniaSimpleProperties/Generator.cs:37-50 | once an iteration throws, no later class changes the outcome |
| GeneratorProperties.GenerateAllSingle | AvaloniaSimpleProperties/Generator.cs:37-50 | a run over one class is that class's iteration |
| GeneratorProperties.GenerateAllPair | AvaloniaSimpleProperties/Generator.cs:37-50 | a completing class followed by a class that adds nothing gives the first class's iteration |
| GeneratorProperties.GenerateAllSucceedsIff | AvaloniaSimpleProperties/Generator.cs:37-50 | a run completes exactly when every selected field of every collected class is well named; one misnamed field anywhere and nothing is added |
| GeneratorProperties.GenerateAllSucceedsIffSteps | AvaloniaSimpleProperties/Generator.cs:37-50 | a run completes exactly when every class's iteration completes |
| GeneratorProperties.GenerateAllSources | AvaloniaSimpleProperties/Generator.cs:37-50 | `GenerateAll`, the outcome of the run: a completed run adds one source per class with an extension field, in collection order, under `<class>.AvaloniaEasyProperties.cs`, holding that class's generated code |
| GeneratorProperties.GenerateAllSourcesInOrder | AvaloniaSimpleProperties/Generator.cs:37-50 | position by position, the sources of a completed run are those of the classes with extension fields |
| Generator.Execute | AvaloniaSimpleProperties/Generator.cs:30-52 | without a receiver of the generator's type nothing is added; otherwise the loop adds exactly what `GenerateAll` gives for the classes among the nodes the receiver visited, or ends with the first exception |
| Generator.SyntaxReceiver.constructor | AvaloniaSimpleProperties/Generator.cs:241 | a new receiver has visited nothing and holds no class |
| Generator.SyntaxReceiver.OnVisitSyntaxNode | AvaloniaSimpleProperties/Generator.cs:243-249 | a class declaration is appended to the list; any other node leaves it unchanged; the list stays the classes of the visited nodes |
| GeneratorProperties.ClassesInExactly | AvaloniaSimpleProperties/Generator.cs:243-249 | the receiver's list holds a declaration exactly when a class node for it was visited |
| GeneratorProperties.ClassesInAppend | AvaloniaSimpleProperties/Generator.cs:243-249 | the receiver keeps visit order: the classes of two runs of nodes are those of the first run, then those of the second |
| GeneratorProperties.StyledFieldScenario | AvaloniaSimpleProperties/Generator.cs:155-165 | the styled `int _direction` becomes the `Direction` styled fragment and the line `_direction=_direction;` |
| GeneratorProperties.StyledClassCode | AvaloniaSimpleProperties/Generator.cs:123-198 | a class in namespace `ns` holding that field generates the wrapper text in `ns` around that fragment |
| GeneratorProperties.StyledClassScenario | AvaloniaSimpleProperties/Generator.cs:40-49 | that class adds one source named `<class>.AvaloniaEasyProperties.cs` |
| GeneratorProperties.StyledClassSucceeds | AvaloniaSimpleProperties/Generator.cs:40-49 | that class's iteration completes |
| GeneratorProperties.UnmarkedClassScenario | AvaloniaSimpleProperties/Generator.cs:40 | a class whose only field carries an unrelated attribute is skipped |
| GeneratorProperties.MisnamedClassScenario | AvaloniaSimpleProperties/Generator.cs:143 | an attached field named `direction` throws "Field name must start with _" |
| GeneratorProperties.UnmarkedClassAddsNothing | AvaloniaSimpleProperties/Generator.cs:37-50 | a run over the styled class and the unmarked class adds the styled class's source alone |
| GeneratorProperties.MisnamedClassAbortsRun | AvaloniaSimpleProperties/Generator.cs:37-50 | adding the misnamed class after them makes the whole run fail |

The model follows what the code does, including where it differs from what the
generator sets out to do:

- The `warningKiller` line assigns the field to itself (`_direction=_direction;`).
  It does not refer to the derived property.
- `GetNamespace` looks at the nearest block namespace only. When that namespace has
  no name, it falls back to the file-scoped namespace; it does not search further out
  for a named block namespace.
- A class with no namespace at all is not placed in the global namespace. Its text
  gets `namespace ` followed by nothing, because a null interpolates as the empty
  string.
- Two branches of the field loop are unreachable: the `attribute == null`
  `continue` and the `Unknown attribute` default. Every selected field carries a
  recognised attribute, and only two names are recognised. The model keeps both
  branches in `FieldStep`. `FieldStepDispatch` and `SelectedFieldStep` prove that
  they never run.

## Left out

- `Initialize` and `RegisterForSyntaxNotifications` are not modelled. The host
  creates a receiver and calls `OnVisitSyntaxNode` on every node. The model starts
  from a `SyntaxReceiver` whose `Valid()` ties its list to the nodes visited.
- `context.SyntaxReceiver as SyntaxReceiver` is modelled as a nullable
  `SyntaxReceiver?` parameter of `Execute`. A receiver of another type is `null`.
- `context.AddSource` is modelled as appending a `GeneratedSource` (hint name and
  text) to the result. `SourceText.From(code, Encoding.UTF8)` is not modelled: the
  text is kept as a string.
- GeneratorProperties.GenerateAllSucceedsIff: does not model the checks that
  `context.AddSource` makes on hint names. The host throws when a hint name was
  already added in the run, compared without regard to case. It also throws when a
  hint name holds a character it does not allow. So two collected classes with
  marked fields and the same name make the real run fail, for example two
  `partial` parts of one class or `A.Button` and `B.Button`. The model's run
  completes in that case, with both sources added. This is stated as a gap rather
  than modelled because the host's checks are not part of this model.
- GeneratorProperties.GenerateAllSources: adds one source per class with an
  extension field even when two hint names collide. The host would reject the
  second `AddSource` call, as described for `GenerateAllSucceedsIff`.
- Generator.Execute: inherits the same gap, because its result is `GenerateAll`.
- The `GeneratorExecutionContext` and the unused `attribute` parameter of the two
  template methods are not modelled.
- `Debugger.Launch` is commented out in the source and not modelled.
- Roslyn's parsing and the `ToString()` of names, types and attributes are not
  modelled. A field's first identifier, its type text and its attribute names are
  given strings.
- Attribute lists are flattened into one list of names, in source order.
- The reflection lookup of a file-scoped namespace's name is not modelled. The
  model gives that namespace a `FileScopedNamespace` ancestor that carries its
  name.
- `char.ToUpper` and `StartsWith` are culture-sensitive in .NET. The model uses
  ASCII upper-casing and ordinal comparison.
- Exceptions are modelled as a `Failure` that ends the run and replaces its
  output. The host reports the fault and keeps nothing the generator added. The
  sources added before the fault are not modelled.
- The marker attribute classes `SimpleStyledProperty` and `SimpleAttachedProperty`
  are not part of this model. Only their names matter to the generator.
- The two `IsExtensionAttribute` overloads are one function, because the syntax
  overload only passes on the name as written.
