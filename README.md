# Inherited-members inlay hints, modelled in Dafny

TransparentClass is an IntelliJ plugin. Its `InheritedMembersInlayProvider`
shows, above the opening brace of a Java class, the members the class inherits
from its direct superclass. It emits, in this order:

1. a plain `Inherited Fields` header;
2. one clickable entry per inherited field;
3. a plain spacer `" "`;
4. a plain `Inherited Methods ` header;
5. one clickable entry per inherited method.

A superclass method is dropped when its signature key
(`name(canonical parameter types joined by ",")`) was already recorded by an
earlier method that is neither private nor a constructor and whose name the
subject does not declare. Only such methods record their key, so a
constructor never hides a method with the same key.

This project models that collector and the two text helpers it calls
(`buildHintText`, `getMethodSignature`), and proves what they emit.

## Layout

- `psi.dfy`, module `Psi`: the parts of IntelliJ's PSI that the collector reads, as plain datatypes.
  - `Class`: simple name, whether the left brace is a Java token, own fields, own methods, optional direct superclass.
  - `Field` and `Method`: name, presentable and canonical type texts, modifiers, constructor flag.
  - The own-name sets `FieldNames` and `MethodNames`.
- `hint_text.dfy`, module `HintText`:
  - the field label and the method label;
  - `BuildHintText` and `GetMethodSignature`;
  - `Join`, which models `Collectors.joining`;
  - lemmas stating the shape of each text.
- `resolution.dfy`, module `Resolution`: the reference definition of what is emitted.
  - `KeptFields`, `KeptMethods` and `InheritedHints`, as functions of the visited element.
  - Lemmas about these functions: selection, deduplication, order and layout.
- `collector.dfy`, module `InlayCollector`: the collector itself, written imperatively.
  - A `Sink` class whose `items` sequence the methods extend.
  - `TpcPrint` appends one presentation.
  - `Collect` is the lambda returned by `getCollectorFor`. It runs the field loop and the method loop. The method loop keeps a `processedSignatures` set and updates it by test-and-insert.
  - `Collect` is proved to append exactly `InheritedHints(element)` to the sink.

An emitted item is a `Hint`. It is either `Text(s)`, a plain presentation, or
`Clickable(s, target)`, a rounded, clickable label that navigates to a field or
a method. The model keeps the target so that "this entry comes from that
member" can be stated.

Behaviour worth noting:

- Both headers and the spacer are emitted whenever the element is a class whose left brace is a Java token and whose direct superclass exists and is not named `Object` (lines 30-36). This holds even when no member is kept (lines 39, 58-59).
- Method shadowing compares names only (line 66). Overloads of a subject method are suppressed together with it.
- Package-private members are labelled `public` (lines 51-53, 72-74).
- The method prefix for non-protected methods is `public  `, with two spaces. The protected prefix is `protected `, with one space (lines 71, 73).
- Only the direct superclass is walked (lines 35, 46, 65). Labels carry no declaring-class qualifier.
- The root type is recognised by its simple name `Object` (line 36).

## Model

| member | source | states |
|---|---|---|
| Psi.FieldNames | src/main/java/com/example/transparentclass/inlay/InheritedMembersInlayProvider.java:42 | the set holds the name of every own field and nothing but own field names |
| Psi.MethodNames | src/main/java/com/example/transparentclass/inlay/InheritedMembersInlayProvider.java:63 | the set holds the name of every own method and nothing but own method names |
| HintText.JoinShape | src/main/java/com/example/transparentclass/inlay/InheritedMembersInlayProvider.java:103 | a joined parameter list starts with its first part and ends with its last |
| HintText.PresentableTexts | src/main/java/com/example/transparentclass/inlay/InheritedMembersInlayProvider.java:103 | one presentable type text per parameter, in parameter order |
| HintText.CanonicalTexts | src/main/java/com/example/transparentclass/inlay/InheritedMembersInlayProvider.java:107 | one canonical type text per parameter, in parameter order |
| HintText.BuildHintTextShape | src/main/java/com/example/transparentclass/inlay/InheritedMembersInlayProvider.java:101-105 | the method text is `<returnType> <name>(` … `)`; a missing return type reads `void`; the exact text for zero or one parameter |
| HintText.GetMethodSignatureShape | src/main/java/com/example/transparentclass/inlay/InheritedMembersInlayProvider.java:106-109 | the key is `<name>(` … `)`; the exact key for zero or one parameter, built from canonical texts |
| HintText.SignatureYieldsName | src/main/java/com/example/transparentclass/inlay/InheritedMembersInlayProvider.java:108 | the text before the first `(` of a key is the method's name |
| HintText.SameSignatureSameName | src/main/java/com/example/transparentclass/inlay/InheritedMembersInlayProvider.java:106-109 | two methods with one key have one name |
| HintText.SignatureIgnoresAllButNameAndCanonicalTypes | src/main/java/com/example/transparentclass/inlay/InheritedMembersInlayProvider.java:107-108 | methods that agree on name and canonical parameter texts share a key, whatever their return types, presentable texts and modifiers |
| HintText.FieldHintTextShape | src/main/java/com/example/transparentclass/inlay/InheritedMembersInlayProvider.java:49-53 | a field label starts with `protected ` iff the field is protected and with `public ` iff it is not, package-private included; it ends with a space and the name |
| HintText.MethodHintTextShape | src/main/java/com/example/transparentclass/inlay/InheritedMembersInlayProvider.java:70-74 | a method label starts with `protected ` iff the method is protected and with `public  ` (two spaces) iff it is not; it ends with the method text |
| Resolution.KeptFieldsExactly | src/main/java/com/example/transparentclass/inlay/InheritedMembersInlayProvider.java:46-47 | a field is kept iff it is a superclass field, not private, and its name is not an own field name |
| Resolution.KeptFieldsInOrder | src/main/java/com/example/transparentclass/inlay/InheritedMembersInlayProvider.java:46-56 | kept fields are a subsequence of the superclass's fields |
| Resolution.KeptMethodsAreFirstOfTheirKey | src/main/java/com/example/transparentclass/inlay/InheritedMembersInlayProvider.java:65-69 | a method is kept iff it passes the filters and is the first method that passes them with its key, and that key was not processed before |
| Resolution.KeptMethodsHaveDistinctKeys | src/main/java/com/example/transparentclass/inlay/InheritedMembersInlayProvider.java:64-69 | no two kept methods share a key, and none reuses an already processed key |
| Resolution.KeptMethodsCoverKeys | src/main/java/com/example/transparentclass/inlay/InheritedMembersInlayProvider.java:65-69 | the keys of the kept methods are exactly the keys of the methods that pass the filters, minus the processed ones |
| Resolution.KeptMethodsInOrder | src/main/java/com/example/transparentclass/inlay/InheritedMembersInlayProvider.java:65-78 | kept methods are a subsequence of the superclass's methods |
| Resolution.NothingEmittedUnlessActive | src/main/java/com/example/transparentclass/inlay/InheritedMembersInlayProvider.java:30-36 | nothing at all is emitted iff the element is not a class, has no left-brace token, or has no superclass or one named `Object` |
| Resolution.Parts | src/main/java/com/example/transparentclass/inlay/InheritedMembersInlayProvider.java:39-78 | the output is the fields header, one entry per kept field, the spacer, the methods header and one entry per kept method, position by position |
| Resolution.Layout | src/main/java/com/example/transparentclass/inlay/InheritedMembersInlayProvider.java:39-59 | the plain items are exactly the two headers and the spacer, in order, even when no member is kept; field entries come only after the header and before any other item; nothing but method entries follows a method entry |
| Resolution.EntryLabels | src/main/java/com/example/transparentclass/inlay/InheritedMembersInlayProvider.java:47-75 | every clickable entry carries the label of the member it navigates to |
| Resolution.FieldShownExactly | src/main/java/com/example/transparentclass/inlay/InheritedMembersInlayProvider.java:30-56 | a field has an entry iff the element is active and the field is a non-private superclass field whose name no own field uses |
| Resolution.MethodShownExactly | src/main/java/com/example/transparentclass/inlay/InheritedMembersInlayProvider.java:30-78 | a method has an entry iff the element is active and the method is the first, in superclass order, non-private, non-constructor method with its key whose name no own method uses |
| Resolution.AtMostOneEntryPerSignature | src/main/java/com/example/transparentclass/inlay/InheritedMembersInlayProvider.java:64-69 | no two method entries carry the same key |
| Resolution.EverySignatureShown | src/main/java/com/example/transparentclass/inlay/InheritedMembersInlayProvider.java:64-75 | every key of a superclass method that passes the filters appears on some method entry |
| Resolution.EntriesInDeclarationOrder | src/main/java/com/example/transparentclass/inlay/InheritedMembersInlayProvider.java:46-65 | the kept fields and the kept methods follow superclass declaration order |
| Resolution.EntryTargets | src/main/java/com/example/transparentclass/inlay/InheritedMembersInlayProvider.java:46-78 | the `p`-th field entry navigates to the `p`-th kept field, and the method entries to the kept methods in order |
| Resolution.SubjectMembersNeverEmitted | src/main/java/com/example/transparentclass/inlay/InheritedMembersInlayProvider.java:42-66 | no entry comes from a private member or a constructor, or carries a name the subject declares |
| Resolution.OnlyDirectSuperclassMatters | src/main/java/com/example/transparentclass/inlay/InheritedMembersInlayProvider.java:35-65 | subjects that agree on brace state, own names and the direct superclass's name, fields and methods get the same hints, whatever lies above the superclass |
| InlayCollector.TpcPrint | src/main/java/com/example/transparentclass/inlay/InheritedMembersInlayProvider.java:84-87 | one presentation is appended to the sink |
| InlayCollector.Collect | src/main/java/com/example/transparentclass/inlay/InheritedMembersInlayProvider.java:24-81 | the collector returns true and appends to the sink exactly `InheritedHints(element)` |
| InlayCollector.PrintInheritedFields | src/main/java/com/example/transparentclass/inlay/InheritedMembersInlayProvider.java:46-56 | the field loop appends the entries of `KeptFields`, in order |
| InlayCollector.PrintInheritedMethods | src/main/java/com/example/transparentclass/inlay/InheritedMembersInlayProvider.java:64-78 | the method loop, starting from an empty processed set, appends the entries of `KeptMethods`, in order |
| InlayCollector.PrintIfNewSignature | src/main/java/com/example/transparentclass/inlay/InheritedMembersInlayProvider.java:66-77 | a method that passes the filters has its key added to the processed set and is emitted iff the key was new; any other method changes nothing |
| InlayCollector.KeptMethodsUnfold | src/main/java/com/example/transparentclass/inlay/InheritedMembersInlayProvider.java:65-77 | `KeptMethods` over the pending methods is what one loop body emits, followed by `KeptMethods` over the rest with the updated processed set |

## Left out

- Presentation and navigation are left out: `PresentationFactory`, `createClickablePresentation`, `roundWithBackground`, `referenceOnHover` and the `Navigatable` call (lines 89-99). They are foreign IDE UI. A clickable entry is modelled as its text plus its target member.
- `tpcPrint` is modelled only as appending to the sink. The block-element offset `getTextOffset() + 1` and its flags (line 86) are editor plumbing.
- IntelliJ computes presentable and canonical type texts in code this model cannot see. They are strings in the input.
- `isFieldExist` and `isMethodExist` (lines 25-26, 43-45) are never read, so they cannot change the output.
- Provider metadata and settings are left out: `getName`, `getKey`, `createSettings`, `getPreviewText` and `createConfigurable` (lines 111-126). They are constants and UI.
- `TpcProjectManagerListener.java` is not part of this model. It only posts a notification when a project opens.
- `build.gradle.kts` is not part of this model. It is build configuration.
- There is no transitive walk of the ancestors and no declaring-class qualifier. The code does neither.
- `Collect` splits its two loops into `PrintInheritedFields`, `PrintInheritedMethods` and `PrintIfNewSignature`. The statements and their order are those of the lambda.
- Java's `HashSet`s are modelled as mathematical sets. Their hashing and iteration order have no effect on the output.
- HintText.JoinShape: states only the first and the last part of a joined list. It gives no inverse, because a presentable type text may itself contain `", "`.
- PSI mutation, concurrency and read-action rules are left out. The collector only reads PSI.
