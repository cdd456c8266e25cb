/**
 * The inlay hints collector of the inherited-members provider: for one
 * visited element it pushes presentations into the editor's sink one by
 * one, walking the direct superclass's fields and then its methods, and
 * drops repeated method signatures with a set of processed keys.
 */
module InlayCollector {
  import opened Psi
  import opened HintText
  import opened Resolution

  /** The editor's hint sink, reduced to the presentations added so far. */
  class Sink {
    var items: seq<Hint>

    constructor ()
      ensures items == []
    {
      items := [];
    }
  }

  /** `tpcPrint`: add one presentation to the sink as a block element. */
  method TpcPrint(presentation: Hint, sink: Sink)
    modifies sink
    ensures sink.items == old(sink.items) + [presentation]
  {
    sink.items := sink.items + [presentation];
  }

  /** The collector: adds to the sink exactly the hints `InheritedHints`
      gives for the element, and always lets the traversal go on. */
  method Collect(element: Element, sink: Sink) returns (proceed: bool)
    modifies sink
    ensures proceed
    ensures sink.items == old(sink.items) + InheritedHints(element)
  {
    proceed := true;
    if !element.ClassElement? {
      return;
    }
    var psiClass := element.psiClass;
    if !psiClass.hasLBraceToken {
      return;
    }
    if psiClass.superClass.None? || psiClass.superClass.value.name == "Object" {
      return;
    }
    var superClass := psiClass.superClass.value;
    ghost var start := sink.items;
    ghost var fieldEntries := FieldEntries(InheritedFieldsOf(element));
    ghost var methodEntries := MethodEntries(InheritedMethodsOf(element));

    TpcPrint(Text(FieldsHeader), sink);
    var currentFieldNames := FieldNames(psiClass.fields);
    PrintInheritedFields(superClass.fields, currentFieldNames, sink);
    assert sink.items == start + [Text(FieldsHeader)] + fieldEntries;
    TpcPrint(Text(Spacer), sink);
    TpcPrint(Text(MethodsHeader), sink);
    var currentMethodNames := MethodNames(psiClass.methods);
    PrintInheritedMethods(superClass.methods, currentMethodNames, sink);
    assert sink.items == start + [Text(FieldsHeader)] + fieldEntries + [Text(Spacer)] + [Text(MethodsHeader)] + methodEntries;
    Reassociate(start, fieldEntries, methodEntries);
  }

  lemma Reassociate(start: seq<Hint>, fieldEntries: seq<Hint>, methodEntries: seq<Hint>)
    ensures start + [Text(FieldsHeader)] + fieldEntries + [Text(Spacer)] + [Text(MethodsHeader)] + methodEntries
         == start + Assemble(fieldEntries, methodEntries)
  {
  }

  /** The field loop: one entry per non-private superclass field whose name
      is not among the subject's field names, in declaration order. */
  method PrintInheritedFields(fields: seq<Field>, currentFieldNames: set<string>, sink: Sink)
    modifies sink
    ensures sink.items == old(sink.items) + FieldEntries(KeptFields(fields, currentFieldNames))
  {
    ghost var emitted: seq<Field> := [];
    var i := 0;
    while i < |fields|
      invariant 0 <= i <= |fields|
      invariant emitted + KeptFields(fields[i..], currentFieldNames) == KeptFields(fields, currentFieldNames)
      invariant sink.items == old(sink.items) + FieldEntries(emitted)
    {
      var field := fields[i];
      ghost var here := if KeepField(field, currentFieldNames) then [field] else [];
      if !HasModifierProperty(field.modifiers, Private) && field.name !in currentFieldNames {
        var hintText := FieldHintText(field);
        TpcPrint(Clickable(hintText, FieldMember(field)), sink);
        assert FieldEntries(here) == [FieldEntry(field)];
      } else {
        assert FieldEntries(here) == [];
      }
      assert fields[i..][0] == field;
      assert fields[i..][1..] == fields[i + 1..];
      PendingFieldsStep(emitted, fields[i..], currentFieldNames, KeptFields(fields, currentFieldNames));
      FieldEntriesOfConcat(emitted, here);
      emitted := emitted + here;
      i := i + 1;
    }
    assert fields[i..] == [];
    assert emitted == KeptFields(fields, currentFieldNames);
  }

  /** The method loop: one entry per non-private, non-constructor superclass
      method whose name is not among the subject's method names and whose
      signature key has not been seen yet, in declaration order. */
  method PrintInheritedMethods(methods: seq<Method>, currentMethodNames: set<string>, sink: Sink)
    modifies sink
    ensures sink.items == old(sink.items) + MethodEntries(KeptMethods(methods, currentMethodNames, {}))
  {
    var processedSignatures: set<string> := {};
    ghost var emitted: seq<Method> := [];
    var j := 0;
    while j < |methods|
      invariant 0 <= j <= |methods|
      invariant emitted + KeptMethods(methods[j..], currentMethodNames, processedSignatures)
             == KeptMethods(methods, currentMethodNames, {})
      invariant sink.items == old(sink.items) + MethodEntries(emitted)
    {
      ghost var processedBefore := processedSignatures;
      ghost var here := Emitted(methods[j], currentMethodNames, processedBefore);
      processedSignatures := PrintIfNewSignature(methods[j], currentMethodNames, processedSignatures, sink);
      assert methods[j..][0] == methods[j];
      assert methods[j..][1..] == methods[j + 1..];
      PendingMethodsStep(emitted, methods[j..], currentMethodNames, processedBefore,
                         KeptMethods(methods, currentMethodNames, {}));
      MethodEntriesOfConcat(emitted, here);
      emitted := emitted + here;
      j := j + 1;
    }
    assert methods[j..] == [];
    assert emitted == KeptMethods(methods, currentMethodNames, {});
  }

  /** The loop body for one superclass method: filter it, then add its
      signature key to the processed ones and emit its entry if the key was
      new. */
  method PrintIfNewSignature(psiMethod: Method, currentMethodNames: set<string>,
                             processedSignatures: set<string>, sink: Sink)
    returns (processed: set<string>)
    modifies sink
    ensures processed == NextProcessed(psiMethod, currentMethodNames, processedSignatures)
    ensures sink.items == old(sink.items) + MethodEntries(Emitted(psiMethod, currentMethodNames, processedSignatures))
  {
    processed := processedSignatures;
    if !HasModifierProperty(psiMethod.modifiers, Private) && !psiMethod.isConstructor
       && psiMethod.name !in currentMethodNames
    {
      var signature := GetMethodSignature(psiMethod);
      // `processedSignatures.add(signature)`: test and insert in one step
      var added := signature !in processed;
      processed := processed + {signature};
      if added {
        var hintText := MethodHintText(psiMethod);
        TpcPrint(Clickable(hintText, MethodMember(psiMethod)), sink);
        assert MethodEntries([psiMethod]) == [MethodEntry(psiMethod)];
      }
    }
  }

  lemma FieldEntriesOfConcat(a: seq<Field>, b: seq<Field>)
    ensures FieldEntries(a + b) == FieldEntries(a) + FieldEntries(b)
  {
    assert forall k :: 0 <= k < |a + b| ==> FieldEntries(a + b)[k] == (FieldEntries(a) + FieldEntries(b))[k];
  }

  lemma MethodEntriesOfConcat(a: seq<Method>, b: seq<Method>)
    ensures MethodEntries(a + b) == MethodEntries(a) + MethodEntries(b)
  {
    assert forall k :: 0 <= k < |a + b| ==> MethodEntries(a + b)[k] == (MethodEntries(a) + MethodEntries(b))[k];
  }

  /** One step of the field loop: the first pending field is kept or
      skipped, and the kept ones so far followed by the kept pending ones
      stay the same. */
  lemma PendingFieldsStep(emitted: seq<Field>, pending: seq<Field>, own: set<string>, total: seq<Field>)
    requires pending != []
    requires emitted + KeptFields(pending, own) == total
    ensures (emitted + (if KeepField(pending[0], own) then [pending[0]] else [])) + KeptFields(pending[1..], own) == total
  {
  }

  /** What the method loop's body emits for one method: the method itself
      when it passes the filters and its key is new, nothing otherwise. */
  function Emitted(m: Method, own: set<string>, processed: set<string>): seq<Method> {
    if KeepMethod(m, own) && GetMethodSignature(m) !in processed then [m] else []
  }

  /** The processed keys after one method: a method that passes the filters
      adds its key, whether or not the key was new. */
  function NextProcessed(m: Method, own: set<string>, processed: set<string>): set<string> {
    if KeepMethod(m, own) then processed + {GetMethodSignature(m)} else processed
  }

  /** One step of the method loop: the first pending method is emitted or
      skipped and its key processed, and the emitted ones so far followed by
      the kept pending ones stay the same. */
  lemma PendingMethodsStep(emitted: seq<Method>, pending: seq<Method>, own: set<string>,
                           processed: set<string>, total: seq<Method>)
    requires pending != []
    requires emitted + KeptMethods(pending, own, processed) == total
    ensures (emitted + Emitted(pending[0], own, processed))
            + KeptMethods(pending[1..], own, NextProcessed(pending[0], own, processed)) == total
  {
    var here := Emitted(pending[0], own, processed);
    var rest := KeptMethods(pending[1..], own, NextProcessed(pending[0], own, processed));
    KeptMethodsUnfold(pending, own, processed);
    assert emitted + (here + rest) == (emitted + here) + rest;
  }

  /** `KeptMethods` on a non-empty sequence, in terms of the loop body. */
  lemma KeptMethodsUnfold(pending: seq<Method>, own: set<string>, processed: set<string>)
    requires pending != []
    ensures KeptMethods(pending, own, processed)
         == Emitted(pending[0], own, processed) + KeptMethods(pending[1..], own, NextProcessed(pending[0], own, processed))
  {
    var m, key, tail := pending[0], GetMethodSignature(pending[0]), pending[1..];
    if !KeepMethod(m, own) {
      assert KeptMethods(pending, own, processed) == KeptMethods(tail, own, processed);
    } else if key in processed {
      assert processed + {key} == processed;
      assert KeptMethods(pending, own, processed) == KeptMethods(tail, own, processed);
    } else {
      assert KeptMethods(pending, own, processed) == [m] + KeptMethods(tail, own, processed + {key});
    }
  }
}
