/**
 * What the inherited-members collector emits for one visited element, as
 * functions of the element: which superclass fields and methods are kept,
 * how repeated method signatures are dropped, and the order of the emitted
 * items. The imperative collector in module InlayCollector is proved to
 * emit exactly `InheritedHints`.
 */
module Resolution {
  import opened Psi
  import opened HintText

  /** The element a clickable hint navigates to. */
  datatype Member = FieldMember(psiField: Field) | MethodMember(psiMethod: Method)

  /** One emitted presentation: plain text, or a clickable label that
      navigates to a member. */
  datatype Hint = Text(text: string) | Clickable(text: string, target: Member)

  const FieldsHeader: string := "Inherited Fields"
  const Spacer: string := " "
  const MethodsHeader: string := "Inherited Methods "

  /** The collector emits anything only for a class whose left brace is a
      Java token and whose direct superclass exists and is not named
      `Object`. */
  predicate Active(e: Element) {
    && e.ClassElement?
    && e.psiClass.hasLBraceToken
    && e.psiClass.superClass.Some?
    && e.psiClass.superClass.value.name != "Object"
  }

  predicate KeepField(f: Field, ownFieldNames: set<string>) {
    !HasModifierProperty(f.modifiers, Private) && f.name !in ownFieldNames
  }

  predicate KeepMethod(m: Method, ownMethodNames: set<string>) {
    !HasModifierProperty(m.modifiers, Private) && !m.isConstructor && m.name !in ownMethodNames
  }

  /** The superclass fields that get an entry, in declaration order. */
  function KeptFields(fields: seq<Field>, ownFieldNames: set<string>): (kept: seq<Field>)
    decreases |fields|
  {
    if fields == [] then []
    else if KeepField(fields[0], ownFieldNames) then [fields[0]] + KeptFields(fields[1..], ownFieldNames)
    else KeptFields(fields[1..], ownFieldNames)
  }

  /** The superclass methods that get an entry, in declaration order;
      `processed` holds the signature keys already used, and a kept method
      whose key is new adds it. */
  function KeptMethods(methods: seq<Method>, ownMethodNames: set<string>, processed: set<string>): (kept: seq<Method>)
    decreases |methods|
  {
    if methods == [] then []
    else
      var m := methods[0];
      var key := GetMethodSignature(m);
      if KeepMethod(m, ownMethodNames) && key !in processed then
        [m] + KeptMethods(methods[1..], ownMethodNames, processed + {key})
      else
        KeptMethods(methods[1..], ownMethodNames, processed)
  }

  function FieldEntry(f: Field): Hint {
    Clickable(FieldHintText(f), FieldMember(f))
  }

  function MethodEntry(m: Method): Hint {
    Clickable(MethodHintText(m), MethodMember(m))
  }

  function FieldEntries(fields: seq<Field>): (r: seq<Hint>)
    ensures |r| == |fields|
    ensures forall i :: 0 <= i < |fields| ==> r[i] == FieldEntry(fields[i])
  {
    seq(|fields|, i requires 0 <= i < |fields| => FieldEntry(fields[i]))
  }

  function MethodEntries(methods: seq<Method>): (r: seq<Hint>)
    ensures |r| == |methods|
    ensures forall i :: 0 <= i < |methods| ==> r[i] == MethodEntry(methods[i])
  {
    seq(|methods|, i requires 0 <= i < |methods| => MethodEntry(methods[i]))
  }

  /** The superclass fields an active element gets entries for. */
  function InheritedFieldsOf(e: Element): seq<Field>
    requires Active(e)
  {
    KeptFields(e.psiClass.superClass.value.fields, FieldNames(e.psiClass.fields))
  }

  /** The superclass methods an active element gets entries for; the
      collector starts with no processed signature. */
  function InheritedMethodsOf(e: Element): seq<Method>
    requires Active(e)
  {
    KeptMethods(e.psiClass.superClass.value.methods, MethodNames(e.psiClass.methods), {})
  }

  /** The fields header, the field entries, the spacer, the methods header
      and the method entries. */
  function Assemble(fieldEntries: seq<Hint>, methodEntries: seq<Hint>): seq<Hint> {
    [Text(FieldsHeader)] + fieldEntries + [Text(Spacer), Text(MethodsHeader)] + methodEntries
  }

  /** Everything the collector emits for one element, in order. */
  function InheritedHints(e: Element): (hints: seq<Hint>) {
    if !Active(e) then []
    else Assemble(FieldEntries(InheritedFieldsOf(e)), MethodEntries(InheritedMethodsOf(e)))
  }

  // ---------------------------------------------------------------------
  // Reference notions the lemmas below are stated with

  /** `a` is `b` with some elements left out and the rest in their order. */
  predicate IsSubsequence<T(==)>(a: seq<T>, b: seq<T>)
    decreases |b|
  {
    if b == [] then a == []
    else (a != [] && a[0] == b[0] && IsSubsequence(a[1..], b[1..])) || IsSubsequence(a, b[1..])
  }

  /** Method `i` is kept and is the first kept method with its signature
      key, and that key was not already processed. */
  predicate FirstKept(methods: seq<Method>, ownMethodNames: set<string>, processed: set<string>, i: int) {
    && 0 <= i < |methods|
    && KeepMethod(methods[i], ownMethodNames)
    && GetMethodSignature(methods[i]) !in processed
    && forall j :: 0 <= j < i ==>
         !(KeepMethod(methods[j], ownMethodNames) && GetMethodSignature(methods[j]) == GetMethodSignature(methods[i]))
  }

  /** `m` is a method that `FirstKept` picks. */
  predicate IsFirstOfKey(methods: seq<Method>, ownMethodNames: set<string>, processed: set<string>, m: Method) {
    exists i :: 0 <= i < |methods| && methods[i] == m && FirstKept(methods, ownMethodNames, processed, i)
  }

  predicate KeysAvoid(methods: seq<Method>, processed: set<string>) {
    forall a :: 0 <= a < |methods| ==> GetMethodSignature(methods[a]) !in processed
  }

  predicate KeysDistinct(methods: seq<Method>) {
    forall a, b :: 0 <= a < b < |methods| ==> GetMethodSignature(methods[a]) != GetMethodSignature(methods[b])
  }

  function Keys(methods: seq<Method>): set<string> {
    set m | m in methods :: GetMethodSignature(m)
  }

  function KeptKeys(methods: seq<Method>, ownMethodNames: set<string>): set<string> {
    set m | m in methods && KeepMethod(m, ownMethodNames) :: GetMethodSignature(m)
  }

  predicate IsFieldEntry(h: Hint) { h.Clickable? && h.target.FieldMember? }
  predicate IsMethodEntry(h: Hint) { h.Clickable? && h.target.MethodMember? }

  function Label(target: Member): string {
    match target
    case FieldMember(f) => FieldHintText(f)
    case MethodMember(m) => MethodHintText(m)
  }

  predicate ShowsField(hints: seq<Hint>, f: Field) {
    exists p :: 0 <= p < |hints| && hints[p].Clickable? && hints[p].target == FieldMember(f)
  }

  predicate ShowsMethod(hints: seq<Hint>, m: Method) {
    exists p :: 0 <= p < |hints| && hints[p].Clickable? && hints[p].target == MethodMember(m)
  }

  // ---------------------------------------------------------------------
  // Field selection

  /** A field is kept exactly when it is declared in the superclass, is not
      private and its name is not a field name of the subject. */
  lemma {:induction false} KeptFieldsExactly(fields: seq<Field>, own: set<string>, f: Field)
    ensures f in KeptFields(fields, own) <==> f in fields && KeepField(f, own)
    decreases |fields|
  {
    if fields != [] {
      KeptFieldsExactly(fields[1..], own, f);
      assert fields == [fields[0]] + fields[1..];
    }
  }

  /** Kept fields keep their declaration order. */
  lemma {:induction false} KeptFieldsInOrder(fields: seq<Field>, own: set<string>)
    ensures IsSubsequence(KeptFields(fields, own), fields)
    decreases |fields|
  {
    if fields != [] {
      KeptFieldsInOrder(fields[1..], own);
      if KeepField(fields[0], own) {
        assert ([fields[0]] + KeptFields(fields[1..], own))[1..] == KeptFields(fields[1..], own);
      }
    }
  }

  // ---------------------------------------------------------------------
  // Method selection and deduplication

  /** Dropping the first method shifts `FirstKept` by one index, with the
      first method's key added to `processed` when it was kept. */
  lemma FirstKeptShift(methods: seq<Method>, own: set<string>, processed: set<string>, i: int)
    requires |methods| > 0 && 0 <= i < |methods| - 1
    ensures
      var key := GetMethodSignature(methods[0]);
      var next := if KeepMethod(methods[0], own) && key !in processed then processed + {key} else processed;
      FirstKept(methods, own, processed, i + 1) <==> FirstKept(methods[1..], own, next, i)
  {
    var tail := methods[1..];
    var key := GetMethodSignature(methods[0]);
    var next := if KeepMethod(methods[0], own) && key !in processed then processed + {key} else processed;
    assert methods[i + 1] == tail[i];
    var k := GetMethodSignature(tail[i]);
    if FirstKept(methods, own, processed, i + 1) {
      assert !(KeepMethod(methods[0], own) && key == k);
      forall j | 0 <= j < i
        ensures !(KeepMethod(tail[j], own) && GetMethodSignature(tail[j]) == k)
      {
        assert tail[j] == methods[j + 1];
      }
    }
    if FirstKept(tail, own, next, i) {
      forall j | 0 <= j < i + 1
        ensures !(KeepMethod(methods[j], own) && GetMethodSignature(methods[j]) == k)
      {
        if j > 0 { assert methods[j] == tail[j - 1]; }
      }
    }
  }

  /** A method is kept exactly when it is the first kept method with its
      signature key (a key already processed never comes back). */
  lemma {:induction false} KeptMethodsAreFirstOfTheirKey(methods: seq<Method>, own: set<string>, processed: set<string>, m: Method)
    ensures m in KeptMethods(methods, own, processed) <==> IsFirstOfKey(methods, own, processed, m)
    decreases |methods|
  {
    if methods != [] {
      var tail := methods[1..];
      var key := GetMethodSignature(methods[0]);
      var keep0 := KeepMethod(methods[0], own) && key !in processed;
      var next := if keep0 then processed + {key} else processed;
      KeptMethodsAreFirstOfTheirKey(tail, own, next, m);
      assert keep0 <==> FirstKept(methods, own, processed, 0);
      if m in KeptMethods(methods, own, processed) {
        if keep0 && m == methods[0] {
          assert FirstKept(methods, own, processed, 0);
        } else {
          var i :| 0 <= i < |tail| && tail[i] == m && FirstKept(tail, own, next, i);
          FirstKeptShift(methods, own, processed, i);
          assert methods[i + 1] == m;
        }
      }
      if exists i :: 0 <= i < |methods| && methods[i] == m && FirstKept(methods, own, processed, i) {
        var i :| 0 <= i < |methods| && methods[i] == m && FirstKept(methods, own, processed, i);
        if i > 0 {
          FirstKeptShift(methods, own, processed, i - 1);
          assert tail[i - 1] == m;
        }
      }
    }
  }

  /** No two kept methods share a signature key, and none reuses a key
      already processed. */
  lemma {:induction false} KeptMethodsHaveDistinctKeys(methods: seq<Method>, own: set<string>, processed: set<string>)
    ensures KeysAvoid(KeptMethods(methods, own, processed), processed)
    ensures KeysDistinct(KeptMethods(methods, own, processed))
    decreases |methods|
  {
    if methods != [] {
      var key := GetMethodSignature(methods[0]);
      if KeepMethod(methods[0], own) && key !in processed {
        var rest := KeptMethods(methods[1..], own, processed + {key});
        KeptMethodsHaveDistinctKeys(methods[1..], own, processed + {key});
        var r := [methods[0]] + rest;
        forall a | 0 <= a < |r|
          ensures GetMethodSignature(r[a]) !in processed
        {
          if a > 0 {
            assert r[a] == rest[a - 1];
            assert GetMethodSignature(rest[a - 1]) !in processed + {key};
          }
        }
        forall a, b | 0 <= a < b < |r|
          ensures GetMethodSignature(r[a]) != GetMethodSignature(r[b])
        {
          assert r[b] == rest[b - 1];
          assert GetMethodSignature(rest[b - 1]) !in processed + {key};
          if a > 0 {
            assert r[a] == rest[a - 1];
            assert GetMethodSignature(rest[a - 1]) != GetMethodSignature(rest[b - 1]);
          }
        }
      } else {
        KeptMethodsHaveDistinctKeys(methods[1..], own, processed);
        assert KeptMethods(methods, own, processed) == KeptMethods(methods[1..], own, processed);
      }
    }
  }

  /** Every signature key of a kept superclass method that was not already
      processed gets exactly its one entry: the keys of the kept methods are
      exactly those keys. */
  lemma {:induction false} KeptMethodsCoverKeys(methods: seq<Method>, own: set<string>, processed: set<string>)
    ensures Keys(KeptMethods(methods, own, processed)) == KeptKeys(methods, own) - processed
    decreases |methods|
  {
    if methods != [] {
      var m0 := methods[0];
      var tail := methods[1..];
      var key := GetMethodSignature(m0);
      assert methods == [m0] + tail;
      var tailKeys := KeptKeys(tail, own);
      assert KeptKeys(methods, own) == (if KeepMethod(m0, own) then {key} else {}) + tailKeys;
      if KeepMethod(m0, own) && key !in processed {
        KeptMethodsCoverKeys(tail, own, processed + {key});
        var rest := KeptMethods(tail, own, processed + {key});
        assert Keys([m0] + rest) == {key} + Keys(rest);
      } else {
        KeptMethodsCoverKeys(tail, own, processed);
      }
    }
  }

  /** Kept methods keep their declaration order. */
  lemma {:induction false} KeptMethodsInOrder(methods: seq<Method>, own: set<string>, processed: set<string>)
    ensures IsSubsequence(KeptMethods(methods, own, processed), methods)
    decreases |methods|
  {
    if methods != [] {
      var key := GetMethodSignature(methods[0]);
      if KeepMethod(methods[0], own) && key !in processed {
        KeptMethodsInOrder(methods[1..], own, processed + {key});
        var rest := KeptMethods(methods[1..], own, processed + {key});
        assert ([methods[0]] + rest)[1..] == rest;
      } else {
        KeptMethodsInOrder(methods[1..], own, processed);
      }
    }
  }

  // ---------------------------------------------------------------------
  // The emitted sequence

  /** Nothing at all is emitted (no headers either) exactly when the element
      is not a class, has no left-brace token, has no superclass or has a
      superclass named `Object`. */
  lemma NothingEmittedUnlessActive(e: Element)
    ensures InheritedHints(e) == [] <==> !Active(e)
  {
  }

  /** The texts of the plain (non-clickable) items, in order. */
  function PlainTexts(hints: seq<Hint>): seq<string>
    decreases |hints|
  {
    if hints == [] then []
    else (if hints[0].Text? then [hints[0].text] else []) + PlainTexts(hints[1..])
  }

  lemma {:induction false} PlainTextsOfConcat(a: seq<Hint>, b: seq<Hint>)
    ensures PlainTexts(a + b) == PlainTexts(a) + PlainTexts(b)
    decreases |a|
  {
    if a != [] {
      assert (a + b)[0] == a[0];
      assert (a + b)[1..] == a[1..] + b;
      PlainTextsOfConcat(a[1..], b);
    } else {
      assert a + b == b;
    }
  }

  lemma {:induction false} PlainTextsOfEntries(hints: seq<Hint>)
    requires forall p :: 0 <= p < |hints| ==> hints[p].Clickable?
    ensures PlainTexts(hints) == []
    decreases |hints|
  {
    if hints != [] {
      PlainTextsOfEntries(hints[1..]);
    }
  }

  /** `entries` are clickable hints navigating to the fields `fs`, one by
      one. */
  predicate FieldEntriesFor(entries: seq<Hint>, fs: seq<Field>) {
    && |entries| == |fs|
    && forall i :: 0 <= i < |entries| ==> entries[i].Clickable? && entries[i].target == FieldMember(fs[i])
  }

  /** `entries` are clickable hints navigating to the methods `ms`, one by
      one. */
  predicate MethodEntriesFor(entries: seq<Hint>, ms: seq<Method>) {
    && |entries| == |ms|
    && forall i :: 0 <= i < |entries| ==> entries[i].Clickable? && entries[i].target == MethodMember(ms[i])
  }

  lemma EntriesNavigateToTheirMembers(fs: seq<Field>, ms: seq<Method>)
    ensures FieldEntriesFor(FieldEntries(fs), fs)
    ensures MethodEntriesFor(MethodEntries(ms), ms)
  {
  }

  /** The assembled hints, position by position. */
  lemma AssembleIndices(fe: seq<Hint>, me: seq<Hint>)
    ensures var r := Assemble(fe, me);
      && |r| == |fe| + 3 + |me|
      && r[0] == Text(FieldsHeader)
      && r[|fe| + 1] == Text(Spacer)
      && r[|fe| + 2] == Text(MethodsHeader)
      && (forall p :: 1 <= p <= |fe| ==> r[p] == fe[p - 1])
      && (forall p :: |fe| + 3 <= p < |r| ==> r[p] == me[p - |fe| - 3])
  {
  }

  /** The hints of an active element, position by position. */
  lemma Parts(e: Element)
    requires Active(e)
    ensures var fs := InheritedFieldsOf(e);
      var ms := InheritedMethodsOf(e);
      var r := InheritedHints(e);
      && |r| == |fs| + 3 + |ms|
      && r[0] == Text(FieldsHeader)
      && r[|fs| + 1] == Text(Spacer)
      && r[|fs| + 2] == Text(MethodsHeader)
      && (forall p :: 1 <= p <= |fs| ==> r[p] == FieldEntry(fs[p - 1]))
      && (forall p :: |fs| + 3 <= p < |r| ==> r[p] == MethodEntry(ms[p - |fs| - 3]))
  {
    AssembleIndices(FieldEntries(InheritedFieldsOf(e)), MethodEntries(InheritedMethodsOf(e)));
  }

  lemma AssemblePlainTexts(fe: seq<Hint>, me: seq<Hint>)
    requires forall p :: 0 <= p < |fe| ==> fe[p].Clickable?
    requires forall p :: 0 <= p < |me| ==> me[p].Clickable?
    ensures PlainTexts(Assemble(fe, me)) == [FieldsHeader, Spacer, MethodsHeader]
  {
    var head := [Text(FieldsHeader)];
    var mid := [Text(Spacer), Text(MethodsHeader)];
    assert Assemble(fe, me) == head + fe + mid + me;
    PlainTextsOfConcat(head + fe + mid, me);
    PlainTextsOfConcat(head + fe, mid);
    PlainTextsOfConcat(head, fe);
    PlainTextsOfEntries(fe);
    PlainTextsOfEntries(me);
    assert mid[1..] == [Text(MethodsHeader)];
    assert mid[1..][1..] == [];
    assert PlainTexts(mid) == [Spacer, MethodsHeader];
  }

  /** Where the entries of the assembled hints sit and what they navigate to. */
  lemma AssembleTargets(fe: seq<Hint>, me: seq<Hint>, fs: seq<Field>, ms: seq<Method>)
    requires FieldEntriesFor(fe, fs) && MethodEntriesFor(me, ms)
    ensures var r := Assemble(fe, me);
      && (forall p :: 0 <= p < |r| && IsFieldEntry(r[p]) ==>
            1 <= p <= |fs| && r[p].target.psiField == fs[p - 1])
      && (forall p :: 0 <= p < |r| && IsMethodEntry(r[p]) ==>
            |fs| + 3 <= p && r[p].target.psiMethod == ms[p - |fs| - 3])
      && (forall p :: 1 <= p <= |fs| ==> IsFieldEntry(r[p]))
      && (forall p :: |fs| + 3 <= p < |r| ==> IsMethodEntry(r[p]))
  {
    AssembleIndices(fe, me);
  }

  lemma AssembleOrder(fe: seq<Hint>, me: seq<Hint>, fs: seq<Field>, ms: seq<Method>)
    requires FieldEntriesFor(fe, fs) && MethodEntriesFor(me, ms)
    ensures var r := Assemble(fe, me);
      && (forall p, q :: 0 <= p < q < |r| && IsFieldEntry(r[q]) ==> IsFieldEntry(r[p]) || p == 0)
      && (forall p, q :: 0 <= p < q < |r| && IsMethodEntry(r[p]) ==> IsMethodEntry(r[q]))
  {
    AssembleTargets(fe, me, fs, ms);
  }

  /** The layout: the plain items are exactly the fields header, the spacer
      and the methods header, in that order, and they are there even when no
      member is kept; the header comes first; nothing but a field entry or
      the header precedes a field entry; nothing but a method entry follows
      a method entry. */
  lemma Layout(e: Element)
    requires Active(e)
    ensures var r := InheritedHints(e);
      && PlainTexts(r) == [FieldsHeader, Spacer, MethodsHeader]
      && r[0] == Text(FieldsHeader)
      && (forall p, q :: 0 <= p < q < |r| && IsFieldEntry(r[q]) ==> IsFieldEntry(r[p]) || p == 0)
      && (forall p, q :: 0 <= p < q < |r| && IsMethodEntry(r[p]) ==> IsMethodEntry(r[q]))
  {
    var fs, ms := InheritedFieldsOf(e), InheritedMethodsOf(e);
    var fe, me := FieldEntries(fs), MethodEntries(ms);
    EntriesNavigateToTheirMembers(fs, ms);
    AssemblePlainTexts(fe, me);
    AssembleOrder(fe, me, fs, ms);
    AssembleIndices(fe, me);
  }

  /** A clickable entry's label is the label of the member it navigates to. */
  lemma EntryLabels(e: Element)
    ensures var r := InheritedHints(e);
      forall p :: 0 <= p < |r| && r[p].Clickable? ==> r[p].text == Label(r[p].target)
  {
    if Active(e) {
      AssembleIndices(FieldEntries(InheritedFieldsOf(e)), MethodEntries(InheritedMethodsOf(e)));
    }
  }

  lemma AssembleShowsField(fe: seq<Hint>, me: seq<Hint>, fs: seq<Field>, ms: seq<Method>, f: Field)
    requires FieldEntriesFor(fe, fs) && MethodEntriesFor(me, ms)
    ensures ShowsField(Assemble(fe, me), f) <==> f in fs
  {
    var r := Assemble(fe, me);
    AssembleTargets(fe, me, fs, ms);
    if ShowsField(r, f) {
      var p :| 0 <= p < |r| && r[p].Clickable? && r[p].target == FieldMember(f);
      assert IsFieldEntry(r[p]);
    }
    if f in fs {
      var i :| 0 <= i < |fs| && fs[i] == f;
      assert IsFieldEntry(r[i + 1]);
    }
  }

  lemma AssembleShowsMethod(fe: seq<Hint>, me: seq<Hint>, fs: seq<Field>, ms: seq<Method>, m: Method)
    requires FieldEntriesFor(fe, fs) && MethodEntriesFor(me, ms)
    ensures ShowsMethod(Assemble(fe, me), m) <==> m in ms
  {
    var r := Assemble(fe, me);
    AssembleTargets(fe, me, fs, ms);
    if ShowsMethod(r, m) {
      var p :| 0 <= p < |r| && r[p].Clickable? && r[p].target == MethodMember(m);
      assert IsMethodEntry(r[p]);
    }
    if m in ms {
      var i :| 0 <= i < |ms| && ms[i] == m;
      assert IsMethodEntry(r[i + |fs| + 3]);
    }
  }

  /** An inherited field has an entry exactly when the element is active and
      the field is a non-private field of the direct superclass whose name no
      field of the subject uses. */
  lemma FieldShownExactly(e: Element, f: Field)
    ensures ShowsField(InheritedHints(e), f) <==>
      && Active(e)
      && f in e.psiClass.superClass.value.fields
      && KeepField(f, FieldNames(e.psiClass.fields))
  {
    if Active(e) {
      var fs, ms := InheritedFieldsOf(e), InheritedMethodsOf(e);
      EntriesNavigateToTheirMembers(fs, ms);
      AssembleShowsField(FieldEntries(fs), MethodEntries(ms), fs, ms, f);
      KeptFieldsExactly(e.psiClass.superClass.value.fields, FieldNames(e.psiClass.fields), f);
    }
  }

  /** An inherited method has an entry exactly when the element is active
      and the method is, in superclass declaration order, the first
      non-private, non-constructor method with its signature key whose name
      no method of the subject uses. Overloads of a subject method are
      suppressed with it, since only the name is compared. */
  lemma MethodShownExactly(e: Element, m: Method)
    ensures ShowsMethod(InheritedHints(e), m) <==>
      && Active(e)
      && IsFirstOfKey(e.psiClass.superClass.value.methods, MethodNames(e.psiClass.methods), {}, m)
  {
    if Active(e) {
      var fs, ms := InheritedFieldsOf(e), InheritedMethodsOf(e);
      EntriesNavigateToTheirMembers(fs, ms);
      AssembleShowsMethod(FieldEntries(fs), MethodEntries(ms), fs, ms, m);
      KeptMethodsAreFirstOfTheirKey(e.psiClass.superClass.value.methods, MethodNames(e.psiClass.methods), {}, m);
    }
  }

  lemma AssembleDistinctKeys(fe: seq<Hint>, me: seq<Hint>, fs: seq<Field>, ms: seq<Method>)
    requires FieldEntriesFor(fe, fs) && MethodEntriesFor(me, ms)
    requires KeysDistinct(ms)
    ensures var r := Assemble(fe, me);
      forall p, q :: 0 <= p < q < |r| && IsMethodEntry(r[p]) && IsMethodEntry(r[q]) ==>
        GetMethodSignature(r[p].target.psiMethod) != GetMethodSignature(r[q].target.psiMethod)
  {
    var r := Assemble(fe, me);
    AssembleTargets(fe, me, fs, ms);
    forall p, q | 0 <= p < q < |r| && IsMethodEntry(r[p]) && IsMethodEntry(r[q])
      ensures GetMethodSignature(r[p].target.psiMethod) != GetMethodSignature(r[q].target.psiMethod)
    {
      var a, b := p - |fs| - 3, q - |fs| - 3;
      assert r[p].target.psiMethod == ms[a] && r[q].target.psiMethod == ms[b];
    }
  }

  /** No two method entries carry one signature key. */
  lemma AtMostOneEntryPerSignature(e: Element)
    ensures var r := InheritedHints(e);
      forall p, q :: 0 <= p < q < |r| && IsMethodEntry(r[p]) && IsMethodEntry(r[q]) ==>
        GetMethodSignature(r[p].target.psiMethod) != GetMethodSignature(r[q].target.psiMethod)
  {
    if Active(e) {
      KeptMethodsHaveDistinctKeys(e.psiClass.superClass.value.methods, MethodNames(e.psiClass.methods), {});
      var fs, ms := InheritedFieldsOf(e), InheritedMethodsOf(e);
      EntriesNavigateToTheirMembers(fs, ms);
      AssembleDistinctKeys(FieldEntries(fs), MethodEntries(ms), fs, ms);
    }
  }

  /** Every signature key of a kept superclass method shows up on some
      method entry. */
  lemma EverySignatureShown(e: Element, m: Method)
    requires Active(e)
    requires m in e.psiClass.superClass.value.methods
    requires KeepMethod(m, MethodNames(e.psiClass.methods))
    ensures var r := InheritedHints(e);
      exists p :: 0 <= p < |r| && IsMethodEntry(r[p])
        && GetMethodSignature(r[p].target.psiMethod) == GetMethodSignature(m)
  {
    var methods := e.psiClass.superClass.value.methods;
    var own := MethodNames(e.psiClass.methods);
    var kept := InheritedMethodsOf(e);
    var r := InheritedHints(e);
    KeptMethodsCoverKeys(methods, own, {});
    var key := GetMethodSignature(m);
    assert key in KeptKeys(methods, own);
    assert key in Keys(kept);
    var n :| n in kept && GetMethodSignature(n) == key;
    var fs := InheritedFieldsOf(e);
    EntriesNavigateToTheirMembers(fs, kept);
    AssembleShowsMethod(FieldEntries(fs), MethodEntries(kept), fs, kept, n);
    var p :| 0 <= p < |r| && r[p].Clickable? && r[p].target == MethodMember(n);
    assert IsMethodEntry(r[p]);
  }

  /** Entries come in superclass declaration order: the kept fields and
      the kept methods are each a subsequence of the superclass's
      declarations (and `EntryTargets` puts the entries in the order of the
      kept members). */
  lemma EntriesInDeclarationOrder(e: Element)
    requires Active(e)
    ensures IsSubsequence(InheritedFieldsOf(e), e.psiClass.superClass.value.fields)
    ensures IsSubsequence(InheritedMethodsOf(e), e.psiClass.superClass.value.methods)
  {
    KeptFieldsInOrder(e.psiClass.superClass.value.fields, FieldNames(e.psiClass.fields));
    KeptMethodsInOrder(e.psiClass.superClass.value.methods, MethodNames(e.psiClass.methods), {});
  }

  /** The field entries navigate to the kept fields one by one, in order,
      right after the fields header, and the method entries likewise to the
      kept methods right after the methods header. */
  lemma EntryTargets(e: Element)
    requires Active(e)
    ensures var fs := InheritedFieldsOf(e);
      var ms := InheritedMethodsOf(e);
      var r := InheritedHints(e);
      && (forall p :: 0 <= p < |r| && IsFieldEntry(r[p]) ==>
            1 <= p <= |fs| && r[p].target.psiField == fs[p - 1])
      && (forall p :: 0 <= p < |r| && IsMethodEntry(r[p]) ==>
            |fs| + 3 <= p && r[p].target.psiMethod == ms[p - |fs| - 3])
  {
    var fs, ms := InheritedFieldsOf(e), InheritedMethodsOf(e);
    EntriesNavigateToTheirMembers(fs, ms);
    AssembleTargets(FieldEntries(fs), MethodEntries(ms), fs, ms);
  }

  /** No entry comes from a private member or a constructor, and no entry
      carries a field name or a method name the subject itself declares. */
  lemma SubjectMembersNeverEmitted(e: Element)
    requires e.ClassElement?
    ensures var r := InheritedHints(e);
      && (forall p :: 0 <= p < |r| && IsFieldEntry(r[p]) ==>
            r[p].target.psiField.name !in FieldNames(e.psiClass.fields)
            && !HasModifierProperty(r[p].target.psiField.modifiers, Private))
      && (forall p :: 0 <= p < |r| && IsMethodEntry(r[p]) ==>
            r[p].target.psiMethod.name !in MethodNames(e.psiClass.methods)
            && !HasModifierProperty(r[p].target.psiMethod.modifiers, Private)
            && !r[p].target.psiMethod.isConstructor)
  {
    var r := InheritedHints(e);
    forall p | 0 <= p < |r| && IsFieldEntry(r[p])
      ensures r[p].target.psiField.name !in FieldNames(e.psiClass.fields)
      ensures !HasModifierProperty(r[p].target.psiField.modifiers, Private)
    {
      FieldShownExactly(e, r[p].target.psiField);
    }
    forall p | 0 <= p < |r| && IsMethodEntry(r[p])
      ensures r[p].target.psiMethod.name !in MethodNames(e.psiClass.methods)
      ensures !HasModifierProperty(r[p].target.psiMethod.modifiers, Private)
      ensures !r[p].target.psiMethod.isConstructor
    {
      var m := r[p].target.psiMethod;
      MethodShownExactly(e, m);
      var methods := e.psiClass.superClass.value.methods;
      var i :| 0 <= i < |methods| && methods[i] == m && FirstKept(methods, MethodNames(e.psiClass.methods), {}, i);
    }
  }

  /** Only the direct superclass's own declarations matter: two subjects
      with one left-brace state, one set of own field names and one set of
      own method names, whose superclasses agree on name, fields and methods,
      get the same hints, whatever lies above the superclass. */
  lemma OnlyDirectSuperclassMatters(c1: Class, c2: Class)
    requires c1.hasLBraceToken == c2.hasLBraceToken
    requires FieldNames(c1.fields) == FieldNames(c2.fields)
    requires MethodNames(c1.methods) == MethodNames(c2.methods)
    requires c1.superClass.Some? == c2.superClass.Some?
    requires c1.superClass.Some? ==>
      && c1.superClass.value.name == c2.superClass.value.name
      && c1.superClass.value.fields == c2.superClass.value.fields
      && c1.superClass.value.methods == c2.superClass.value.methods
    ensures InheritedHints(ClassElement(c1)) == InheritedHints(ClassElement(c2))
  {
  }
}
