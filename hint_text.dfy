/**
 * The text the provider renders for an inherited member, and the signature
 * key it deduplicates methods by (`buildHintText`, `getMethodSignature` and
 * the two label formats inside the collector).
 */
module HintText {
  import opened Psi

  predicate StartsWith(s: string, prefix: string) {
    |prefix| <= |s| && s[..|prefix|] == prefix
  }

  predicate EndsWith(s: string, suffix: string) {
    |suffix| <= |s| && s[|s| - |suffix|..] == suffix
  }

  /** `Collectors.joining(sep)`: the parts in order, with `sep` between
      neighbours and nowhere else. */
  function Join(parts: seq<string>, sep: string): (r: string)
    decreases |parts|
  {
    if |parts| == 0 then ""
    else if |parts| == 1 then parts[0]
    else parts[0] + sep + Join(parts[1..], sep)
  }

  /** A joined text starts with the first part and ends with the last. */
  lemma {:induction false} JoinShape(parts: seq<string>, sep: string)
    requires |parts| > 0
    ensures StartsWith(Join(parts, sep), parts[0])
    ensures EndsWith(Join(parts, sep), parts[|parts| - 1])
    decreases |parts|
  {
    if |parts| > 1 {
      var rest := Join(parts[1..], sep);
      JoinShape(parts[1..], sep);
      assert parts[1..][|parts[1..]| - 1] == parts[|parts| - 1];
      var r := parts[0] + sep + rest;
      assert r[..|parts[0]|] == parts[0];
      assert r[|r| - |parts[|parts| - 1]|..] == rest[|rest| - |parts[|parts| - 1]|..];
    }
  }

  function PresentableTexts(types: seq<PsiType>): (r: seq<string>)
    ensures |r| == |types|
    ensures forall i :: 0 <= i < |types| ==> r[i] == types[i].presentable
  {
    seq(|types|, i requires 0 <= i < |types| => types[i].presentable)
  }

  function CanonicalTexts(types: seq<PsiType>): (r: seq<string>)
    ensures |r| == |types|
    ensures forall i :: 0 <= i < |types| ==> r[i] == types[i].canonical
  {
    seq(|types|, i requires 0 <= i < |types| => types[i].canonical)
  }

  /** The return type's presentable text, or `void` when there is none. */
  function ReturnText(m: Method): string {
    match m.returnType
    case Some(t) => t.presentable
    case None => "void"
  }

  /** `buildHintText`: `<returnType> <name>(<presentable types joined by ", ">)`. */
  function BuildHintText(m: Method): (text: string) {
    ReturnText(m) + " " + m.name + "(" + Join(PresentableTexts(m.parameters), ", ") + ")"
  }

  /** The method text opens with the return type (`void` when there is none),
      a space, the name and `(`, closes with `)`, and lists exactly the
      presentable type of a lone parameter. */
  lemma BuildHintTextShape(m: Method)
    ensures StartsWith(BuildHintText(m), ReturnText(m) + " " + m.name + "(")
    ensures m.returnType.None? ==> StartsWith(BuildHintText(m), "void ")
    ensures EndsWith(BuildHintText(m), ")")
    ensures m.parameters == [] ==> BuildHintText(m) == ReturnText(m) + " " + m.name + "()"
    ensures |m.parameters| == 1 ==>
      BuildHintText(m) == ReturnText(m) + " " + m.name + "(" + m.parameters[0].presentable + ")"
  {
    var head := ReturnText(m) + " " + m.name + "(";
    var r := BuildHintText(m);
    assert r == head + Join(PresentableTexts(m.parameters), ", ") + ")";
    assert r[..|head|] == head;
    if m.returnType.None? {
      assert head[..5] == "void ";
      assert r[..5] == head[..5];
    }
    if m.parameters == [] {
      assert PresentableTexts(m.parameters) == [];
    }
  }

  /** `getMethodSignature`: `<name>(<canonical types joined by ",">)`, the
      key repeated methods are dropped by. */
  function GetMethodSignature(m: Method): (key: string) {
    m.name + "(" + Join(CanonicalTexts(m.parameters), ",") + ")"
  }

  /** A signature key opens with the name and `(`, closes with `)`, and uses
      the canonical, not the presentable, parameter texts. */
  lemma GetMethodSignatureShape(m: Method)
    ensures StartsWith(GetMethodSignature(m), m.name + "(")
    ensures EndsWith(GetMethodSignature(m), ")")
    ensures m.parameters == [] ==> GetMethodSignature(m) == m.name + "()"
    ensures |m.parameters| == 1 ==>
      GetMethodSignature(m) == m.name + "(" + m.parameters[0].canonical + ")"
  {
    var r := GetMethodSignature(m);
    assert r[..|m.name| + 1] == m.name + "(";
    if m.parameters == [] {
      assert CanonicalTexts(m.parameters) == [];
    }
  }

  /** The visibility word of a field label: anything not protected is
      labelled `public`, package-private members included. */
  function FieldVisibility(modifiers: set<Modifier>): string {
    if HasModifierProperty(modifiers, Protected) then "protected" else "public"
  }

  /** The field label `<vis> <presentableType> <name>`. */
  function FieldHintText(f: Field): (text: string) {
    FieldVisibility(f.modifiers) + " " + f.fieldType.presentable + " " + f.name
  }

  /** A field label starts with `protected ` exactly when the field is
      protected and with `public ` exactly when it is not (package-private
      fields included), and ends with a space and the field's name. */
  lemma FieldHintTextShape(f: Field)
    ensures StartsWith(FieldHintText(f), "protected ") <==> Protected in f.modifiers
    ensures StartsWith(FieldHintText(f), "public ") <==> Protected !in f.modifiers
    ensures EndsWith(FieldHintText(f), " " + f.name)
  {
    var r := FieldHintText(f);
    assert r[|r| - |" " + f.name|..] == " " + f.name;
    if Protected in f.modifiers {
      assert r[..10] == "protected ";
      assert r[1] == 'r';
    } else {
      assert r[..7] == "public ";
      assert r[1] == 'u';
    }
  }

  /** The method prefix: `protected ` (one space) or `public  ` (two spaces). */
  function MethodVisibilityPrefix(modifiers: set<Modifier>): string {
    if HasModifierProperty(modifiers, Protected) then "protected " else "public  "
  }

  /** The method label: the visibility prefix followed by `buildHintText`. */
  function MethodHintText(m: Method): (text: string) {
    MethodVisibilityPrefix(m.modifiers) + BuildHintText(m)
  }

  /** A method label starts with `protected ` exactly when the method is
      protected and with `public  ` (two spaces) exactly when it is not
      (package-private methods included), and ends with `buildHintText`. */
  lemma MethodHintTextShape(m: Method)
    ensures StartsWith(MethodHintText(m), "protected ") <==> Protected in m.modifiers
    ensures StartsWith(MethodHintText(m), "public  ") <==> Protected !in m.modifiers
    ensures EndsWith(MethodHintText(m), BuildHintText(m))
  {
    var prefix := MethodVisibilityPrefix(m.modifiers);
    var body := BuildHintText(m);
    var r := prefix + body;
    assert r[|r| - |body|..] == body;
    assert r[..|prefix|] == prefix;
    assert r[1] == prefix[1];
  }

  /** The text before the first `(`: what a signature key says the name is. */
  function NameBeforeParen(s: string): (r: string)
    ensures StartsWith(s, r)
    ensures '(' !in r
  {
    if s == [] then []
    else if s[0] == '(' then []
    else
      var r := [s[0]] + NameBeforeParen(s[1..]);
      assert s == [s[0]] + s[1..];
      r
  }

  lemma {:induction false} NameBeforeParenOfConcat(name: string, rest: string)
    requires '(' !in name
    ensures NameBeforeParen(name + "(" + rest) == name
    decreases |name|
  {
    if name == [] {
      assert (name + "(" + rest)[0] == '(';
    } else {
      var s := name + "(" + rest;
      assert s[0] == name[0];
      assert s[1..] == name[1..] + "(" + rest;
      NameBeforeParenOfConcat(name[1..], rest);
      assert name == [name[0]] + name[1..];
    }
  }

  /** The signature key gives back the method's name (Java identifiers never
      contain `(`). */
  lemma SignatureYieldsName(m: Method)
    requires '(' !in m.name
    ensures NameBeforeParen(GetMethodSignature(m)) == m.name
  {
    var rest := Join(CanonicalTexts(m.parameters), ",") + ")";
    assert GetMethodSignature(m) == m.name + "(" + rest;
    NameBeforeParenOfConcat(m.name, rest);
  }

  /** Two methods with one signature key have one name: the key never merges
      methods whose names differ. */
  lemma SameSignatureSameName(m1: Method, m2: Method)
    requires '(' !in m1.name && '(' !in m2.name
    requires GetMethodSignature(m1) == GetMethodSignature(m2)
    ensures m1.name == m2.name
  {
    SignatureYieldsName(m1);
    SignatureYieldsName(m2);
  }

  /** The key is made of the name and the canonical parameter texts alone:
      return type, presentable texts, modifiers and the constructor flag do
      not take part. */
  lemma SignatureIgnoresAllButNameAndCanonicalTypes(m1: Method, m2: Method)
    requires m1.name == m2.name
    requires CanonicalTexts(m1.parameters) == CanonicalTexts(m2.parameters)
    ensures GetMethodSignature(m1) == GetMethodSignature(m2)
  {
  }
}
