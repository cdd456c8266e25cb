/**
 * The slice of IntelliJ's program structure interface (PSI) that the
 * inherited-members inlay provider reads, replaced by plain values.
 *
 * Type texts (presentable and canonical) are computed by the IDE; here they
 * are strings already present in the input.
 */
module Psi {

  datatype Option<+T> = None | Some(value: T)

  /** A modifier keyword as reported by `hasModifierProperty`. */
  datatype Modifier = Public | Protected | Private | Static | Final | Abstract

  /** A `PsiType`: its short display text and its fully qualified text. */
  datatype PsiType = PsiType(presentable: string, canonical: string)

  datatype Field = Field(name: string, fieldType: PsiType, modifiers: set<Modifier>)

  /** A method; `returnType` is `None` for a constructor (and wherever the
      IDE reports no return type). `parameters` holds the parameter types in
      declaration order. */
  datatype Method = Method(
    name: string,
    returnType: Option<PsiType>,
    parameters: seq<PsiType>,
    modifiers: set<Modifier>,
    isConstructor: bool)

  /** A class as the collector sees it: its simple name (`getName`), whether
      its left brace is a real Java token (`getLBrace() instanceof
      PsiJavaToken`), its own declared fields and methods in declaration order
      (`getFields`, `getMethods`) and its direct superclass (`getSuperClass`). */
  datatype Class = Class(
    name: string,
    hasLBraceToken: bool,
    fields: seq<Field>,
    methods: seq<Method>,
    superClass: Option<Class>)

  /** An element the inlay pass visits; only classes produce hints. */
  datatype Element = ClassElement(psiClass: Class) | OtherElement

  predicate HasModifierProperty(modifiers: set<Modifier>, m: Modifier) {
    m in modifiers
  }

  /** The set of names a class's own fields use (`currentFieldNames`). */
  function FieldNames(fields: seq<Field>): (names: set<string>)
    ensures forall f :: f in fields ==> f.name in names
    ensures forall n :: n in names ==> exists f :: f in fields && f.name == n
  {
    set f | f in fields :: f.name
  }

  /** The set of names a class's own methods use (`currentMethodNames`). */
  function MethodNames(methods: seq<Method>): (names: set<string>)
    ensures forall m :: m in methods ==> m.name in names
    ensures forall n :: n in names ==> exists m :: m in methods && m.name == n
  {
    set m | m in methods :: m.name
  }
}
