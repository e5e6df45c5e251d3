/**
 * Inline error display for contact-form fields. A field carries an `error`
 * flag; its parent container holds an ordered list of children, among which
 * `.error-message` elements. Showing an error finds the first such child or
 * appends a new one, then overwrites its text; clearing removes that child.
 */
module FieldErrors {
  import opened Wrappers
  import opened Validation

  /** A child of a field's parent container. */
  datatype Child = ErrorMessage(text: string) | Other(name: string)

  /** `querySelector('.error-message')` on the container: the first error-message child, if any. */
  function FirstErrorMessage(cs: seq<Child>): (r: Option<nat>)
    ensures r.Some? ==>
              r.value < |cs| && cs[r.value].ErrorMessage? && forall j :: 0 <= j < r.value ==> !cs[j].ErrorMessage?
    ensures r.None? ==> forall j :: 0 <= j < |cs| ==> !cs[j].ErrorMessage?
  {
    if cs == [] then None
    else if cs[0].ErrorMessage? then Some(0)
    else match FirstErrorMessage(cs[1..])
      case None => None
      case Some(k) => Some(k + 1)
  }

  /** Number of error-message children. */
  function ErrorCount(cs: seq<Child>): nat {
    if cs == [] then 0 else (if cs[0].ErrorMessage? then 1 else 0) + ErrorCount(cs[1..])
  }

  /** The children that are not error messages, in order. */
  function Others(cs: seq<Child>): seq<Child> {
    if cs == [] then [] else (if cs[0].ErrorMessage? then [] else [cs[0]]) + Others(cs[1..])
  }

  /** The children after `showFieldError(field, message)`. */
  function WithErrorMessage(cs: seq<Child>, message: string): (r: seq<Child>)
    ensures ErrorMessage(message) in r
    ensures |cs| <= |r| <= |cs| + 1
  {
    match FirstErrorMessage(cs)
    case None => cs + [ErrorMessage(message)]
    case Some(i) =>
      var r := cs[i := ErrorMessage(message)];
      assert r[i] == ErrorMessage(message);
      r
  }

  /** The children after `clearFieldError`. */
  function WithoutErrorMessage(cs: seq<Child>): (r: seq<Child>)
    ensures forall c :: c in r ==> c in cs
    ensures FirstErrorMessage(cs).None? <==> r == cs
  {
    match FirstErrorMessage(cs)
    case None => cs
    case Some(i) => cs[..i] + cs[i + 1..]
  }

  lemma {:induction false} CountAndOthersSplit(a: seq<Child>, b: seq<Child>)
    ensures ErrorCount(a + b) == ErrorCount(a) + ErrorCount(b)
    ensures Others(a + b) == Others(a) + Others(b)
  {
    if a != [] {
      assert (a + b)[1..] == a[1..] + b;
      CountAndOthersSplit(a[1..], b);
    } else {
      assert a + b == b;
    }
  }

  lemma {:induction false} NoErrorMessages(cs: seq<Child>)
    requires forall j :: 0 <= j < |cs| ==> !cs[j].ErrorMessage?
    ensures ErrorCount(cs) == 0 && Others(cs) == cs
  {
    if cs != [] {
      NoErrorMessages(cs[1..]);
    }
  }

  /** Splits the children around their first error message. */
  lemma AroundFirst(cs: seq<Child>, i: nat)
    requires FirstErrorMessage(cs) == Some(i)
    ensures ErrorCount(cs) == 1 + ErrorCount(cs[i + 1..])
    ensures Others(cs) == cs[..i] + Others(cs[i + 1..])
  {
    assert cs == cs[..i] + [cs[i]] + cs[i + 1..];
    CountAndOthersSplit(cs[..i] + [cs[i]], cs[i + 1..]);
    CountAndOthersSplit(cs[..i], [cs[i]]);
    NoErrorMessages(cs[..i]);
    assert [cs[i]][1..] == [];
  }

  /** The first error message is determined by its position alone. */
  lemma FirstAt(cs: seq<Child>, i: nat)
    requires i < |cs| && cs[i].ErrorMessage? && forall j :: 0 <= j < i ==> !cs[j].ErrorMessage?
    ensures FirstErrorMessage(cs) == Some(i)
  {
  }

  /** Showing writes the message into the first error-message position, appended when there was none. */
  lemma ShowPosition(cs: seq<Child>, message: string)
    ensures var i := FirstErrorMessage(WithErrorMessage(cs, message));
      && i == Some(if FirstErrorMessage(cs).Some? then FirstErrorMessage(cs).value else |cs|)
      && WithErrorMessage(cs, message)[i.value] == ErrorMessage(message)
  {
    var r := WithErrorMessage(cs, message);
    match FirstErrorMessage(cs)
    case None =>
      FirstAt(r, |cs|);
    case Some(i) =>
      FirstAt(r, i);
  }

  /**
   * Showing an error creates a message only when there is none, so repeated
   * failures never add a second one; the first message then carries the new
   * text, and the other children are untouched.
   */
  lemma ShowFindsOrCreates(cs: seq<Child>, message: string)
    ensures ErrorCount(WithErrorMessage(cs, message)) == (if ErrorCount(cs) == 0 then 1 else ErrorCount(cs))
    ensures var i := FirstErrorMessage(WithErrorMessage(cs, message));
      && i == Some(if FirstErrorMessage(cs).Some? then FirstErrorMessage(cs).value else |cs|)
      && WithErrorMessage(cs, message)[i.value] == ErrorMessage(message)
    ensures Others(WithErrorMessage(cs, message)) == Others(cs)
  {
    ShowPosition(cs, message);
    if FirstErrorMessage(cs).None? {
      ShowAppends(cs, message);
    } else {
      ShowOverwrites(cs, message, FirstErrorMessage(cs).value);
    }
  }

  lemma ShowAppends(cs: seq<Child>, message: string)
    requires FirstErrorMessage(cs).None?
    ensures ErrorCount(WithErrorMessage(cs, message)) == 1 && ErrorCount(cs) == 0
    ensures Others(WithErrorMessage(cs, message)) == Others(cs)
  {
    NoErrorMessages(cs);
    CountAndOthersSplit(cs, [ErrorMessage(message)]);
    assert [ErrorMessage(message)][1..] == [];
  }

  lemma ShowOverwrites(cs: seq<Child>, message: string, i: nat)
    requires FirstErrorMessage(cs) == Some(i)
    ensures ErrorCount(WithErrorMessage(cs, message)) == ErrorCount(cs) > 0
    ensures Others(WithErrorMessage(cs, message)) == Others(cs)
  {
    var r := WithErrorMessage(cs, message);
    AroundFirst(cs, i);
    assert r[..i] == cs[..i] && r[i + 1..] == cs[i + 1..];
    ShowPosition(cs, message);
    AroundFirst(r, i);
  }

  /** Clearing removes exactly one message, when there is one, and leaves the other children alone. */
  lemma ClearRemovesFirst(cs: seq<Child>)
    ensures ErrorCount(WithoutErrorMessage(cs)) == (if ErrorCount(cs) == 0 then 0 else ErrorCount(cs) - 1)
    ensures Others(WithoutErrorMessage(cs)) == Others(cs)
  {
    match FirstErrorMessage(cs)
    case None =>
      NoErrorMessages(cs);
    case Some(i) =>
      AroundFirst(cs, i);
      CountAndOthersSplit(cs[..i], cs[i + 1..]);
      NoErrorMessages(cs[..i]);
  }

  /** Showing twice is the same as showing the second message once. */
  lemma ShowTwiceShowsLast(cs: seq<Child>, m1: string, m2: string)
    ensures WithErrorMessage(WithErrorMessage(cs, m1), m2) == WithErrorMessage(cs, m2)
  {
    ShowFindsOrCreates(cs, m1);
  }

  /** On a container without a message, clearing undoes showing. */
  lemma ClearUndoesShow(cs: seq<Child>, message: string)
    requires ErrorCount(cs) == 0
    ensures WithoutErrorMessage(WithErrorMessage(cs, message)) == cs
  {
    ShowFindsOrCreates(cs, message);
    if FirstErrorMessage(cs).Some? {
      AroundFirst(cs, FirstErrorMessage(cs).value);
    }
    var r := WithErrorMessage(cs, message);
    assert FirstErrorMessage(r) == Some(|cs|);
    assert r[..|cs|] == cs;
  }

  /** A field's parent element: its children in document order. */
  class Container {
    var children: seq<Child>

    constructor (children: seq<Child>)
      ensures this.children == children
    {
      this.children := children;
    }
  }

  /** An `input` or `textarea` of the contact form. */
  class FormField {
    const required: bool
    const kind: string
    const parent: Container
    var value: string
    var error: bool

    constructor (required: bool, kind: string, parent: Container, value: string)
      ensures this.required == required && this.kind == kind && this.parent == parent
      ensures this.value == value && !error
    {
      this.required := required;
      this.kind := kind;
      this.parent := parent;
      this.value := value;
      this.error := false;
    }
  }

  /** `showFieldError`: flag the field and find-or-create the message in its parent. */
  method ShowFieldError(field: FormField, message: string)
    modifies field, field.parent
    ensures field.error && field.value == old(field.value)
    ensures field.parent.children == WithErrorMessage(old(field.parent.children), message)
  {
    field.error := true;
    var parent := field.parent;
    var found := FirstErrorMessage(parent.children);
    match found
    case None =>
      parent.children := parent.children + [ErrorMessage(message)];
    case Some(i) =>
      parent.children := parent.children[i := ErrorMessage(message)];
  }

  /** `clearFieldError`, the `input` listener: unflag the field and remove the first message. */
  method ClearFieldError(field: FormField)
    modifies field, field.parent
    ensures !field.error && field.value == old(field.value)
    ensures field.parent.children == WithoutErrorMessage(old(field.parent.children))
  {
    field.error := false;
    var parent := field.parent;
    var found := FirstErrorMessage(parent.children);
    if found.Some? {
      var i := found.value;
      parent.children := parent.children[..i] + parent.children[i + 1..];
    }
  }

  /**
   * `validateField`, the `blur` listener: unflag the field, validate it, and on
   * failure show the message. A passing blur leaves any existing message in place.
   */
  method OnBlur(field: FormField) returns (valid: bool)
    modifies field, field.parent
    ensures var verdict := ValidateField(field.required, field.kind, field.value);
      && valid == verdict.Pass?
      && field.error == !valid
      && field.parent.children ==
         (if valid then old(field.parent.children) else WithErrorMessage(old(field.parent.children), verdict.message))
    ensures field.value == old(field.value)
  {
    field.error := false;
    var verdict := ValidateField(field.required, field.kind, field.value);
    if verdict.Fail? {
      ShowFieldError(field, verdict.message);
      return false;
    }
    return true;
  }
}
