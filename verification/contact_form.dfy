/**
 * The contact form around the validator: the per-field display that
 * validateField updates (the input's success/error class and the error
 * element's text and visibility), the input handler, and the submit handler
 * that validates every field and either accepts and resets the form or keeps
 * it and points at the first error.
 */
module ContactForm {
  import opened Wrappers
  import opened Validation
  import Text

  /** The validation class on an input element. */
  datatype Mark = Unmarked | MarkedSuccess | MarkedError

  /** An error element: its text and whether it carries the `show` class. */
  datatype ErrorBox = ErrorBox(text: string, shown: bool)

  /** Values of the inputs, their classes, and the error elements keyed by element id. */
  datatype FormState = FormState(values: Form, marks: map<Field, Mark>, boxes: map<string, ErrorBox>)

  /** The keys of errorElements. */
  const ErrorElementIds: set<string> :=
    {"nameError", "emailError", "phoneError", "passwordError", "messageError", "termsError"}

  /** The error element that belongs to each field. */
  function ErrorKey(f: Field): (k: string)
    ensures k in ErrorElementIds
  {
    match f
    case FullName => "nameError"
    case Email => "emailError"
    case Phone => "phoneError"
    case Password => "passwordError"
    case Message => "messageError"
    case AgreeTerms => "termsError"
  }

  /** Different fields have different error elements. */
  lemma ErrorKeyInjective(f: Field, g: Field)
    requires ErrorKey(f) == ErrorKey(g)
    ensures f == g
  {
  }

  /** Every input has a mark and the error elements are exactly errorElements. */
  predicate WellFormed(st: FormState) {
    (forall f: Field :: f in st.marks) && st.boxes.Keys == ErrorElementIds
  }

  /** The class validateField leaves on an input; the checkbox never gets one. */
  function MarkFor(f: Field, c: Check): (m: Mark)
    ensures m == Unmarked <==> f == AgreeTerms
    ensures m == MarkedError <==> f != AgreeTerms && !c.valid
  {
    if f == AgreeTerms then Unmarked
    else if c.valid then MarkedSuccess
    else MarkedError
  }

  /** Field `f` displays verdict `c`: matching class, error shown exactly when invalid, with its message. */
  predicate Shows(st: FormState, f: Field, c: Check)
    requires WellFormed(st)
  {
    && st.marks[f] == MarkFor(f, c)
    && st.boxes[ErrorKey(f)].shown == !c.valid
    && (!c.valid ==> st.boxes[ErrorKey(f)].text == c.message)
  }

  /** The display part of validateField: field `f` shows verdict `c`, nothing else changes. */
  function Display(st: FormState, f: Field, c: Check): (r: FormState)
    requires WellFormed(st)
    ensures WellFormed(r) && r.values == st.values
    ensures Shows(r, f, c)
    ensures c.valid ==> r.boxes[ErrorKey(f)].text == st.boxes[ErrorKey(f)].text
    ensures forall g :: g != f ==> r.marks[g] == st.marks[g] && r.boxes[ErrorKey(g)] == st.boxes[ErrorKey(g)]
  {
    var k := ErrorKey(f);
    var box := if c.valid then st.boxes[k].(shown := false) else ErrorBox(c.message, true);
    forall g | g != f ensures ErrorKey(g) != k {
      if ErrorKey(g) == k { ErrorKeyInjective(g, f); }
    }
    FormState(st.values, st.marks[f := MarkFor(f, c)], st.boxes[k := box])
  }

  /**
   * validateField(f): validates the current value and updates only that
   * field's class and error element. A valid pass hides the error element
   * and leaves its old text in place.
   */
  function ShowCheck(st: FormState, f: Field): (r: FormState)
    requires WellFormed(st)
    ensures WellFormed(r) && r.values == st.values
    ensures Shows(r, f, Validate(st.values, f))
    ensures Validate(st.values, f).valid ==> r.boxes[ErrorKey(f)].text == st.boxes[ErrorKey(f)].text
    ensures forall g :: g != f ==> r.marks[g] == st.marks[g] && r.boxes[ErrorKey(g)] == st.boxes[ErrorKey(g)]
  {
    Display(st, f, Validate(st.values, f))
  }

  /** Running validateField again at once on an unchanged value changes nothing. */
  lemma ShowCheckIdempotent(st: FormState, f: Field)
    requires WellFormed(st)
    ensures ShowCheck(ShowCheck(st, f), f) == ShowCheck(st, f)
  {
    var once := ShowCheck(st, f);
    var twice := ShowCheck(once, f);
    assert twice.marks == once.marks;
    assert twice.boxes == once.boxes;
  }

  /** The forEach of the submit handler: validateField on each of `fs` in turn, none skipped. */
  function ValidateFields(st: FormState, fs: seq<Field>): (r: FormState)
    requires WellFormed(st)
    ensures WellFormed(r) && r.values == st.values
    ensures forall f :: f in fs ==> Shows(r, f, Validate(st.values, f))
    ensures forall g :: g !in fs ==> r.marks[g] == st.marks[g] && r.boxes[ErrorKey(g)] == st.boxes[ErrorKey(g)]
    decreases |fs|
  {
    if fs == [] then st
    else ValidateFields(ShowCheck(st, fs[0]), fs[1..])
  }

  /** The first of `fs` whose error element is shown: the target of querySelector('.error-message.show'). */
  function FirstShown(st: FormState, fs: seq<Field>): (r: Option<Field>)
    requires WellFormed(st)
    ensures r.None? <==> forall i :: 0 <= i < |fs| ==> !st.boxes[ErrorKey(fs[i])].shown
    ensures r.Some? ==> exists i :: (0 <= i < |fs| && fs[i] == r.value
      && st.boxes[ErrorKey(fs[i])].shown
      && forall j :: 0 <= j < i ==> !st.boxes[ErrorKey(fs[j])].shown)
  {
    if fs == [] then None
    else if st.boxes[ErrorKey(fs[0])].shown then Some(fs[0])
    else
      var r := FirstShown(st, fs[1..]);
      assert forall i :: 1 <= i < |fs| ==> fs[i] == fs[1..][i - 1];
      r
  }

  /** What contactForm.reset() restores: the markup's defaults, taken to be empty and unchecked. */
  const EmptyForm := Form("", "", "", "", "", false)

  /** resetForm: default values, no validation class, every error element hidden (its text kept). */
  function ResetForm(st: FormState): (r: FormState)
    requires WellFormed(st)
    ensures WellFormed(r) && r.values == EmptyForm
    ensures forall f :: r.marks[f] == Unmarked && !r.boxes[ErrorKey(f)].shown
    ensures forall f :: r.boxes[ErrorKey(f)].text == st.boxes[ErrorKey(f)].text
  {
    var marks := map f: Field | f in Fields :: Unmarked;
    assert forall f: Field :: f in marks by {
      forall f: Field ensures f in marks { assert Fields[FieldIndex(f)] == f; }
    }
    FormState(EmptyForm, marks, map k | k in st.boxes :: st.boxes[k].(shown := false))
  }

  /**
   * A debounced check that fires after an accepted submit sees the emptied
   * form: the email field then reports that it is required, and the phone
   * field, optional and now blank, gets the success class that the reset had
   * just removed.
   */
  lemma LateCheckAfterReset(st: FormState)
    requires WellFormed(st) && AllValid(st.values)
    ensures OnSubmit(st).accepted
    ensures ShowCheck(OnSubmit(st).state, Email).boxes[ErrorKey(Email)] == ErrorBox(EmailRequired, true)
    ensures ShowCheck(OnSubmit(st).state, Email) != OnSubmit(st).state
    ensures ShowCheck(OnSubmit(st).state, Phone).marks[Phone] == MarkedSuccess
    ensures OnSubmit(st).state.marks[Phone] == Unmarked
  {
    LateCheck(OnSubmit(st).state);
  }

  /** The debounced check on a reset form: email required, phone marked valid. */
  lemma LateCheck(s: FormState)
    requires WellFormed(s) && s.values == EmptyForm && !s.boxes[ErrorKey(Email)].shown
    ensures ShowCheck(s, Email).boxes[ErrorKey(Email)] == ErrorBox(EmailRequired, true)
    ensures ShowCheck(s, Email) != s
    ensures ShowCheck(s, Phone).marks[Phone] == MarkedSuccess
  {
    LateEmail(s);
    LatePhone(s);
  }

  lemma LateEmail(s: FormState)
    requires WellFormed(s) && s.values == EmptyForm && !s.boxes[ErrorKey(Email)].shown
    ensures ShowCheck(s, Email).boxes[ErrorKey(Email)] == ErrorBox(EmailRequired, true)
    ensures ShowCheck(s, Email) != s
  {
    BlankVerdicts();
    var c := Validate(EmptyForm, Email);
    assert c == Check(false, EmailRequired);
    var d := ShowCheck(s, Email);
    assert d == Display(s, Email, c);
    assert d.boxes[ErrorKey(Email)].shown;
  }

  lemma LatePhone(s: FormState)
    requires WellFormed(s) && s.values == EmptyForm
    ensures ShowCheck(s, Phone).marks[Phone] == MarkedSuccess
  {
    BlankVerdicts();
    var c := Validate(EmptyForm, Phone);
    assert MarkFor(Phone, c) == MarkedSuccess;
    var d := ShowCheck(s, Phone);
    assert Shows(d, Phone, c);
    assert d.marks[Phone] == MarkFor(Phone, c);
  }

  /** On the emptied form the email rule fails as required and the phone rule passes. */
  lemma BlankVerdicts()
    ensures Validate(EmptyForm, Email) == Check(false, EmailRequired)
    ensures Validate(EmptyForm, Phone).valid
  {
    assert Text.IsBlank(EmptyForm.email) && Text.IsBlank(EmptyForm.phone);
  }

  /** After the submit pass every field displays its verdict. */
  lemma ValidatedShowsAll(st: FormState)
    requires WellFormed(st)
    ensures forall f :: Shows(ValidateFields(st, Fields), f, Validate(st.values, f))
  {
    FieldsComplete();
  }

  /** After the submit pass an error element is shown exactly where a rule failed. */
  lemma ValidatedShownIffInvalid(st: FormState, f: Field)
    requires WellFormed(st)
    ensures ValidateFields(st, Fields).boxes[ErrorKey(f)].shown <==> !Validate(st.values, f).valid
  {
    ValidatedShowsAll(st);
  }

  /** The scroll target is the shown error element that comes first in field order. */
  lemma FirstShownInFieldOrder(v: FormState, f: Field)
    requires WellFormed(v) && v.boxes[ErrorKey(f)].shown
    ensures var t := FirstShown(v, Fields);
      && t.Some? && v.boxes[ErrorKey(t.value)].shown
      && forall g :: FieldIndex(g) < FieldIndex(t.value) ==> !v.boxes[ErrorKey(g)].shown
  {
    var t := FirstShown(v, Fields);
    assert v.boxes[ErrorKey(Fields[FieldIndex(f)])].shown;
    var k :| 0 <= k < |Fields| && Fields[k] == t.value
      && v.boxes[ErrorKey(Fields[k])].shown
      && forall j :: 0 <= j < k ==> !v.boxes[ErrorKey(Fields[j])].shown;
    assert FieldIndex(t.value) == k;
    forall g | FieldIndex(g) < k ensures !v.boxes[ErrorKey(g)].shown {
      assert Fields[FieldIndex(g)] == g;
    }
  }

  /** A failed submit scrolls to the first invalid field. */
  lemma RejectedTarget(st: FormState)
    requires WellFormed(st) && !AllValid(st.values)
    ensures var t := FirstShown(ValidateFields(st, Fields), Fields);
      && t.Some? && !Validate(st.values, t.value).valid
      && forall g :: FieldIndex(g) < FieldIndex(t.value) ==> Validate(st.values, g).valid
  {
    var v := ValidateFields(st, Fields);
    var i :| 0 <= i < |Fields| && !Validate(st.values, Fields[i]).valid;
    var f := Fields[i];
    ValidatedShownIffInvalid(st, f);
    FirstShownInFieldOrder(v, f);
    var t := FirstShown(v, Fields);
    ValidatedShownIffInvalid(st, t.value);
    forall g | FieldIndex(g) < FieldIndex(t.value) ensures Validate(st.values, g).valid {
      ValidatedShownIffInvalid(st, g);
    }
  }

  /** Result of a submit: the new state, whether it was accepted, and the field scrolled to. */
  datatype Submission = Submission(state: FormState, accepted: bool, scrollTo: Option<Field>)

  /**
   * The submit handler: validate every field in declaration order; accept
   * and reset iff all passed; otherwise keep the values, display every
   * verdict and scroll to the first invalid field (the error elements are
   * taken to appear in the page in field order).
   */
  function OnSubmit(st: FormState): (r: Submission)
    requires WellFormed(st)
    ensures r.accepted <==> AllValid(st.values)
    ensures WellFormed(r.state)
    ensures r.accepted ==> r.scrollTo == None && r.state.values == EmptyForm
    ensures r.accepted ==> forall f :: r.state.marks[f] == Unmarked && !r.state.boxes[ErrorKey(f)].shown
    ensures !r.accepted ==> r.state.values == st.values
    ensures !r.accepted ==> forall f :: Shows(r.state, f, Validate(st.values, f))
    ensures !r.accepted ==> r.scrollTo.Some? && !Validate(st.values, r.scrollTo.value).valid
    ensures !r.accepted ==> forall g :: FieldIndex(g) < FieldIndex(r.scrollTo.value) ==> Validate(st.values, g).valid
  {
    if AllValid(st.values) then
      Submission(ResetForm(ValidateFields(st, Fields)), true, None)
    else
      ValidatedShowsAll(st);
      RejectedTarget(st);
      Submission(ValidateFields(st, Fields), false, FirstShown(ValidateFields(st, Fields), Fields))
  }

  /** An input event on text field `f`: the value changes and only that field is revalidated. */
  function OnInput(st: FormState, f: Field, v: string): (r: FormState)
    requires WellFormed(st) && f != AgreeTerms
    ensures WellFormed(r) && r.values == SetText(st.values, f, v)
    ensures Shows(r, f, Validate(r.values, f))
    ensures forall g :: g != f ==> Validate(r.values, g) == Validate(st.values, g)
    ensures forall g :: g != f ==> r.marks[g] == st.marks[g] && r.boxes[ErrorKey(g)] == st.boxes[ErrorKey(g)]
  {
    var values := SetText(st.values, f, v);
    forall g | g != f ensures Validate(values, g) == Validate(st.values, g) {
      ValidateLocal(values, st.values, g);
    }
    ShowCheck(st.(values := values), f)
  }

  /** Ticking or clearing the terms checkbox: no listener validates it, so only its value changes. */
  function OnToggleTerms(st: FormState, checked: bool): (r: FormState)
    requires WellFormed(st)
    ensures WellFormed(r) && r.values.agreeTerms == checked
    ensures forall g :: g != AgreeTerms ==> Validate(r.values, g) == Validate(st.values, g)
    ensures r.marks == st.marks && r.boxes == st.boxes
  {
    st.(values := st.values.(agreeTerms := checked))
  }

  // ---------------------------------------------------------------- as written

  /** The lookup errorElements[fieldName + 'Error'] as the handler writes it. */
  function ErrorKeyAsWritten(f: Field): string {
    FieldKey(f) + "Error"
  }

  /** The lookup misses exactly for the full name and the terms checkbox; elsewhere it agrees with ErrorKey. */
  lemma ErrorKeyAsWrittenMisses(f: Field)
    ensures ErrorKeyAsWritten(f) !in ErrorElementIds <==> f == FullName || f == AgreeTerms
    ensures ErrorKeyAsWritten(f) in ErrorElementIds ==> ErrorKeyAsWritten(f) == ErrorKey(f)
  {
    match f
    case FullName => assert ErrorKeyAsWritten(f) == "fullNameError";
    case Email => assert ErrorKeyAsWritten(f) == "emailError";
    case Phone => assert ErrorKeyAsWritten(f) == "phoneError";
    case Password => assert ErrorKeyAsWritten(f) == "passwordError";
    case Message => assert ErrorKeyAsWritten(f) == "messageError";
    case AgreeTerms => assert ErrorKeyAsWritten(f) == "agreeTermsError";
  }

  /** A handler call that either returns a state or throws after partly updating it. */
  datatype Outcome = Returned(state: FormState) | Threw(state: FormState)

  /**
   * validateField as written: the input's classes are removed first, and
   * touching the missing error element then throws a TypeError.
   */
  function ShowCheckAsWritten(st: FormState, f: Field): (r: Outcome)
    requires WellFormed(st)
    ensures WellFormed(r.state)
    ensures r.Threw? <==> f == FullName || f == AgreeTerms
    ensures r.Returned? ==> r.state == ShowCheck(st, f)
    ensures r.Threw? ==> r.state.marks[f] == Unmarked && r.state.boxes == st.boxes
    ensures r.Threw? ==> r.state.values == st.values && forall g :: g != f ==> r.state.marks[g] == st.marks[g]
  {
    ErrorKeyAsWrittenMisses(f);
    if ErrorKeyAsWritten(f) in st.boxes then Returned(ShowCheck(st, f))
    else Threw(st.(marks := st.marks[f := Unmarked]))
  }

  /** The submit handler's forEach as written: the first throw ends the handler. */
  function ValidateFieldsAsWritten(st: FormState, fs: seq<Field>): (r: Outcome)
    requires WellFormed(st)
    ensures WellFormed(r.state) && r.state.values == st.values
    ensures r.Threw? <==> FullName in fs || AgreeTerms in fs
    decreases |fs|
  {
    if fs == [] then Returned(st)
    else
      var o := ShowCheckAsWritten(st, fs[0]);
      if o.Threw? then
        assert fs[0] in fs;
        o
      else
        assert fs[0] != FullName && fs[0] != AgreeTerms;
        assert o.state.values == st.values;
        InTail(fs, FullName);
        InTail(fs, AgreeTerms);
        ValidateFieldsAsWritten(o.state, fs[1..])
  }

  lemma InTail(fs: seq<Field>, f: Field)
    requires fs != [] && fs[0] != f
    ensures f in fs <==> f in fs[1..]
  {
    assert fs == [fs[0]] + fs[1..];
  }

  /**
   * As written, every submit throws at the first field, before any success
   * path: even a form whose six fields all pass is never accepted.
   */
  lemma SubmitAsWrittenThrows(st: FormState)
    requires WellFormed(st)
    ensures ValidateFieldsAsWritten(st, Fields).Threw?
    ensures ValidateFieldsAsWritten(st, Fields).state.values == st.values
    ensures ValidateFieldsAsWritten(st, Fields).state.boxes == st.boxes
  {
    assert Fields[0] == FullName;
  }

  /**
   * resetForm as written: the same errorElements[key + 'Error'] lookup misses
   * for the full name and the terms checkbox, and the guard then skips them,
   * so the name input keeps its class and nameError and termsError stay as
   * they were.
   */
  function ResetFormAsWritten(st: FormState): (r: FormState)
    requires WellFormed(st)
    ensures WellFormed(r) && r.values == EmptyForm
    ensures forall f :: f != FullName && f != AgreeTerms ==> r.marks[f] == Unmarked && !r.boxes[ErrorKey(f)].shown
    ensures r.marks[FullName] == st.marks[FullName] && r.marks[AgreeTerms] == st.marks[AgreeTerms]
    ensures r.boxes[ErrorKey(FullName)] == st.boxes[ErrorKey(FullName)]
    ensures r.boxes[ErrorKey(AgreeTerms)] == st.boxes[ErrorKey(AgreeTerms)]
  {
    forall f: Field { ErrorKeyAsWrittenMisses(f); }
    var found := FoundAsWritten(st);
    var marks := map f: Field | f in Fields :: if ErrorKeyAsWritten(f) in st.boxes then Unmarked else st.marks[f];
    assert forall f: Field :: f in marks by {
      forall f: Field ensures f in marks { assert Fields[FieldIndex(f)] == f; }
    }
    FormState(EmptyForm, marks, map k | k in st.boxes :: if k in found then st.boxes[k].(shown := false) else st.boxes[k])
  }

  /**
   * resetForm runs only after a pass in which every rule held, so every error
   * element is already hidden and each text input carries the success class.
   * With only the submit lookup corrected, the skipped name input then keeps
   * its success class, where the intended reset leaves it unmarked.
   */
  lemma ResetAsWrittenKeepsNameSuccess(st: FormState)
    requires WellFormed(st) && AllValid(st.values)
    ensures ResetFormAsWritten(ValidateFields(st, Fields)).marks[FullName] == MarkedSuccess
    ensures !ResetFormAsWritten(ValidateFields(st, Fields)).boxes[ErrorKey(FullName)].shown
    ensures !ResetFormAsWritten(ValidateFields(st, Fields)).boxes[ErrorKey(AgreeTerms)].shown
    ensures ResetForm(ValidateFields(st, Fields)).marks[FullName] == Unmarked
  {
    AcceptedPass(st);
  }

  /** After a pass in which every rule held, the name input is marked success and both error elements are hidden. */
  lemma AcceptedPass(st: FormState)
    requires WellFormed(st) && AllValid(st.values)
    ensures WellFormed(ValidateFields(st, Fields))
    ensures ValidateFields(st, Fields).marks[FullName] == MarkedSuccess
    ensures !ValidateFields(st, Fields).boxes[ErrorKey(FullName)].shown
    ensures !ValidateFields(st, Fields).boxes[ErrorKey(AgreeTerms)].shown
  {
    ValidatedShowsAll(st);
    var v := ValidateFields(st, Fields);
    assert Fields[0] == FullName && Fields[5] == AgreeTerms;
    assert Validate(st.values, FullName).valid && Validate(st.values, AgreeTerms).valid;
    assert Shows(v, FullName, Validate(st.values, FullName));
    assert Shows(v, AgreeTerms, Validate(st.values, AgreeTerms));
  }

  /** The error elements the as-written lookup reaches: those of the four fields other than fullName and agreeTerms. */
  function FoundAsWritten(st: FormState): (found: set<string>)
    requires WellFormed(st)
    ensures forall f :: f != FullName && f != AgreeTerms ==> ErrorKey(f) in found
    ensures ErrorKey(FullName) !in found && ErrorKey(AgreeTerms) !in found
  {
    forall f: Field { ErrorKeyAsWrittenMisses(f); }
    var found := set f | f in Fields && ErrorKeyAsWritten(f) in st.boxes :: ErrorKeyAsWritten(f);
    forall f: Field | f != FullName && f != AgreeTerms ensures ErrorKey(f) in found {
      assert Fields[FieldIndex(f)] == f;
    }
    found
  }

  /** Under the intended element ids the sample form is accepted and reset. */
  lemma SampleAccepted(st: FormState)
    requires WellFormed(st) && st.values == SampleForm
    ensures OnSubmit(st).accepted && OnSubmit(st).state.values == EmptyForm
  {
    SampleSubmission();
  }
}
