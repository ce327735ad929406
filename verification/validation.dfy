/**
 * The per-field rules of the contact form's validateField: for each of the
 * six fields a pure function from the field's value to a verdict (valid, and
 * the message shown when it is not). Each field's checks run in a fixed
 * order and the first failing one supplies the message.
 */
module Validation {
  import opened Text
  import opened Patterns

  /** The six form inputs, in the declaration order of formInputs. */
  datatype Field = FullName | Email | Phone | Password | Message | AgreeTerms

  /** Object.keys(formInputs): the order in which submit validates the fields. */
  const Fields: seq<Field> := [FullName, Email, Phone, Password, Message, AgreeTerms]

  /** Position of a field in Fields. */
  function FieldIndex(f: Field): (i: nat)
    ensures i < |Fields| && Fields[i] == f
  {
    match f
    case FullName => 0
    case Email => 1
    case Phone => 2
    case Password => 3
    case Message => 4
    case AgreeTerms => 5
  }

  /** The key of a field in formInputs. */
  function FieldKey(f: Field): string {
    match f
    case FullName => "fullName"
    case Email => "email"
    case Phone => "phone"
    case Password => "password"
    case Message => "message"
    case AgreeTerms => "agreeTerms"
  }

  /** The current values of the form's inputs; the checkbox is a flag. */
  datatype Form = Form(
    fullName: string,
    email: string,
    phone: string,
    password: string,
    message: string,
    agreeTerms: bool)

  /** The value of a text field. */
  function TextValue(form: Form, f: Field): string
    requires f != AgreeTerms
  {
    match f
    case FullName => form.fullName
    case Email => form.email
    case Phone => form.phone
    case Password => form.password
    case Message => form.message
  }

  /** Typing into text field `f`: its value becomes `v`, every other input keeps its value. */
  function SetText(form: Form, f: Field, v: string): (r: Form)
    requires f != AgreeTerms
    ensures TextValue(r, f) == v
    ensures r.agreeTerms == form.agreeTerms
    ensures forall g :: g != f && g != AgreeTerms ==> TextValue(r, g) == TextValue(form, g)
  {
    match f
    case FullName => form.(fullName := v)
    case Email => form.(email := v)
    case Phone => form.(phone := v)
    case Password => form.(password := v)
    case Message => form.(message := v)
  }

  /** Outcome of one validation pass: the flag validateField returns and the message it shows. */
  datatype Check = Check(valid: bool, message: string)

  const Pass: Check := Check(true, "")

  const NameRequired := "Full name is required"
  const NameTooShort := "Name must be at least 2 characters long"
  const NameLettersOnly := "Name should only contain letters and spaces"
  const EmailRequired := "Email is required"
  const EmailInvalid := "Please enter a valid email address"
  const PhoneInvalid := "Please enter a valid phone number (at least 10 digits)"
  const PasswordRequired := "Password is required"
  const PasswordTooShort := "Password must be at least 8 characters long"
  const PasswordWeak := "Password must contain uppercase, lowercase, and number"
  const MessageTooShort := "Message should be at least 10 characters long"
  const TermsRequired := "You must agree to the terms and conditions"

  /** Full name: required, then at least two code units, then letters and whitespace only, all on the trimmed value. */
  function ValidateFullName(v: string): (r: Check)
    ensures r.valid <==> r.message == ""
    ensures r.valid <==> 2 <= Utf16Length(Trim(v)) && NameRegex(Trim(v))
    ensures r.message == NameRequired <==> IsBlank(v)
    ensures r.message == NameTooShort <==> !IsBlank(v) && Utf16Length(Trim(v)) < 2
    ensures r.message == NameLettersOnly <==> 2 <= Utf16Length(Trim(v)) && !NameRegex(Trim(v))
  {
    var t := Trim(v);
    TrimEmptyIffBlank(v);
    if t == [] then Check(false, NameRequired)
    else if Utf16Length(t) < 2 then Check(false, NameTooShort)
    else if !NameRegex(t) then Check(false, NameLettersOnly)
    else Pass
  }

  /**
   * Email: required on the trimmed value, but the pattern is tested on the
   * raw value, so surrounding whitespace makes the address invalid.
   */
  function ValidateEmail(v: string): (r: Check)
    ensures r.valid <==> r.message == ""
    ensures r.valid <==> EmailRegex(v)
    ensures r.message == EmailRequired <==> IsBlank(v)
    ensures !r.valid && !IsBlank(v) ==> r.message == EmailInvalid
    ensures r.valid ==> Trim(v) == v
  {
    TrimEmptyIffBlank(v);
    EmailShapeIffRegex(v);
    if Trim(v) == [] then Check(false, EmailRequired)
    else if !EmailShape(v) then Check(false, EmailInvalid)
    else
      TrimUnique(v, 0, |v|);
      assert v[0..|v|] == v;
      Pass
  }

  /** Phone: optional; a non-blank value must match the phone pattern after trimming. */
  function ValidatePhone(v: string): (r: Check)
    ensures r.valid <==> r.message == ""
    ensures r.valid <==> IsBlank(v) || PhoneRegex(Trim(v))
    ensures !r.valid ==> r.message == PhoneInvalid
  {
    TrimEmptyIffBlank(v);
    if Trim(v) != [] then
      if !PhoneRegex(Trim(v)) then Check(false, PhoneInvalid) else Pass
    else
      Pass
  }

  /** Password: tested raw; required, then at least eight code units, then the three lookaheads. */
  function ValidatePassword(v: string): (r: Check)
    ensures r.valid <==> r.message == ""
    ensures r.valid <==> 8 <= Utf16Length(v) && PasswordRegex(v)
    ensures r.message == PasswordRequired <==> v == []
    ensures r.message == PasswordTooShort <==> v != [] && Utf16Length(v) < 8
    ensures r.message == PasswordWeak <==> 8 <= Utf16Length(v) && !PasswordRegex(v)
    ensures r.valid ==> Contains(v, Lower) && Contains(v, Upper) && Contains(v, Digit)
  {
    if v == [] then Check(false, PasswordRequired)
    else if Utf16Length(v) < 8 then Check(false, PasswordTooShort)
    else if !PasswordRegex(v) then Check(false, PasswordWeak)
    else
      PasswordRegexNeedsAllClasses(v);
      Pass
  }

  /** Message: optional; invalid only when the trimmed text is non-empty and under ten code units. */
  function ValidateMessage(v: string): (r: Check)
    ensures r.valid <==> r.message == ""
    ensures r.valid <==> IsBlank(v) || 10 <= Utf16Length(Trim(v))
    ensures !r.valid ==> r.message == MessageTooShort
  {
    TrimEmptyIffBlank(v);
    if Trim(v) != [] && Utf16Length(Trim(v)) < 10 then Check(false, MessageTooShort) else Pass
  }

  /** Terms checkbox: valid exactly when checked. */
  function ValidateAgreement(checked: bool): (r: Check)
    ensures r.valid <==> checked
    ensures r.valid <==> r.message == ""
    ensures !r.valid ==> r.message == TermsRequired
  {
    if !checked then Check(false, TermsRequired) else Pass
  }

  /** The switch of validateField: the rule of field `f` applied to its current value. */
  function Validate(form: Form, f: Field): (r: Check)
    ensures r.valid <==> r.message == ""
  {
    match f
    case FullName => ValidateFullName(form.fullName)
    case Email => ValidateEmail(form.email)
    case Phone => ValidatePhone(form.phone)
    case Password => ValidatePassword(form.password)
    case Message => ValidateMessage(form.message)
    case AgreeTerms => ValidateAgreement(form.agreeTerms)
  }

  /** Every field appears in Fields. */
  lemma FieldsComplete()
    ensures forall f: Field :: f in Fields
  {
    forall f: Field ensures f in Fields { assert Fields[FieldIndex(f)] == f; }
  }

  /** No cross-field dependency: a field's verdict depends on that field's value alone. */
  lemma ValidateLocal(a: Form, b: Form, f: Field)
    requires f == AgreeTerms ==> a.agreeTerms == b.agreeTerms
    requires f != AgreeTerms ==> TextValue(a, f) == TextValue(b, f)
    ensures Validate(a, f) == Validate(b, f)
  {
  }

  /** Every field of the form passes its rule. */
  predicate AllValid(form: Form) {
    forall i :: 0 <= i < |Fields| ==> Validate(form, Fields[i]).valid
  }

  /**
   * Stated on the raw value: a full name is accepted exactly when every
   * character is an ASCII letter or whitespace and the trimmed value has at
   * least two code units.
   */
  lemma FullNameAcceptsRaw(v: string)
    ensures ValidateFullName(v).valid <==>
      (forall i :: 0 <= i < |v| ==> NameChar(v[i])) && 2 <= Utf16Length(Trim(v))
  {
    TrimKeepsContent(v);
    var t := Trim(v);
    if forall i :: 0 <= i < |v| ==> NameChar(v[i]) {
      forall j | 0 <= j < |t| ensures NameChar(t[j]) { assert t[j] in v; }
    }
    if 2 <= Utf16Length(t) && NameRegex(t) {
      forall i | 0 <= i < |v| ensures NameChar(v[i]) {
        if !IsWhitespace(v[i]) { assert v[i] in t; }
      }
    }
  }

  /** A single character outside the Basic Multilingual Plane passes the length check and fails the letters check. */
  lemma FullNameAstralCharacter()
    ensures ValidateFullName("\U{1F600}").message == NameLettersOnly
  {
    AstralFacts();
  }

  lemma AstralFacts()
    ensures Trim("\U{1F600}") == "\U{1F600}"
    ensures !IsBlank("\U{1F600}")
    ensures Utf16Length("\U{1F600}") == 2 && !NameRegex("\U{1F600}")
  {
    AstralShape();
    var s := "\U{1F600}";
    TrimUnique(s, 0, 1);
  }

  lemma AstralShape()
    ensures !IsBlank("\U{1F600}") && IsBlank("\U{1F600}"[..0]) && IsBlank("\U{1F600}"[1..])
    ensures "\U{1F600}"[0..1] == "\U{1F600}" && !IsWhitespace("\U{1F600}"[0])
    ensures Utf16Length("\U{1F600}") == 2 && !NameRegex("\U{1F600}")
  {
    var s := "\U{1F600}";
    assert !IsWhitespace(s[0]) && !NameChar(s[0]);
    assert s[..0] == [] && s[1..] == [] && s[0..1] == s;
  }

  /** Surrounding whitespace makes an otherwise well-formed address invalid. */
  lemma EmailPaddedRejected()
    ensures ValidateEmail(" a@b.co").message == EmailInvalid
    ensures ValidateEmail("a@b.co").valid
  {
    SampleEmailShapes();
    EmailShapeIffRegex("a@b.co");
    EmailShapeIffRegex(" a@b.co");
  }

  lemma SampleEmailShapes()
    ensures EmailShape("a@b.co")
    ensures !EmailShape(" a@b.co") && !IsBlank(" a@b.co")
  {
    var s, p := "a@b.co", " a@b.co";
    assert s[1] == '@' && s[3] == '.';
    assert IsWhitespace(p[0]);
    assert !IsWhitespace(p[1]);
  }

  lemma SampleNameValid()
    ensures ValidateFullName("Jo").valid
  {
    assert !IsWhitespace("Jo"[0]) && !IsWhitespace("Jo"[1]);
    assert "Jo"[0..2] == "Jo" && "Jo"[..0] == [] && "Jo"[2..] == [];
    TrimUnique("Jo", 0, 2);
    assert NameRegex("Jo");
  }

  lemma SamplePasswordValid()
    ensures ValidatePassword("Abcdefg1").valid
  {
    var pw := "Abcdefg1";
    assert InClass(pw[1], Lower) && InClass(pw[0], Upper) && InClass(pw[7], Digit);
    assert LineFree(pw, 0, 1) && LineFree(pw, 0, 0) && LineFree(pw, 0, 7);
    assert LookaheadAt(pw, 0, Lower) && LookaheadAt(pw, 0, Upper) && LookaheadAt(pw, 0, Digit);
    assert PasswordRegex(pw);
  }

  lemma SamplePasswordShort()
    ensures ValidatePassword("short").message == PasswordTooShort
  {
  }

  const SampleForm := Form("Jo", "a@b.co", "", "Abcdefg1", "", true)

  lemma SampleFieldsValid()
    ensures ValidateFullName(SampleForm.fullName).valid
    ensures ValidateEmail(SampleForm.email).valid
    ensures ValidatePhone(SampleForm.phone).valid
    ensures ValidatePassword(SampleForm.password).valid
    ensures ValidateMessage(SampleForm.message).valid
    ensures ValidateAgreement(SampleForm.agreeTerms).valid
  {
    EmailPaddedRejected();
    SampleNameValid();
    SamplePasswordValid();
    assert IsBlank("");
  }

  /** A complete sample form passes, and with a five-letter password exactly the password field fails. */
  lemma SampleSubmission()
    ensures AllValid(SampleForm)
    ensures forall i :: 0 <= i < |Fields| ==>
      (Validate(SampleForm.(password := "short"), Fields[i]).valid <==> Fields[i] != Password)
  {
    forall i | 0 <= i < |Fields|
      ensures Validate(SampleForm, Fields[i]).valid
      ensures Validate(SampleForm.(password := "short"), Fields[i]).valid <==> Fields[i] != Password
    {
      SampleField(Fields[i]);
    }
  }

  lemma SampleField(f: Field)
    ensures Validate(SampleForm, f).valid
    ensures Validate(SampleForm.(password := "short"), f).valid <==> f != Password
  {
    match f
    case FullName => SampleNameValid();
    case Email => EmailPaddedRejected();
    case Phone => assert IsBlank("");
    case Password => SamplePasswordValid(); SamplePasswordShort();
    case Message => assert IsBlank("");
    case AgreeTerms =>
  }
}
