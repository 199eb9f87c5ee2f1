/**
 * Required-field validation of the content form: the error map built on
 * submit, and the reactive step that drops an error once its field is filled.
 */
module Validation {
  import opened Strings
  import Form

  /** The two required contact fields; they are the only keys an error map can have. */
  datatype Contact = Email | PhoneNumber

  /** Field name to message, as the `errors` state object holds it. */
  type Errors = map<Contact, string>

  const EmailMessage: string := "Email address is required."
  const PhoneNumberMessage: string := "Phone number is required."

  function Message(c: Contact): string {
    match c
    case Email => EmailMessage
    case PhoneNumber => PhoneNumberMessage
  }

  function FieldOf(c: Contact): Form.TextField {
    match c
    case Email => Form.Email
    case PhoneNumber => Form.PhoneNumber
  }

  function ValueOf(f: Form.FormState, c: Contact): string {
    Form.TextOf(f, FieldOf(c))
  }

  /** `!value.trim()`: the required field holds nothing but whitespace. */
  predicate Missing(f: Form.FormState, c: Contact) {
    IsBlank(ValueOf(f, c))
  }

  /**
   * The submit-time check: a fresh map with an entry for each required
   * field that is blank after trimming, carrying that field's message.
   */
  function Validate(f: Form.FormState): (e: Errors)
    ensures Email in e <==> Missing(f, Email)
    ensures PhoneNumber in e <==> Missing(f, PhoneNumber)
    ensures Email in e ==> e[Email] == EmailMessage
    ensures PhoneNumber in e ==> e[PhoneNumber] == PhoneNumberMessage
  {
    var e0: Errors := map[];
    var e1 := if Missing(f, Email) then e0[Email := EmailMessage] else e0;
    if Missing(f, PhoneNumber) then e1[PhoneNumber := PhoneNumberMessage] else e1
  }

  /** `Object.keys(errors).length > 0`: the submit is stopped. */
  predicate Blocks(e: Errors) {
    |e| > 0
  }

  /** A submit is blocked exactly when one of the contact fields is blank. */
  lemma BlockedIffContactMissing(f: Form.FormState)
    ensures Blocks(Validate(f)) <==> Missing(f, Email) || Missing(f, PhoneNumber)
  {
    var e := Validate(f);
    if Missing(f, Email) {
      assert Email in e;
    } else if Missing(f, PhoneNumber) {
      assert PhoneNumber in e;
    } else {
      assert e.Keys == {};
    }
  }

  /** With both contact fields blank the map holds exactly the two messages. */
  lemma ValidateBothMissing(f: Form.FormState)
    requires Missing(f, Email) && Missing(f, PhoneNumber)
    ensures Validate(f) == map[Email := "Email address is required.", PhoneNumber := "Phone number is required."]
  {
    var e := Validate(f);
    assert e.Keys == {Email, PhoneNumber};
  }

  /** The initial form has both contact fields blank. */
  lemma InitialMissesBoth()
    ensures Missing(Form.Initial, Email) && Missing(Form.Initial, PhoneNumber)
  {
    assert AllWhitespace(Form.Initial.email);
    assert AllWhitespace(Form.Initial.phoneNumber);
  }

  /** The per-contact test is the source's own `!value.trim()`. */
  lemma MissingIffTrimEmpty(f: Form.FormState, c: Contact)
    ensures Missing(f, c) <==> Trim(ValueOf(f, c)) == ""
  {
    BlankIffTrimEmpty(ValueOf(f, c));
  }

  /** Only the two contact fields feed the validation. */
  lemma ValidateReadsOnlyContacts(f: Form.FormState, g: Form.FormState)
    requires f.email == g.email && f.phoneNumber == g.phoneNumber
    ensures Validate(f) == Validate(g)
  {
    assert ValueOf(f, Email) == ValueOf(g, Email);
    assert ValueOf(f, PhoneNumber) == ValueOf(g, PhoneNumber);
  }

  /** Hero texts and media selections never change the outcome: no minimum file count exists. */
  lemma ValidateIgnoresHeroAndMedia(f: Form.FormState, k: Form.TextField, v: string,
                                    m: Form.FileField, files: seq<Form.FileHandle>)
    requires k != Form.Email && k != Form.PhoneNumber
    ensures Validate(Form.SetText(f, k, v)) == Validate(f)
    ensures Validate(Form.SetFiles(f, m, files)) == Validate(f)
  {
    var g := Form.SetText(f, k, v);
    assert Form.TextOf(g, Form.Email) == Form.TextOf(f, Form.Email);
    assert Form.TextOf(g, Form.PhoneNumber) == Form.TextOf(f, Form.PhoneNumber);
    ValidateReadsOnlyContacts(g, f);
    var h := Form.SetFiles(f, m, files);
    assert Form.TextOf(h, Form.Email) == Form.TextOf(f, Form.Email);
    assert Form.TextOf(h, Form.PhoneNumber) == Form.TextOf(f, Form.PhoneNumber);
    ValidateReadsOnlyContacts(h, f);
  }

  /** JavaScript truthiness of `errors[c]`: present and not the empty string. */
  predicate Truthy(e: Errors, c: Contact) {
    c in e && e[c] != ""
  }

  /** The entry for `c` is dropped when it is truthy and the field is no longer blank. */
  predicate Clears(e: Errors, f: Form.FormState, c: Contact) {
    Truthy(e, c) && !Missing(f, c)
  }

  /**
   * The reactive step: a copy of `e` from which each truthy entry whose
   * field is now non-blank has been deleted; nothing is ever added.
   */
  function ClearErrors(e: Errors, f: Form.FormState): (r: Errors)
    ensures r.Keys <= e.Keys
    ensures forall c :: c in r ==> r[c] == e[c]
    ensures Email in e ==> (Email !in r <==> Clears(e, f, Email))
    ensures PhoneNumber in e ==> (PhoneNumber !in r <==> Clears(e, f, PhoneNumber))
  {
    var e1 := if Truthy(e, Email) && !Missing(f, Email) then e - {Email} else e;
    if Truthy(e1, PhoneNumber) && !Missing(f, PhoneNumber) then e1 - {PhoneNumber} else e1
  }

  /** A second pass finds nothing left to clear. */
  lemma ClearErrorsIdempotent(e: Errors, f: Form.FormState)
    ensures ClearErrors(ClearErrors(e, f), f) == ClearErrors(e, f)
  {
    var r := ClearErrors(e, f);
    var r2 := ClearErrors(r, f);
    if Email in r {
      assert !Clears(r, f, Email);
    }
    if PhoneNumber in r {
      assert !Clears(r, f, PhoneNumber);
    }
    assert r2.Keys == r.Keys;
  }

  /**
   * Entering a value with a non-whitespace character into a contact field
   * whose error is shown removes that error, and the other field's entry
   * fares as it would have without the edit.
   */
  lemma TypingClearsOnlyItsOwnError(e: Errors, f: Form.FormState, c: Contact, v: string)
    requires c in e && e[c] == Message(c)
    requires !AllWhitespace(v)
    ensures c !in ClearErrors(e, Form.SetText(f, FieldOf(c), v))
    ensures forall d :: d != c ==>
      (d in ClearErrors(e, Form.SetText(f, FieldOf(c), v)) <==> d in ClearErrors(e, f))
    ensures forall d :: d != c && d in e && d in ClearErrors(e, f) ==>
      ClearErrors(e, Form.SetText(f, FieldOf(c), v))[d] == e[d]
  {
    var g := Form.SetText(f, FieldOf(c), v);
    assert ValueOf(g, c) == v;
    forall d | d != c ensures ValueOf(g, d) == ValueOf(f, d) {
      assert FieldOf(d) != FieldOf(c);
    }
  }

  /** What one run of the effect leaves: the errors afterwards, and whether `setErrors` was called. */
  datatype EffectRun = EffectRun(errors: Errors, wrote: bool)

  /**
   * The effect body: clear, then write the copy back only when the key
   * counts differ.
   */
  function ErrorsEffect(e: Errors, f: Form.FormState): (r: EffectRun)
    ensures r.errors.Keys <= e.Keys
    ensures r.wrote ==> r.errors != e
  {
    var n := ClearErrors(e, f);
    if |n| != |e| then EffectRun(n, true) else EffectRun(e, false)
  }

  /**
   * Because clearing only deletes, comparing key counts is exact: the
   * effect writes precisely when something was cleared, and afterwards the
   * errors always equal the cleared map.
   */
  lemma EffectGuardIsExact(e: Errors, f: Form.FormState)
    ensures ErrorsEffect(e, f).wrote <==> ClearErrors(e, f) != e
    ensures ErrorsEffect(e, f).errors == ClearErrors(e, f)
  {
    var n := ClearErrors(e, f);
    if |n| == |e| {
      assert |e.Keys - n.Keys| == |e.Keys| - |n.Keys|;
      assert e.Keys - n.Keys == {};
      assert n.Keys == e.Keys;
    }
  }

  /** Re-running the effect on its own result writes nothing, so the render loop stops. */
  lemma EffectSettles(e: Errors, f: Form.FormState)
    ensures !ErrorsEffect(ErrorsEffect(e, f).errors, f).wrote
  {
    EffectGuardIsExact(e, f);
    ClearErrorsIdempotent(e, f);
    EffectGuardIsExact(ClearErrors(e, f), f);
  }
}
