/**
 * The content form page: the not-found fallback for an unknown template id,
 * the event handlers, the submit outcome and the error-clearing effect that
 * React re-runs after a change, composed into one step per user event.
 */
module FormPage {
  import opened Wrappers
  import Templates
  import Form
  import Validation
  import Strings

  /** The state one visit of the form page holds. */
  datatype Page = Page(template: Templates.TemplateRecord, form: Form.FormState, errors: Validation.Errors)

  /** What `/form/:templateId` renders. */
  datatype View = NotFoundView | FormView(page: Page)

  /** Opening the page: the lookup decides between the fallback view and a fresh form. */
  function Open(templateId: string): (v: View)
    ensures v.NotFoundView? <==> forall t :: t in Templates.Catalog ==> t.id != templateId
    ensures v.FormView? ==> v.page.template.id == templateId && v.page.template in Templates.Catalog
    ensures v.FormView? ==> v.page.form == Form.Initial && v.page.errors == map[]
  {
    match Templates.FindTemplateById(templateId)
    case None => NotFoundView
    case Some(t) => FormView(Page(t, Form.Initial, map[]))
  }

  /** Exactly the two catalog ids open a form; every other id falls back. */
  lemma OnlyCatalogIdsOpen(templateId: string)
    ensures Open(templateId).FormView? <==> templateId == "template-1" || templateId == "template-2"
  {
    assert Templates.Catalog[0].id == "template-1";
    assert Templates.Catalog[1].id == "template-2";
  }

  /** The heading of the form. */
  function Title(t: Templates.TemplateRecord): (r: string)
    ensures |r| == |t.labelText| + |" Content Form"|
    ensures r[..|t.labelText|] == t.labelText
    ensures r[|t.labelText|..] == " Content Form"
  {
    t.labelText + " Content Form"
  }

  datatype Event =
    | TextChange(field: Form.TextField, value: string)
    | FileChange(fileField: Form.FileField, files: seq<Form.FileHandle>)
    | Submit

  /** What the user is told: nothing, the blocking alert, or the success alert with the logged payload. */
  datatype Feedback =
    | NoFeedback
    | Blocked(errors: Validation.Errors)
    | Submitted(templateId: string, templateLabel: string, data: Form.FormState)

  datatype Step = Step(page: Page, feedback: Feedback)

  /** The event handler alone, before the effect reacts to the new state. */
  function Handle(p: Page, ev: Event): (s: Step)
    ensures s.page.template == p.template
    ensures !ev.Submit? ==> s.page.errors == p.errors && s.feedback.NoFeedback?
    ensures ev.TextChange? ==> s.page.form == Form.SetText(p.form, ev.field, ev.value)
    ensures ev.FileChange? ==> s.page.form == Form.SetFiles(p.form, ev.fileField, ev.files)
    ensures ev.Submit? ==> s.page.form == p.form && s.page.errors == Validation.Validate(p.form)
    ensures ev.Submit? ==> (s.feedback.Blocked? <==> Validation.Blocks(Validation.Validate(p.form)))
    ensures ev.Submit? ==> (s.feedback.Submitted? <==> !Validation.Blocks(Validation.Validate(p.form)))
    ensures ev.Submit? && s.feedback.Blocked? ==> s.feedback.errors == Validation.Validate(p.form)
    ensures s.feedback.Submitted? ==> s.feedback == Submitted(p.template.id, p.template.labelText, p.form)
  {
    match ev
    case TextChange(k, v) => Step(p.(form := Form.SetText(p.form, k, v)), NoFeedback)
    case FileChange(k, fs) => Step(p.(form := Form.SetFiles(p.form, k, fs)), NoFeedback)
    case Submit =>
      var e := Validation.Validate(p.form);
      if Validation.Blocks(e) then Step(p.(errors := e), Blocked(e))
      else Step(p.(errors := e), Submitted(p.template.id, p.template.labelText, p.form))
  }

  /**
   * The effect's dependencies: the email value, the phone number value,
   * and the errors object, which a submit always replaces.
   */
  predicate EffectDepsChanged(before: Page, ev: Event, after: Page) {
    || ev.Submit?
    || after.form.email != before.form.email
    || after.form.phoneNumber != before.form.phoneNumber
  }

  /**
   * The effect runs after a submit and after an edit that changes the email
   * or phone number value; never after a file selection or a hero-text edit.
   */
  lemma EffectRunsExactlyOn(p: Page, ev: Event)
    ensures EffectDepsChanged(p, ev, Handle(p, ev).page) <==>
      || ev.Submit?
      || (ev.TextChange? && (ev.field == Form.Email || ev.field == Form.PhoneNumber)
          && Form.TextOf(p.form, ev.field) != ev.value)
  {
  }

  /**
   * One user event: the handler, then the effect if its dependencies
   * changed. The effect's own write re-triggers it once more, which
   * changes nothing (`Validation.EffectSettles`), so one run is modelled.
   */
  function Dispatch(p: Page, ev: Event): (s: Step)
    ensures s.page.template == p.template
    ensures s.page.errors.Keys <= p.errors.Keys || ev.Submit?
    ensures ev.TextChange? ==> s.page.form == Form.SetText(p.form, ev.field, ev.value)
    ensures ev.FileChange? ==> s.page.form == Form.SetFiles(p.form, ev.fileField, ev.files)
    ensures ev.FileChange? ==> s.page.errors == p.errors
    ensures ev.TextChange? && ev.field != Form.Email && ev.field != Form.PhoneNumber ==> s.page.errors == p.errors
    ensures ev.Submit? ==> s.page.form == p.form
    ensures !ev.Submit? ==> s.feedback.NoFeedback?
  {
    var h := Handle(p, ev);
    if EffectDepsChanged(p, ev, h.page) then
      var run := Validation.ErrorsEffect(h.page.errors, h.page.form);
      Step(h.page.(errors := run.errors), h.feedback)
    else
      h
  }

  /** The submit outcome: blocked exactly when a contact field is blank, with exactly the errors of `Validate`. */
  lemma SubmitOutcome(p: Page)
    ensures Dispatch(p, Submit).page.errors == Validation.Validate(p.form)
    ensures Dispatch(p, Submit).feedback.Blocked? <==>
      Validation.Missing(p.form, Validation.Email) || Validation.Missing(p.form, Validation.PhoneNumber)
    ensures Dispatch(p, Submit).feedback.Submitted? <==>
      !Validation.Missing(p.form, Validation.Email) && !Validation.Missing(p.form, Validation.PhoneNumber)
    ensures Dispatch(p, Submit).feedback.Blocked? ==>
      Dispatch(p, Submit).feedback.errors == Validation.Validate(p.form)
    ensures Dispatch(p, Submit).feedback.Submitted? ==>
      Dispatch(p, Submit).feedback == Submitted(p.template.id, p.template.labelText, p.form)
  {
    var e := Validation.Validate(p.form);
    Validation.EffectGuardIsExact(e, p.form);
    var n := Validation.ClearErrors(e, p.form);
    assert n.Keys == e.Keys;
    Validation.BlockedIffContactMissing(p.form);
  }

  /**
   * A changed email or phone number value re-runs the effect, so the
   * errors afterwards are exactly the cleared map of the edited form.
   */
  lemma ContactEditClears(p: Page, k: Form.TextField, v: string)
    requires k == Form.Email || k == Form.PhoneNumber
    requires Form.TextOf(p.form, k) != v
    ensures Dispatch(p, TextChange(k, v)).page.errors == Validation.ClearErrors(p.errors, Form.SetText(p.form, k, v))
  {
    Validation.EffectGuardIsExact(p.errors, Form.SetText(p.form, k, v));
  }

  /**
   * On a page whose shown errors are justified, typing a value with a
   * non-whitespace character into a field that shows its error removes
   * that error and keeps every other error as it was.
   */
  lemma TypingClearsErrorOnPage(p: Page, c: Validation.Contact, v: string)
    requires Consistent(p)
    requires c in p.errors
    requires !Strings.AllWhitespace(v)
    ensures c !in Dispatch(p, TextChange(Validation.FieldOf(c), v)).page.errors
    ensures forall d :: d != c && d in p.errors ==>
      d in Dispatch(p, TextChange(Validation.FieldOf(c), v)).page.errors &&
      Dispatch(p, TextChange(Validation.FieldOf(c), v)).page.errors[d] == p.errors[d]
  {
    var k := Validation.FieldOf(c);
    assert Validation.ValueOf(p.form, c) == Form.TextOf(p.form, k);
    assert Form.TextOf(p.form, k) != v;
    ContactEditClears(p, k, v);
    Validation.TypingClearsOnlyItsOwnError(p.errors, p.form, c, v);
    forall d | d != c && d in p.errors
      ensures d in Validation.ClearErrors(p.errors, p.form)
    {
      assert Validation.Missing(p.form, d);
    }
  }

  /** An error entry is justified: it carries its field's message and the field is still blank. */
  predicate Justified(e: Validation.Errors, f: Form.FormState, c: Validation.Contact) {
    c in e ==> e[c] == Validation.Message(c) && Validation.Missing(f, c)
  }

  /** Every error the page shows belongs to a field that is blank right now. */
  predicate Consistent(p: Page) {
    Justified(p.errors, p.form, Validation.Email) && Justified(p.errors, p.form, Validation.PhoneNumber)
  }

  /** One event keeps every shown error justified. */
  lemma DispatchKeepsConsistent(p: Page, ev: Event)
    requires Consistent(p)
    ensures Consistent(Dispatch(p, ev).page)
  {
    var s := Dispatch(p, ev);
    match ev
    case Submit =>
      SubmitOutcome(p);
    case FileChange(k, fs) =>
      assert Validation.ValueOf(s.page.form, Validation.Email) == Validation.ValueOf(p.form, Validation.Email);
      assert Validation.ValueOf(s.page.form, Validation.PhoneNumber) == Validation.ValueOf(p.form, Validation.PhoneNumber);
    case TextChange(k, v) =>
      var h := Handle(p, ev);
      if EffectDepsChanged(p, ev, h.page) {
        Validation.EffectGuardIsExact(h.page.errors, h.page.form);
        TextChangeKeepsJustified(p, k, v, Validation.Email);
        TextChangeKeepsJustified(p, k, v, Validation.PhoneNumber);
      } else {
        assert Validation.ValueOf(s.page.form, Validation.Email) == Validation.ValueOf(p.form, Validation.Email);
        assert Validation.ValueOf(s.page.form, Validation.PhoneNumber) == Validation.ValueOf(p.form, Validation.PhoneNumber);
      }
  }

  /** After a text change and the clearing pass, each surviving entry is still justified. */
  lemma TextChangeKeepsJustified(p: Page, k: Form.TextField, v: string, c: Validation.Contact)
    requires Consistent(p)
    ensures Justified(Validation.ClearErrors(p.errors, Form.SetText(p.form, k, v)), Form.SetText(p.form, k, v), c)
  {
    var g := Form.SetText(p.form, k, v);
    var r := Validation.ClearErrors(p.errors, g);
    if c in r {
      assert r[c] == p.errors[c];
      assert Validation.Message(c) != "";
      assert !Validation.Clears(p.errors, g, c);
    }
  }

  /** The page after a sequence of events. */
  function Run(p: Page, evs: seq<Event>): Page
    decreases |evs|
  {
    if |evs| == 0 then p else Run(Dispatch(p, evs[0]).page, evs[1..])
  }

  /** A freshly opened page is consistent, and stays so whatever the user does. */
  lemma {:induction false} RunKeepsConsistent(p: Page, evs: seq<Event>)
    requires Consistent(p)
    ensures Consistent(Run(p, evs))
    ensures Run(p, evs).template == p.template
    decreases |evs|
  {
    if |evs| > 0 {
      DispatchKeepsConsistent(p, evs[0]);
      RunKeepsConsistent(Dispatch(p, evs[0]).page, evs[1..]);
    }
  }

  /** On any page reached from opening the form, a shown error means its field is blank. */
  lemma ShownErrorsAreBlank(templateId: string, evs: seq<Event>, c: Validation.Contact)
    requires Open(templateId).FormView?
    ensures c in Run(Open(templateId).page, evs).errors ==>
      Validation.Missing(Run(Open(templateId).page, evs).form, c)
  {
    RunKeepsConsistent(Open(templateId).page, evs);
  }

  /** The first template's form is titled after its label. */
  lemma Template1Title()
    ensures Open("template-1").FormView?
    ensures Title(Open("template-1").page.template) == "Organizer landing page Content Form"
  {
    Templates.CatalogLookups();
  }

  /** Two events in a row. */
  lemma RunTwo(p: Page, a: Event, b: Event)
    ensures Run(p, [a, b]) == Dispatch(Dispatch(p, a).page, b).page
  {
    var p1 := Dispatch(p, a).page;
    assert [a, b][1..] == [b];
    assert Run(p, [a, b]) == Run(p1, [b]);
    assert [b][1..] == [];
    assert Run(p1, [b]) == Run(Dispatch(p1, b).page, []);
  }

  /** Typing into both contact fields leaves those values in the form. */
  lemma EnterContacts(p: Page, email: string, phone: string)
    ensures Run(p, [TextChange(Form.Email, email), TextChange(Form.PhoneNumber, phone)]).form.email == email
    ensures Run(p, [TextChange(Form.Email, email), TextChange(Form.PhoneNumber, phone)]).form.phoneNumber == phone
  {
    RunTwo(p, TextChange(Form.Email, email), TextChange(Form.PhoneNumber, phone));
  }

  /** Both contact fields filled and no files selected: the submit goes through. */
  lemma Template1FilledSubmits()
    ensures Open("template-1").FormView?
    ensures Dispatch(Run(Open("template-1").page,
                         [TextChange(Form.Email, "a@b.com"), TextChange(Form.PhoneNumber, "555")]),
                     Submit).feedback.Submitted?
  {
    Templates.CatalogLookups();
    var q := Run(Open("template-1").page, [TextChange(Form.Email, "a@b.com"), TextChange(Form.PhoneNumber, "555")]);
    EnterContacts(Open("template-1").page, "a@b.com", "555");
    assert !Strings.IsWhitespace(q.form.email[0]);
    assert !Strings.IsWhitespace(q.form.phoneNumber[0]);
    SubmitOutcome(q);
  }

  /** Submitting the fresh form reports both required fields with their messages. */
  lemma EmptySubmitReportsBoth(p: Page)
    requires p.form == Form.Initial
    ensures Dispatch(p, Submit).page.errors ==
      map[Validation.Email := "Email address is required.", Validation.PhoneNumber := "Phone number is required."]
    ensures Dispatch(p, Submit).feedback.Blocked?
  {
    Validation.InitialMissesBoth();
    Validation.ValidateBothMissing(p.form);
    SubmitOutcome(p);
  }
}
