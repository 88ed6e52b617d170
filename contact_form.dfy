/** The contact form of the page: the annotations that `validateForm`
    leaves through `clearErrorMessages` and `showError`, the submit
    handler, `submitForm`, and the reset it schedules. */
module ContactForm {
  import opened JsStrings
  import opened Email
  import opened Validation

  /** What of the form is on screen, and how many scheduled resets have
      not fired yet. */
  datatype Screen = Screen(formVisible: bool, successVisible: bool, pendingResets: nat)

  /** The page as loaded: the form shown, the success message hidden and
      nothing scheduled. */
  const Idle := Screen(true, false, 0)

  /** `submitForm`: the form is hidden, the success message (when the page
      has one) is shown, and one more reset is scheduled; the timer is
      never cancelled. */
  function AfterSubmitForm(s: Screen, hasSuccessMessage: bool): Screen {
    Screen(false, hasSuccessMessage || s.successVisible, s.pendingResets + 1)
  }

  /** One scheduled reset fires: the form is shown again and the success
      message (when the page has one) hidden. */
  function AfterResetFires(s: Screen, hasSuccessMessage: bool): Screen
    requires s.pendingResets > 0
  {
    Screen(true, !hasSuccessMessage && s.successVisible, s.pendingResets - 1)
  }

  /** The screen agrees with the schedule: at most one reset is pending,
      the form is hidden exactly while it is, and the success message, when
      there is one, is shown exactly while the form is hidden. */
  predicate Consistent(s: Screen, hasSuccessMessage: bool) {
    && s.pendingResets <= 1
    && (s.formVisible <==> s.pendingResets == 0)
    && (hasSuccessMessage ==> s.successVisible == !s.formVisible)
    && (!hasSuccessMessage ==> !s.successVisible)
  }

  /** A submit from the idle page, followed by its reset, is back at the
      idle page. */
  lemma SubmitThenResetIsIdle(hasSuccessMessage: bool)
    ensures AfterResetFires(AfterSubmitForm(Idle, hasSuccessMessage), hasSuccessMessage) == Idle
  {
  }

  /** A hidden form cannot be submitted by the visitor, so submits come from a
      visible form; from there, and through every reset, the screen stays
      consistent with the schedule. */
  lemma SubmitKeepsConsistent(s: Screen, hasSuccessMessage: bool)
    requires Consistent(s, hasSuccessMessage) && s.formVisible
    ensures Consistent(AfterSubmitForm(s, hasSuccessMessage), hasSuccessMessage)
    ensures AfterSubmitForm(s, hasSuccessMessage).pendingResets == 1
  {
  }

  lemma ResetKeepsConsistent(s: Screen, hasSuccessMessage: bool)
    requires Consistent(s, hasSuccessMessage) && s.pendingResets > 0
    ensures AfterResetFires(s, hasSuccessMessage) == Idle
  {
  }

  /** Two submits in a row (which the visitor cannot cause, since the form
      is hidden after the first) leave two resets pending; the first to
      fire shows the form while the second is still on its way. */
  lemma DoubleSubmitShowsFormEarly(s: Screen, hasSuccessMessage: bool)
    requires s == Idle
    ensures var t := AfterSubmitForm(AfterSubmitForm(s, hasSuccessMessage), hasSuccessMessage);
            t.pendingResets == 2
            && AfterResetFires(t, hasSuccessMessage).formVisible
            && AfterResetFires(t, hasSuccessMessage).pendingResets == 1
  {
  }

  /** The form and what the script has done to it. */
  class ContactForm {
    /** Whether the page has the `#successMessage` element. */
    const hasSuccessMessage: bool
    /** The current values of the five controls. */
    var fields: FormFields
    /** The `.error-message` elements in the form, in the order they were
        added, each with the field it sits under and its text. */
    var errors: seq<(Field, string)>
    /** The controls whose border is red. */
    var redBorder: set<Field>
    var formVisible: bool
    var successVisible: bool
    var pendingResets: nat

    function CurrentScreen(): Screen
      reads this
    {
      Screen(formVisible, successVisible, pendingResets)
    }

    /** The screen agrees with the schedule of resets. */
    ghost predicate Valid()
      reads this
    {
      Consistent(CurrentScreen(), hasSuccessMessage)
    }

    constructor (hasSuccessMessage: bool, fields: FormFields)
      ensures this.hasSuccessMessage == hasSuccessMessage && this.fields == fields
      ensures errors == [] && redBorder == {}
      ensures CurrentScreen() == Idle && Valid()
    {
      this.hasSuccessMessage := hasSuccessMessage;
      this.fields := fields;
      errors := [];
      redBorder := {};
      formVisible := true;
      successVisible := false;
      pendingResets := 0;
    }

    /** The visitor types into or picks from the controls. */
    method EditFields(v: FormFields)
      modifies this`fields
      ensures fields == v
    {
      fields := v;
    }

    /** `clearErrorMessages`: removes every annotation, one after the other,
        then resets the border of every control. */
    method ClearErrorMessages()
      modifies this`errors, this`redBorder
      ensures errors == [] && redBorder == {}
    {
      while errors != []
        decreases |errors|
      {
        errors := errors[1..];
      }
      for i := 0 to |RuleOrder|
        invariant errors == []
        invariant forall f :: f in redBorder ==> Rank(f) >= i
      {
        redBorder := redBorder - {RuleOrder[i]};
      }
    }

    /** `showError`: one more annotation, under `f`, with text `msg`, and a
        red border on `f`. */
    method ShowError(f: Field, msg: string)
      modifies this`errors, this`redBorder
      ensures errors == old(errors) + [(f, msg)]
      ensures redBorder == old(redBorder) + {f}
    {
      errors := errors + [(f, msg)];
      redBorder := redBorder + {f};
    }

    /** `validateForm`: clears the old annotations, then runs every rule and
        annotates each field whose rule fails. The annotations left depend
        on the field values alone, never on those of an earlier call. */
    method ValidateForm() returns (isValid: bool)
      modifies this`errors, this`redBorder
      ensures isValid == AllRulesPass(fields)
      ensures errors == Annotations(Check(fields))
      ensures redBorder == FailedRules(Check(fields))
    {
      var name := Trim(fields.name);
      var email := Trim(fields.email);
      var service := fields.service;
      var timeline := fields.timeline;
      var message := Trim(fields.message);
      ghost var r := Check(fields);

      ClearErrorMessages();
      assert fields == old(fields);
      isValid := true;

      ghost var e, b := errors, redBorder;
      if Utf16Length(name) < 2 {
        ShowError(Name, NameErrorText);
        isValid := false;
      }
      assert errors == AddAnnotation(e, r.name, Name) && redBorder == AddBorder(b, r.name, Name);
      assert isValid == !r.name && fields == old(fields);

      e, b := errors, redBorder;
      if !IsValidEmail(email) {
        ShowError(EmailField, EmailErrorText);
        isValid := false;
      }
      assert errors == AddAnnotation(e, r.email, EmailField) && redBorder == AddBorder(b, r.email, EmailField);
      assert isValid == !(r.name || r.email) && fields == old(fields);

      e, b := errors, redBorder;
      if service == "" {
        ShowError(Service, ServiceErrorText);
        isValid := false;
      }
      assert errors == AddAnnotation(e, r.service, Service) && redBorder == AddBorder(b, r.service, Service);
      assert isValid == !(r.name || r.email || r.service) && fields == old(fields);

      e, b := errors, redBorder;
      if timeline == "" {
        ShowError(Timeline, TimelineErrorText);
        isValid := false;
      }
      assert errors == AddAnnotation(e, r.timeline, Timeline) && redBorder == AddBorder(b, r.timeline, Timeline);
      assert isValid == !(r.name || r.email || r.service || r.timeline) && fields == old(fields);

      e, b := errors, redBorder;
      if Utf16Length(message) < 10 {
        ShowError(Message, MessageErrorText);
        isValid := false;
      }
      assert errors == AddAnnotation(e, r.message, Message) && redBorder == AddBorder(b, r.message, Message);
      assert isValid == !(r.name || r.email || r.service || r.timeline || r.message);

      assert fields == old(fields);
      AnnotationsInSteps(r);
      FailedRulesInSteps(r);
    }

    /** `submitForm`. */
    method SubmitForm()
      modifies this`formVisible, this`successVisible, this`pendingResets
      ensures CurrentScreen() == AfterSubmitForm(old(CurrentScreen()), hasSuccessMessage)
    {
      formVisible := false;
      if hasSuccessMessage {
        successVisible := true;
      }
      pendingResets := pendingResets + 1;
    }

    /** The submit handler of `initContactForm`: validates, and submits only
        when validation passed. */
    method Submit() returns (submitted: bool)
      modifies this`errors, this`redBorder, this`formVisible, this`successVisible, this`pendingResets
      ensures submitted == AllRulesPass(fields)
      ensures errors == Annotations(Check(fields))
      ensures redBorder == FailedRules(Check(fields))
      ensures CurrentScreen()
              == if submitted then AfterSubmitForm(old(CurrentScreen()), hasSuccessMessage)
                 else old(CurrentScreen())
      ensures old(Valid()) && old(formVisible) ==> Valid()
    {
      var isValid := ValidateForm();
      if !isValid {
        return false;
      }
      SubmitForm();
      submitted := true;
    }

    /** One scheduled reset fires: `form.reset()` empties the controls, the
        form is shown and the success message hidden. The annotations are
        not touched. */
    method ResetFires()
      requires pendingResets > 0
      modifies this`fields, this`formVisible, this`successVisible, this`pendingResets
      ensures fields == EmptyFields
      ensures CurrentScreen() == AfterResetFires(old(CurrentScreen()), hasSuccessMessage)
      ensures old(Valid()) ==> Valid() && CurrentScreen() == Idle
    {
      fields := EmptyFields;
      formVisible := true;
      if hasSuccessMessage {
        successVisible := false;
      }
      pendingResets := pendingResets - 1;
    }
  }

  /** Validating the same values twice gives the same annotations and
      borders: nothing is left over from the first call. */
  method ValidateTwice(form: ContactForm) returns (first: seq<(Field, string)>, second: seq<(Field, string)>)
    modifies form`errors, form`redBorder
    ensures first == second && form.errors == second
    ensures form.redBorder == FailedRules(Check(form.fields))
    ensures forall i, j :: 0 <= i < j < |second| ==> second[i].0 != second[j].0
  {
    var _ := form.ValidateForm();
    first := form.errors;
    ghost var border := form.redBorder;
    var _ := form.ValidateForm();
    second := form.errors;
    assert form.redBorder == border;
    AnnotationsDistinct(Check(form.fields));
  }

  /** After a submit that went through, no field is annotated or red. */
  lemma SubmittedFormIsClean(v: FormFields)
    requires AllRulesPass(v)
    ensures Annotations(Check(v)) == [] && FailedRules(Check(v)) == {}
  {
    ValidIffNoFailures(v);
    FailedRulesExact(Check(v));
    FailingFieldsExact(Check(v));
  }
}
