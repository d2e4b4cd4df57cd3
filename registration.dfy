/** The error-state and submission logic of the `EventRegistration`
    controller: per-field error slots that `showError` and `clearError`
    update, the three validators run against the current field values, and
    the submit gate with its presentation flags. */
module Registration {
  import opened Text
  import opened Validators

  /** What the page shows for one field: the input's `error` class, the
      error element's `show` class, and the error element's text. */
  datatype ErrorSlot = ErrorSlot(inputError: bool, shown: bool, text: string)

  /** The slot after `clearError`: no classes, empty text. */
  const Cleared := ErrorSlot(false, false, "")

  /** A slot as the validators leave it: styled and shown together, with a
      text exactly when shown. */
  predicate Consistent(slot: ErrorSlot) {
    slot.inputError == slot.shown && (slot.shown <==> slot.text != [])
  }

  /** The values of the three inputs when a validator reads them. */
  datatype FormValues = FormValues(name: string, email: string, event: string) {
    function Value(f: Field): string {
      match f
      case Name => name
      case Email => email
      case Event => event
    }
  }

  /** Every field has an entry. */
  ghost predicate Complete<V>(m: map<Field, V>) {
    forall f: Field :: f in m
  }

  lemma FieldCases(f: Field)
    ensures f == Name || f == Email || f == Event
  {
  }

  lemma CompleteByCases<V>(m: map<Field, V>)
    requires Name in m && Email in m && Event in m
    ensures Complete(m)
  {
    forall f: Field ensures f in m {
      FieldCases(f);
    }
  }

  /** Two complete maps that agree on every field are equal. */
  lemma CompleteMapsAgree<V>(a: map<Field, V>, b: map<Field, V>)
    requires Complete(a) && Complete(b)
    requires forall f :: a[f] == b[f]
    ensures a == b
  {
    assert a.Keys == b.Keys;
  }

  // ---------------------------------------------------------------------
  // Error slots as values

  /** The error state after `showError(f, message)`. */
  function ShowErrorIn(errors: map<Field, ErrorSlot>, f: Field, message: string): (r: map<Field, ErrorSlot>)
    ensures r.Keys == errors.Keys + {f}
    ensures r[f].inputError && r[f].shown && r[f].text == message
    ensures forall g :: g in errors && g != f ==> r[g] == errors[g]
  {
    errors[f := ErrorSlot(true, true, message)]
  }

  /** The error state after `clearError(f)`. */
  function ClearErrorIn(errors: map<Field, ErrorSlot>, f: Field): (r: map<Field, ErrorSlot>)
    ensures r.Keys == errors.Keys + {f}
    ensures !r[f].inputError && !r[f].shown && r[f].text == []
    ensures forall g :: g in errors && g != f ==> r[g] == errors[g]
  {
    errors[f := Cleared]
  }

  /** Clearing is idempotent, and it undoes whatever `showError` did to the
      same field. */
  lemma ClearErrorIdempotent(errors: map<Field, ErrorSlot>, f: Field, message: string)
    ensures ClearErrorIn(ClearErrorIn(errors, f), f) == ClearErrorIn(errors, f)
    ensures ClearErrorIn(ShowErrorIn(errors, f, message), f) == ClearErrorIn(errors, f)
  {
  }

  /** A new message replaces the previous one. */
  lemma ShowErrorReplaces(errors: map<Field, ErrorSlot>, f: Field, m1: string, m2: string)
    ensures ShowErrorIn(ShowErrorIn(errors, f, m1), f, m2) == ShowErrorIn(errors, f, m2)
  {
  }

  /** Updates of two different fields commute: each field's slot is its own. */
  lemma UpdatesOfDistinctFieldsCommute(errors: map<Field, ErrorSlot>, f: Field, g: Field, message: string)
    requires f != g
    ensures ShowErrorIn(ClearErrorIn(errors, g), f, message) == ClearErrorIn(ShowErrorIn(errors, f, message), g)
  {
  }

  /** The slot a validator leaves behind: cleared on a pass, otherwise shown
      with the message of the check that failed. */
  function SlotFor(outcome: Outcome): (slot: ErrorSlot)
    ensures Consistent(slot)
    ensures slot.shown <==> outcome.Fail?
    ensures outcome.Fail? ==> slot.text == Message(outcome.failure)
  {
    match outcome
    case Pass => Cleared
    case Fail(e) => ErrorSlot(true, true, Message(e))
  }

  /** The slot tells the outcome apart: no two outcomes leave the same
      slot. */
  lemma SlotDeterminesOutcome(o1: Outcome, o2: Outcome)
    requires SlotFor(o1) == SlotFor(o2)
    ensures o1 == o2
  {
    if o1.Fail? && o2.Fail? {
      MessageInjective(o1.failure, o2.failure);
    }
  }

  // ---------------------------------------------------------------------
  // The submit decision as values

  /** All three validators pass on the given values. */
  predicate Accepts(values: FormValues) {
    CheckName(values.name) == Pass && CheckEmail(values.email) == Pass && CheckEvent(values.event) == Pass
  }

  /** The error state after a submit attempt: each field's slot as its own
      validator leaves it, whatever the other fields' outcomes. */
  function SubmitErrors(values: FormValues): (errors: map<Field, ErrorSlot>)
    ensures Complete(errors)
    ensures forall f :: errors[f] == SlotFor(Check(f, values.Value(f)))
  {
    var errors := map[Name := SlotFor(CheckName(values.name)),
                      Email := SlotFor(CheckEmail(values.email)),
                      Event := SlotFor(CheckEvent(values.event))];
    CompleteByCases(errors);
    assert forall f :: errors[f] == SlotFor(Check(f, values.Value(f))) by {
      forall f ensures errors[f] == SlotFor(Check(f, values.Value(f))) {
        FieldCases(f);
      }
    }
    errors
  }

  /** The form is submitted exactly when a submit attempt leaves no error
      shown; a refused attempt shows an error on every invalid field. */
  lemma {:induction false} SubmitGate(values: FormValues)
    ensures Accepts(values) <==> forall f :: !SubmitErrors(values)[f].shown
    ensures forall f :: Check(f, values.Value(f)).Fail? ==> SubmitErrors(values)[f].shown
  {
    var errors := SubmitErrors(values);
    if forall f :: !errors[f].shown {
      assert !errors[Name].shown && !errors[Email].shown && !errors[Event].shown;
    }
  }

  // ---------------------------------------------------------------------
  // The controller

  /** Where the form is in its life: being filled in, waiting for the
      simulated transport, or replaced by the success panel. */
  datatype Phase = Idle | Submitting | Succeeded

  class EventRegistration {
    /** The error slot of each input. */
    var errors: map<Field, ErrorSlot>
    /** The submit button's `loading` class. */
    var loading: bool
    /** The form's `display: none`. */
    var formHidden: bool
    /** The success message's `show` class. */
    var successShown: bool

    ghost predicate Valid()
      reads this
    {
      Complete(errors)
    }

    function CurrentPhase(): Phase
      reads this
    {
      if successShown then Succeeded else if loading then Submitting else Idle
    }

    /** A fresh page: no error shown, the form visible. */
    constructor ()
      ensures Valid()
      ensures forall f :: errors[f] == Cleared
      ensures CurrentPhase() == Idle && !formHidden
    {
      errors := map[Name := Cleared, Email := Cleared, Event := Cleared];
      loading, formHidden, successShown := false, false, false;
      new;
      CompleteByCases(errors);
    }

    method ShowError(f: Field, message: string)
      requires Valid()
      modifies this`errors
      ensures Valid()
      ensures errors == ShowErrorIn(old(errors), f, message)
    {
      errors := errors[f := ErrorSlot(true, true, message)];
    }

    method ClearError(f: Field)
      requires Valid()
      modifies this`errors
      ensures Valid()
      ensures errors == ClearErrorIn(old(errors), f)
    {
      errors := errors[f := ErrorSlot(false, false, "")];
    }

    /** Clears the slots of the fields in order, one at a time. */
    method ClearAllErrors()
      requires Valid()
      modifies this`errors
      ensures Valid()
      ensures forall f :: errors[f] == Cleared
    {
      var fields := [Name, Email, Event];
      for i := 0 to |fields|
        invariant Valid()
        invariant forall j :: 0 <= j < i ==> errors[fields[j]] == Cleared
      {
        ClearError(fields[i]);
      }
      forall f ensures errors[f] == Cleared {
        match f
        case Name => assert fields[0] == Name;
        case Email => assert fields[1] == Email;
        case Event => assert fields[2] == Event;
      }
    }

    /** Shows or clears field `f`'s error according to a validator's
      outcome, and reports whether it passed. */
    method Report(f: Field, outcome: Outcome) returns (ok: bool)
      requires Valid()
      modifies this`errors
      ensures Valid()
      ensures ok <==> outcome == Pass
      ensures errors == old(errors)[f := SlotFor(outcome)]
    {
      match outcome
      case Pass =>
        ClearError(f);
        ok := true;
      case Fail(e) =>
        ShowError(f, Message(e));
        ok := false;
    }

    /** `validateName` on the input's current value `name`. */
    method ValidateName(name: string) returns (ok: bool)
      requires Valid()
      modifies this`errors
      ensures Valid()
      ensures ok <==> CheckName(name) == Pass
      ensures errors == old(errors)[Name := SlotFor(CheckName(name))]
    {
      ok := Report(Name, CheckName(name));
    }

    /** `validateEmail` on the input's current value `email`. */
    method ValidateEmail(email: string) returns (ok: bool)
      requires Valid()
      modifies this`errors
      ensures Valid()
      ensures ok <==> CheckEmail(email) == Pass
      ensures errors == old(errors)[Email := SlotFor(CheckEmail(email))]
    {
      ok := Report(Email, CheckEmail(email));
    }

    /** `validateEvent` on the input's current value `event`. */
    method ValidateEvent(event: string) returns (ok: bool)
      requires Valid()
      modifies this`errors
      ensures Valid()
      ensures ok <==> CheckEvent(event) == Pass
      ensures errors == old(errors)[Event := SlotFor(CheckEvent(event))]
    {
      ok := Report(Event, CheckEvent(event));
    }

    /** Clears every error, runs all three validators, and submits only when
      all of them passed. The error state afterwards depends on the values
      alone; a refused attempt leaves the form flags as they were. */
    method HandleSubmit(values: FormValues)
      requires Valid()
      modifies this`errors, this`loading, this`formHidden, this`successShown
      ensures Valid()
      ensures errors == SubmitErrors(values)
      ensures Accepts(values) ==> formHidden && CurrentPhase() == Succeeded && !loading
      ensures !Accepts(values) ==>
        formHidden == old(formHidden) && successShown == old(successShown) && loading == old(loading)
    {
      ClearAllErrors();
      var nameOk := ValidateName(values.name);
      var emailOk := ValidateEmail(values.email);
      var eventOk := ValidateEvent(values.event);
      assert nameOk && emailOk && eventOk <==> Accepts(values);
      if nameOk && emailOk && eventOk {
        SubmitForm();
      }
      // Otherwise only the shake animation runs, which changes no state here.
      ghost var expected := SubmitErrors(values);
      assert errors[Name] == expected[Name] && errors[Email] == expected[Email] && errors[Event] == expected[Event];
      forall f ensures errors[f] == expected[f] {
        FieldCases(f);
      }
      CompleteMapsAgree(errors, expected);
    }

    /** Turns the loading indicator on, awaits the simulated transport, then
      hides the form, shows the success panel and turns loading off. */
    method SubmitForm()
      modifies this`loading, this`formHidden, this`successShown
      ensures formHidden && CurrentPhase() == Succeeded && !loading
    {
      BeginSubmission();
      // The awaited two-second transport is one abstract step: it always
      // resolves and changes none of the modelled state.
      CompleteSubmission();
    }

    /** The state while the transport is pending: loading, form still shown. */
    method BeginSubmission()
      modifies this`loading
      ensures loading
      ensures !successShown ==> CurrentPhase() == Submitting
    {
      loading := true;
    }

    /** The state once the transport has resolved. */
    method CompleteSubmission()
      modifies this`loading, this`formHidden, this`successShown
      ensures formHidden && successShown && !loading
      ensures CurrentPhase() == Succeeded
    {
      formHidden := true;
      successShown := true;
      loading := false;
    }
  }
}
