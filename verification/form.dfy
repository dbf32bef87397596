/**
 * The form controller's mutable state and its event handlers: per-field
 * error annotations (`showFieldError` / `removeFieldError`), blur and input
 * handling, the schedule "to" handlers, the Saturday toggle, the image slot
 * `selectedFile` with its file input, the reset, and the submit handler's
 * gate and button state. Markup, banners, previews and scrolling are the
 * presentation layer's and are not part of this state.
 */
module FormController {
  import opened Wrappers
  import opened Text
  import opened FieldRules

  /** A control's name (equal to its element id for the controls below). */
  type FieldId = string

  const MorningFrom: FieldId := "morningFrom"
  const MorningTo: FieldId := "morningTo"
  const AfternoonFrom: FieldId := "afternoonFrom"
  const AfternoonTo: FieldId := "afternoonTo"
  const SatMorningFrom: FieldId := "saturdayMorningFrom"
  const SatMorningTo: FieldId := "saturdayMorningTo"
  const SatAfternoonFrom: FieldId := "saturdayAfternoonFrom"
  const SatAfternoonTo: FieldId := "saturdayAfternoonTo"

  /** The four (from, to) pairs whose "to" input carries a change handler. */
  const SchedulePairs: seq<(FieldId, FieldId)> :=
    [(MorningFrom, MorningTo), (AfternoonFrom, AfternoonTo),
     (SatMorningFrom, SatMorningTo), (SatAfternoonFrom, SatAfternoonTo)]

  /** The time inputs inside the Saturday block, in document order. */
  const SaturdayTimes: seq<FieldId> := [SatMorningFrom, SatMorningTo, SatAfternoonFrom, SatAfternoonTo]

  const SaturdaySet: set<FieldId> := {SatMorningFrom, SatMorningTo, SatAfternoonFrom, SatAfternoonTo}

  /** A text-like control: what the user typed, what `form.reset()` restores,
      whether it carries `required`, and its type. */
  datatype Field = Field(value: string, defaultValue: string, required: bool, kind: Kind)

  function Verdict(fd: Field, urlAccepted: set<string>): Option<string>
  {
    FieldVerdict(fd.required, fd.value, fd.kind, urlAccepted)
  }

  /** `f` carries exactly the annotation the verdict `v` calls for. */
  predicate Annotated(errors: map<FieldId, string>, f: FieldId, v: Option<string>)
  {
    match v
    case None => f !in errors
    case Some(m) => f in errors && errors[f] == m
  }

  predicate SameAnnotation(a: map<FieldId, string>, b: map<FieldId, string>, f: FieldId)
  {
    (f in a <==> f in b) && (f in a ==> a[f] == b[f])
  }

  /** The annotation map once `validateField` has reached verdict `v` on `f`. */
  function Annotate(errors: map<FieldId, string>, f: FieldId, v: Option<string>): map<FieldId, string>
  {
    match v
    case Some(m) => errors[f := m]
    case None => errors - {f}
  }

  /** `validateField`'s effect on the annotation map: the control ends up
      with exactly the annotation its verdict calls for, no other control is
      touched, and validating again changes nothing. */
  lemma AnnotateLocal(errors: map<FieldId, string>, f: FieldId, v: Option<string>)
    ensures Annotated(Annotate(errors, f, v), f, v)
    ensures forall g | g != f :: SameAnnotation(Annotate(errors, f, v), errors, g)
    ensures Annotate(Annotate(errors, f, v), f, v) == Annotate(errors, f, v)
  {
  }

  /** After validating the required controls among `done`, starting from the
      annotations `before`: each of them carries exactly the annotation its
      verdict calls for, and every other control kept its own. */
  predicate RequiredValidated(errors: map<FieldId, string>, before: map<FieldId, string>,
                              fields: map<FieldId, Field>, done: set<FieldId>, urlAccepted: set<string>)
  {
    forall f | f in fields ::
      if f in done && fields[f].required then Annotated(errors, f, Verdict(fields[f], urlAccepted))
      else SameAnnotation(errors, before, f)
  }

  /** Every required control among `done` passes `validateField`. */
  predicate RequiredPass(fields: map<FieldId, Field>, done: set<FieldId>, urlAccepted: set<string>)
  {
    forall f | f in done && f in fields && fields[f].required :: Verdict(fields[f], urlAccepted) == None
  }

  lemma ValidationStep(errors: map<FieldId, string>, before: map<FieldId, string>,
                       fields: map<FieldId, Field>, done: set<FieldId>, urlAccepted: set<string>, f: FieldId)
    requires f in fields
    requires RequiredValidated(errors, before, fields, done, urlAccepted)
    ensures fields[f].required ==>
      RequiredValidated(Annotate(errors, f, Verdict(fields[f], urlAccepted)), before, fields, done + {f}, urlAccepted)
    ensures !fields[f].required ==> RequiredValidated(errors, before, fields, done + {f}, urlAccepted)
  {
  }

  /** Once the pass has validated every control, the form passes the gate
      exactly when no required control is left annotated. */
  lemma GateMatchesAnnotations(errors: map<FieldId, string>, before: map<FieldId, string>,
                                fields: map<FieldId, Field>, urlAccepted: set<string>)
    requires RequiredValidated(errors, before, fields, fields.Keys, urlAccepted)
    ensures AllRequiredValid(fields, urlAccepted) <==>
      forall f | f in fields && fields[f].required :: f !in errors
  {
  }

  /** After switching Saturday off has handled the inputs in `done`: those
      are empty and unannotated, and every other control is as it was. */
  ghost predicate SaturdayCleared(fields: map<FieldId, Field>, errors: map<FieldId, string>,
                                  fields0: map<FieldId, Field>, errors0: map<FieldId, string>, done: set<FieldId>)
  {
    && fields.Keys == fields0.Keys
    && (forall f | f in fields :: fields[f] == if f in done then fields0[f].(value := "") else fields0[f])
    && errors == errors0 - done
  }

  lemma ClearStep(fields: map<FieldId, Field>, errors: map<FieldId, string>,
                  fields0: map<FieldId, Field>, errors0: map<FieldId, string>, done: set<FieldId>, f: FieldId)
    requires f in fields
    requires SaturdayCleared(fields, errors, fields0, errors0, done)
    ensures SaturdayCleared(fields[f := fields[f].(value := "")], errors - {f}, fields0, errors0, done + {f})
  {
  }

  /** Every required control passes `validateField`. */
  predicate AllRequiredValid(fields: map<FieldId, Field>, urlAccepted: set<string>)
  {
    RequiredPass(fields, fields.Keys, urlAccepted)
  }

  /** The values `form.reset()` leaves: every control back to its default. */
  function ResetFields(fields: map<FieldId, Field>): map<FieldId, Field>
  {
    map f | f in fields :: fields[f].(value := fields[f].defaultValue)
  }

  /** After switching Saturday off, none of the Saturday inputs is
      annotated, and neither Saturday "to" handler can flag its pair any more
      until a value is entered again. */
  lemma SaturdayOffSilencesSchedule(fields: map<FieldId, Field>, errors: map<FieldId, string>,
                                                      fields0: map<FieldId, Field>, errors0: map<FieldId, string>)
    requires SaturdaySet <= fields0.Keys
    requires SaturdayCleared(fields, errors, fields0, errors0, SaturdaySet)
    ensures forall f | f in SaturdaySet :: f !in errors
    ensures ScheduleCheck(fields[SatMorningFrom].value, fields[SatMorningTo].value) == KeepAnnotation
    ensures ScheduleCheck(fields[SatAfternoonFrom].value, fields[SatAfternoonTo].value) == KeepAnnotation
  {
  }

  /** `form.reset()` keeps every control, its `required` flag and its type,
      puts back each default value, and resetting twice is resetting once. */
  lemma ResetRestoresDefaults(fields: map<FieldId, Field>)
    ensures ResetFields(fields).Keys == fields.Keys
    ensures forall f | f in fields ::
      && ResetFields(fields)[f].value == fields[f].defaultValue
      && ResetFields(fields)[f].defaultValue == fields[f].defaultValue
      && ResetFields(fields)[f].required == fields[f].required
      && ResetFields(fields)[f].kind == fields[f].kind
    ensures ResetFields(ResetFields(fields)) == ResetFields(fields)
  {
  }

  /** How a submit attempt ends before or at the transport. */
  datatype SubmitStart = FieldsInvalid | MissingPhoto | Sending

  /** How the transport resolves. */
  datatype SubmitEnd = Succeeded | Failed

  class Form {
    /** The controls in document order. */
    const order: seq<FieldId>
    var fields: map<FieldId, Field>
    /** At most one error annotation per control, keyed by the control. */
    var errors: map<FieldId, string>
    /** The global `selectedFile` slot. */
    var selectedFile: Option<FileInfo>
    /** The photo input's `files[0]`; setting its value to '' empties it. */
    var fileInput: Option<FileInfo>
    var submitEnabled: bool

    ghost predicate Valid()
      reads this
    {
      && fields.Keys == (set f | f in order)
      && errors.Keys <= fields.Keys
      // whatever the photo input still holds was accepted into the slot
      && (fileInput.Some? ==> selectedFile == fileInput)
    }

    /** The page as loaded: no annotations, no image, the button enabled. */
    constructor (order: seq<FieldId>, initial: map<FieldId, Field>)
      requires initial.Keys == (set f | f in order)
      ensures Valid()
      ensures this.order == order && fields == initial && errors == map[]
      ensures selectedFile == None && fileInput == None && submitEnabled
    {
      this.order := order;
      fields := initial;
      errors := map[];
      selectedFile := None;
      fileInput := None;
      submitEnabled := true;
    }

    /** `removeFieldError`: the control loses its annotation, if it had one. */
    method RemoveFieldError(f: FieldId)
      requires Valid()
      modifies this`errors
      ensures Valid()
      ensures f !in errors
      ensures errors == old(errors) - {f}
    {
      errors := errors - {f};
    }

    /** `showFieldError`: any previous annotation is removed and `message`
        becomes the control's only annotation. */
    method ShowFieldError(f: FieldId, message: string)
      requires Valid() && f in fields
      modifies this`errors
      ensures Valid()
      ensures f in errors && errors[f] == message
      ensures errors == old(errors)[f := message]
    {
      RemoveFieldError(f);
      errors := errors[f := message];
    }

    /** `validateField` (also the blur handler): answers whether the control
        passes, annotates it with the verdict's message when it does not, and
        removes its annotation when it does; no other control is touched. */
    method ValidateField(f: FieldId, urlAccepted: set<string>) returns (ok: bool)
      requires Valid() && f in fields
      modifies this`errors
      ensures Valid()
      ensures ok <==> Verdict(fields[f], urlAccepted) == None
      ensures Annotated(errors, f, Verdict(fields[f], urlAccepted))
      ensures errors == Annotate(old(errors), f, Verdict(fields[f], urlAccepted))
    {
      var fd := fields[f];
      var value := Trim(fd.value);
      if fd.required && value == [] {
        ShowFieldError(f, RequiredMsg);
        return false;
      }
      if value != [] {
        var failure := FormatCheck(fd.kind, value, urlAccepted);
        if failure.Some? {
          ShowFieldError(f, failure.value);
          return false;
        }
      }
      RemoveFieldError(f);
      return true;
    }

    /** The `input` handler, after the browser has stored the new value: the
        annotation disappears without re-validating. */
    method OnInput(f: FieldId, v: string)
      requires Valid() && f in fields
      modifies this`fields, this`errors
      ensures Valid()
      ensures fields == old(fields)[f := old(fields)[f].(value := v)]
      ensures errors == old(errors) - {f}
    {
      fields := fields[f := fields[f].(value := v)];
      RemoveFieldError(f);
    }

    /** A schedule "to" change handler: when both ends are filled in, "to" is
        annotated if it is not after "from" and loses its annotation
        otherwise; when either is empty nothing changes. */
    method OnScheduleToChange(from: FieldId, to: FieldId)
      requires Valid() && (from, to) in SchedulePairs && from in fields && to in fields
      modifies this`errors
      ensures Valid()
      ensures match ScheduleCheck(fields[from].value, fields[to].value)
              case KeepAnnotation => errors == old(errors)
              case FlagOrder => errors == old(errors)[to := OrderMsg]
              case ClearOrder => errors == old(errors) - {to}
    {
      var fromValue, toValue := fields[from].value, fields[to].value;
      if fromValue != [] && toValue != [] {
        // `to <= from` on strings is `!(from < to)`
        if !JsLess(fromValue, toValue) {
          ShowFieldError(to, OrderMsg);
        } else {
          RemoveFieldError(to);
        }
      }
    }

    /** The Saturday checkbox handler. Switching on only reveals inputs;
        switching off empties the four Saturday time inputs and removes their
        annotations, one input after the other. */
    method OnSaturdayToggle(checked: bool)
      requires Valid() && SaturdaySet <= fields.Keys
      modifies this`fields, this`errors
      ensures Valid()
      ensures checked ==> fields == old(fields) && errors == old(errors)
      ensures !checked ==> SaturdayCleared(fields, errors, old(fields), old(errors), SaturdaySet)
    {
      if !checked {
        ghost var done: set<FieldId> := {};
        for i := 0 to |SaturdayTimes|
          invariant Valid()
          invariant SaturdayCleared(fields, errors, old(fields), old(errors), done)
          invariant done <= SaturdaySet
          invariant forall j | 0 <= j < i :: SaturdayTimes[j] in done
        {
          var f := SaturdayTimes[i];
          ClearStep(fields, errors, old(fields), old(errors), done, f);
          fields := fields[f := fields[f].(value := "")];
          RemoveFieldError(f);
          done := done + {f};
        }
        assert SaturdayTimes[0] in done && SaturdayTimes[1] in done;
        assert SaturdayTimes[2] in done && SaturdayTimes[3] in done;
      }
    }

    /** The file `change` handler, `picked` being the `files[0]` the browser
        has just stored in the input. No file: nothing else happens. A file
        that fails the intake rule is reported, the input is emptied and the
        slot keeps its previous file; an accepted file replaces the slot. */
    method OnFileChange(picked: Option<FileInfo>) returns (rejected: Option<IntakeError>)
      requires Valid()
      modifies this`fileInput, this`selectedFile
      ensures Valid()
      ensures picked == None ==> rejected == None && fileInput == None && selectedFile == old(selectedFile)
      ensures picked.Some? ==> rejected == IntakeCheck(picked.value)
      ensures picked.Some? && rejected == None ==> selectedFile == picked && fileInput == picked
      ensures rejected.Some? ==> fileInput == None && selectedFile == old(selectedFile)
    {
      fileInput := picked;
      rejected := None;
      if picked.Some? {
        var file := picked.value;
        if !("image/" <= file.mediaType) {
          rejected := Some(NotAnImage);
          fileInput := None;
          return;
        }
        if file.size > MaxImageBytes {
          rejected := Some(TooLarge);
          fileInput := None;
          return;
        }
        selectedFile := picked;
      }
    }

    /** `removeSelectedImage`: the input and the slot are both emptied. */
    method RemoveSelectedImage()
      requires Valid()
      modifies this`fileInput, this`selectedFile
      ensures Valid()
      ensures fileInput == None && selectedFile == None
    {
      fileInput := None;
      selectedFile := None;
    }

    /** `resetForm`: every control back to its default, no image, and the
        annotation of every annotated control removed. */
    method ResetForm()
      requires Valid()
      modifies this`fields, this`errors, this`fileInput, this`selectedFile
      ensures Valid()
      ensures fields == ResetFields(old(fields))
      ensures errors == map[]
      ensures fileInput == None && selectedFile == None
    {
      fields := ResetFields(fields);
      RemoveSelectedImage();
      while errors != map[]
        invariant Valid()
        invariant fields == ResetFields(old(fields))
        invariant fileInput == None && selectedFile == None
        decreases errors.Keys
      {
        assert errors.Keys != {};
        var f :| f in errors.Keys;
        RemoveFieldError(f);
      }
    }

    /** The reset button: the form is reset only when the user confirms
        the prompt; otherwise nothing changes. */
    method OnResetClick(confirmed: bool)
      requires Valid()
      modifies this`fields, this`errors, this`fileInput, this`selectedFile
      ensures Valid()
      ensures confirmed ==>
        && fields == ResetFields(old(fields)) && errors == map[]
        && fileInput == None && selectedFile == None
      ensures !confirmed ==>
        && fields == old(fields) && errors == old(errors)
        && fileInput == old(fileInput) && selectedFile == old(selectedFile)
    {
      if confirmed {
        ResetForm();
      }
    }

    /** The validation pass of the submit handler: every required control,
        in document order, with no early exit. */
    method ValidateRequired(urlAccepted: set<string>) returns (allValid: bool)
      requires Valid()
      modifies this`errors
      ensures Valid()
      ensures RequiredValidated(errors, old(errors), fields, fields.Keys, urlAccepted)
      ensures allValid <==> AllRequiredValid(fields, urlAccepted)
    {
      allValid := true;
      ghost var done: set<FieldId> := {};
      for i := 0 to |order|
        invariant Valid()
        invariant done <= fields.Keys
        invariant forall j | 0 <= j < i :: order[j] in done
        invariant allValid <==> RequiredPass(fields, done, urlAccepted)
        invariant RequiredValidated(errors, old(errors), fields, done, urlAccepted)
      {
        var f := order[i];
        ValidationStep(errors, old(errors), fields, done, urlAccepted, f);
        if fields[f].required {
          var ok := ValidateField(f, urlAccepted);
          if !ok {
            allValid := false;
          }
        }
        done := done + {f};
      }
      assert done == fields.Keys;
    }

    /** The submit handler up to the transport. Every required control is
        validated, with no early exit; the attempt stops if any of them fails
        or no photo is present, and otherwise the button is disabled and the
        transport is reached. */
    method BeginSubmit(urlAccepted: set<string>) returns (start: SubmitStart)
      requires Valid() && submitEnabled
      modifies this`errors, this`submitEnabled
      ensures Valid()
      ensures RequiredValidated(errors, old(errors), fields, fields.Keys, urlAccepted)
      ensures start == FieldsInvalid <==> !AllRequiredValid(fields, urlAccepted)
      ensures start == MissingPhoto <==>
        AllRequiredValid(fields, urlAccepted) && selectedFile == None && fileInput == None
      ensures start == Sending <==>
        AllRequiredValid(fields, urlAccepted) && (selectedFile.Some? || fileInput.Some?)
      ensures submitEnabled <==> start != Sending
    {
      var allValid := ValidateRequired(urlAccepted);
      if !allValid {
        return FieldsInvalid;
      }
      if selectedFile == None && fileInput == None {
        return MissingPhoto;
      }
      submitEnabled := false;
      return Sending;
    }

    /** The transport resolves: the button is enabled again either way; on
        success the form is reset (the two-second delay collapsed into this
        step); on failure nothing else changes. */
    method FinishSubmit(transportOk: bool) returns (end: SubmitEnd)
      requires Valid() && !submitEnabled
      modifies this
      ensures Valid() && submitEnabled
      ensures end == if transportOk then Succeeded else Failed
      ensures transportOk ==>
        && fields == ResetFields(old(fields)) && errors == map[]
        && fileInput == None && selectedFile == None
      ensures !transportOk ==>
        && fields == old(fields) && errors == old(errors)
        && fileInput == old(fileInput) && selectedFile == old(selectedFile)
    {
      submitEnabled := true;
      if transportOk {
        end := Succeeded;
        ResetForm();
      } else {
        end := Failed;
      }
    }
  }

  /** The submit gate never looks at schedule order: a pair whose "to" is
      before its "from" (flagged by the "to" handler) still lets the form be
      sent, and validating the "to" control during submit removes its
      annotation. */
  lemma ScheduleOrderDoesNotBlockSubmit(urlAccepted: set<string>)
    ensures
      var fields := map[MorningFrom := Field("10:00", "", true, Time), MorningTo := Field("09:00", "", true, Time)];
      && ScheduleCheck(fields[MorningFrom].value, fields[MorningTo].value) == FlagOrder
      && Verdict(fields[MorningTo], urlAccepted) == None
      && AllRequiredValid(fields, urlAccepted)
  {
  }
}
