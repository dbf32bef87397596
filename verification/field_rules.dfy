/**
 * The decisions the form script takes before it touches any annotation:
 * what `validateField` concludes about one field, what a schedule "to"
 * handler concludes about a from/to pair, and whether the file `change`
 * handler accepts a picked file.
 */
module FieldRules {
  import opened Wrappers
  import opened Text
  import opened Validators

  /** The `type` of a form control, as far as validation distinguishes it. */
  datatype Kind = TextField | TextArea | Email | Url | Tel | Time | Checkbox

  const RequiredMsg: string := "Este campo es obligatorio"
  const EmailMsg: string := "Por favor, ingrese un email válido"
  const UrlMsg: string := "Por favor, ingrese una URL válida"
  const PhoneMsg: string := "Por favor, ingrese un número válido"
  const OrderMsg: string := "La hora de finalización debe ser posterior a la de inicio"

  /** The type-specific check on a non-empty trimmed value: the message of the
      failed check, or None. URL well-formedness is decided by the host's URL
      parser (`new URL(value)` not throwing), represented by the set
      `urlAccepted` of the strings it accepts. */
  function FormatCheck(kind: Kind, value: string, urlAccepted: set<string>): Option<string>
  {
    match kind
    case Email => if IsValidEmail(value) then None else Some(EmailMsg)
    case Url => if value in urlAccepted then None else Some(UrlMsg)
    case Tel => if IsValidPhone(value) then None else Some(PhoneMsg)
    case _ => None
  }

  /** The decision `validateField` takes about a control holding `raw`:
      None when the field is valid, otherwise the message it annotates the
      field with. */
  function FieldVerdict(required: bool, raw: string, kind: Kind, urlAccepted: set<string>): Option<string>
  {
    var value := Trim(raw);
    if required && value == [] then Some(RequiredMsg)
    else if value != [] then FormatCheck(kind, value, urlAccepted)
    else None
  }

  /** A required field holding only whitespace (or nothing) is rejected with
      the "required" message, whatever its type. */
  lemma RequiredBlankRejected(raw: string, kind: Kind, urlAccepted: set<string>)
    requires AllSpace(raw)
    ensures FieldVerdict(true, raw, kind, urlAccepted) == Some(RequiredMsg)
  {
    TrimSpec(raw);
  }

  /** A field that is not required and holds only whitespace is valid,
      whatever its type. */
  lemma OptionalBlankAccepted(raw: string, kind: Kind, urlAccepted: set<string>)
    requires AllSpace(raw)
    ensures FieldVerdict(false, raw, kind, urlAccepted) == None
  {
    TrimSpec(raw);
  }

  /** A value with content is rejected exactly when its type's validator
      rejects the trimmed value, with that type's message; text, time and
      checkbox values with content are always valid. */
  lemma FormatVerdicts(required: bool, raw: string, kind: Kind, urlAccepted: set<string>)
    requires !AllSpace(raw)
    ensures kind == Email ==>
      FieldVerdict(required, raw, kind, urlAccepted) == if IsValidEmail(Trim(raw)) then None else Some(EmailMsg)
    ensures kind == Url ==>
      FieldVerdict(required, raw, kind, urlAccepted) == if Trim(raw) in urlAccepted then None else Some(UrlMsg)
    ensures kind == Tel ==>
      FieldVerdict(required, raw, kind, urlAccepted) == if IsValidPhone(Trim(raw)) then None else Some(PhoneMsg)
    ensures kind !in {Email, Url, Tel} ==> FieldVerdict(required, raw, kind, urlAccepted) == None
  {
    TrimSpec(raw);
  }

  /** Every annotation `validateField` produces is one of its four messages. */
  lemma VerdictMessages(required: bool, raw: string, kind: Kind, urlAccepted: set<string>)
    ensures FieldVerdict(required, raw, kind, urlAccepted) in
      {None, Some(RequiredMsg), Some(EmailMsg), Some(UrlMsg), Some(PhoneMsg)}
  {
  }

  /** Whitespace typed around a value never changes the verdict. */
  lemma {:induction false} VerdictIgnoresPadding(required: bool, p: string, raw: string, q: string, kind: Kind, urlAccepted: set<string>)
    requires AllSpace(p) && AllSpace(q)
    ensures FieldVerdict(required, p + raw + q, kind, urlAccepted) == FieldVerdict(required, raw, kind, urlAccepted)
  {
    TrimPadded(p, raw, q);
  }

  /** What a schedule "to" handler does with the field's annotation. */
  datatype ScheduleAction = KeepAnnotation | FlagOrder | ClearOrder

  /** The "to" change handler's decision for the pair (`from`, `to`): nothing
      happens unless both are filled in; then "to" is flagged exactly when it
      is equal to or sorts before "from" as strings, and cleared otherwise. */
  function ScheduleCheck(from: string, to: string): (a: ScheduleAction)
    ensures a == KeepAnnotation <==> from == [] || to == []
    ensures a == FlagOrder <==> from != [] && to != [] && (to == from || JsLess(to, from))
    ensures a == ClearOrder <==> from != [] && to != [] && JsLess(from, to)
  {
    JsLessIrreflexive(from);
    JsLessTrichotomy(from, to);
    if from != [] && to != [] then
      // `to <= from` on strings is `!(from < to)`
      if !JsLess(from, to) then FlagOrder else ClearOrder
    else
      KeepAnnotation
  }

  /** A well-formed `HH:MM` value of a time input. */
  predicate IsTime(t: string)
  {
    && |t| == 5
    && IsDigit(t[0]) && IsDigit(t[1]) && t[2] == ':' && IsDigit(t[3]) && IsDigit(t[4])
    && 10 * DigitValue(t[0]) + DigitValue(t[1]) < 24
    && DigitValue(t[3]) < 6
  }

  function DigitValue(c: char): int
  {
    c as int - '0' as int
  }

  /** Minutes since midnight of a well-formed time value. */
  function MinuteOfDay(t: string): (m: nat)
    requires IsTime(t)
    ensures m < 24 * 60
  {
    (10 * DigitValue(t[0]) + DigitValue(t[1])) * 60 + 10 * DigitValue(t[3]) + DigitValue(t[4])
  }

  lemma DigitOrder(c: char, d: char)
    requires IsDigit(c) && IsDigit(d)
    ensures c < d <==> DigitValue(c) < DigitValue(d)
    ensures c == d <==> DigitValue(c) == DigitValue(d)
  {
  }

  /** Comparing two well-formed time values as strings orders them by the
      time of day they denote, which is what makes the string comparison in
      the schedule handlers sound. */
  lemma {:induction false} TimeOrderIsMinuteOrder(a: string, b: string)
    requires IsTime(a) && IsTime(b)
    ensures JsLess(a, b) <==> MinuteOfDay(a) < MinuteOfDay(b)
  {
    DigitOrder(a[0], b[0]);
    DigitOrder(a[1], b[1]);
    DigitOrder(a[3], b[3]);
    DigitOrder(a[4], b[4]);
    var a1, b1 := a[1..], b[1..];
    var a2, b2 := a1[1..], b1[1..];
    var a3, b3 := a2[1..], b2[1..];
    var a4, b4 := a3[1..], b3[1..];
    assert a1[0] == a[1] && b1[0] == b[1];
    assert a2[0] == a[2] && b2[0] == b[2];
    assert a3[0] == a[3] && b3[0] == b[3];
    assert a4[0] == a[4] && b4[0] == b[4];
    assert a4[1..] == [] && b4[1..] == [];
    assert JsLess(a4, b4) <==> a[4] < b[4];
    assert JsLess(a3, b3) <==> if a[3] == b[3] then a[4] < b[4] else a[3] < b[3];
    assert JsLess(a2, b2) <==> JsLess(a3, b3);
    assert JsLess(a1, b1) <==> if a[1] == b[1] then JsLess(a3, b3) else a[1] < b[1];
    assert JsLess(a, b) <==> if a[0] == b[0] then JsLess(a1, b1) else a[0] < b[0];
  }

  /** For well-formed times, a filled-in pair is flagged exactly when the end
      is not later in the day than the start. */
  lemma ScheduleFlagsEndNotAfterStart(from: string, to: string)
    requires IsTime(from) && IsTime(to)
    ensures ScheduleCheck(from, to) == FlagOrder <==> MinuteOfDay(to) <= MinuteOfDay(from)
  {
    TimeOrderIsMinuteOrder(from, to);
  }

  /** A file as the picker or a drop hands it over. */
  datatype FileInfo = FileInfo(name: string, mediaType: string, size: nat)

  /** The size ceiling: 10 MiB. */
  const MaxImageBytes: nat := 10 * 1024 * 1024

  datatype IntakeError = NotAnImage | TooLarge

  /** The file `change` handler's decision: the type check comes first, then
      the size check. */
  function IntakeCheck(f: FileInfo): (e: Option<IntakeError>)
    ensures e == None <==> "image/" <= f.mediaType && f.size <= MaxImageBytes
    ensures e == Some(NotAnImage) <==> !("image/" <= f.mediaType)
    ensures e == Some(TooLarge) <==> "image/" <= f.mediaType && f.size > MaxImageBytes
  {
    if !("image/" <= f.mediaType) then Some(NotAnImage)
    else if f.size > MaxImageBytes then Some(TooLarge)
    else None
  }

  /** An image of exactly 10 MiB is accepted; one byte more is too large. */
  lemma SizeCeiling(name: string, mediaType: string)
    requires "image/" <= mediaType
    ensures IntakeCheck(FileInfo(name, mediaType, 10485760)) == None
    ensures IntakeCheck(FileInfo(name, mediaType, 10485761)) == Some(TooLarge)
  {
  }
}
