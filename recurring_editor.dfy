/** The form that adds or edits one recurring item: its initial state, the
    merge of an item being edited, the submit guard, the single-field updates
    and the item it hands on when submitted. */
module RecurringEditor {
  import opened Wrappers
  import opened Text
  import opened DateText
  import opened Recurrence

  /** A numeric form field: text the user typed, or the number copied in from
      the item being edited (`None` is NaN). */
  datatype NumField = Typed(text: string) | Loaded(n: Option<int>)

  /** `Number(field)`. */
  function NumberOf(f: NumField): (r: Option<int>)
    ensures f.Loaded? ==> r == f.n
    ensures f.Typed? ==> r == JsNumber(f.text)
  {
    match f
    case Typed(t) => JsNumber(t)
    case Loaded(n) => n
  }

  /** `field || 0` is 0 exactly for the falsy field values: "", NaN and 0. */
  predicate Falsy(f: NumField) {
    f == Typed("") || f == Loaded(None) || f == Loaded(Some(0))
  }

  datatype StepForm = StepForm(enabled: bool, mode: string, every: string, value: NumField, from: Option<Date>)

  datatype Form = Form(
    id: string, kind: string, title: string, amount: NumField, recurrence: string,
    startDate: Option<Date>, endDate: Option<Date>, step: StepForm)

  const InitialStep := StepForm(false, "amount", "12m", Typed(""), None)

  /** The empty form: a monthly SIP with no step-up. */
  const Initial := Form("", "SIP", "", Typed(""), "monthly", None, None, InitialStep)

  /** The form loaded for editing `it`: its fields, with each step-up field
      defaulted when missing. */
  function FromItem(it: RecurringItem): (f: Form)
    ensures f.id == it.id && f.kind == it.kind && f.title == it.title
    ensures NumberOf(f.amount) == it.amount
    ensures it.stepUp.None? ==> f.step == InitialStep
  {
    var s := it.stepUp;
    Form(it.id, it.kind, it.title, Loaded(it.amount), it.recurrence, it.startDate, it.endDate,
      StepForm(
        s.Some? && s.value.enabled,
        if s.Some? && s.value.mode != "" then s.value.mode else "amount",
        if s.Some? && s.value.every != "" then s.value.every else "12m",
        if s.Some? && s.value.value.Some? then Loaded(s.value.value) else Typed(""),
        if s.Some? then s.value.from else None))
  }

  /** `canSubmit`: a type, a label that is not blank, a positive amount, and a
      start date unless the item is one-time. */
  predicate CanSubmit(f: Form) {
    var amt := NumberOf(f.amount);
    && f.kind != ""
    && Trim(f.title) != ""
    && amt.Some? && amt.value > 0
    && (f.startDate.Some? || f.recurrence == "one-time")
  }

  /** The label check is about the trimmed label: a label of only white space
      cannot be submitted. */
  lemma BlankTitleBlocks(f: Form)
    requires AllSpace(f.title)
    ensures !CanSubmit(f)
  {
    TrimEmptyIff(f.title);
  }

  /** The end date and step-up sections are shown only for a repeating SIP. */
  predicate ShowEndDate(f: Form) {
    f.kind == "SIP" && f.recurrence != "one-time"
  }

  predicate ShowStepUp(f: Form) {
    f.kind == "SIP" && f.recurrence != "one-time"
  }

  /** The item a submitted form hands on: the fresh id when the form has none,
      the amount as a number, the step-up value 0 and its start cleared when
      disabled, otherwise the start defaulted to the item's start. */
  function Normalized(f: Form, now: nat): (it: RecurringItem)
    ensures it.id != "" && (f.id != "" ==> it.id == f.id)
    ensures it.kind == f.kind && it.title == f.title && it.recurrence == f.recurrence
    ensures it.amount == NumberOf(f.amount)
    ensures it.startDate == f.startDate && it.endDate == f.endDate
    ensures it.stepUp.Some?
    ensures !f.step.enabled ==> it.stepUp.value.value == Some(0) && it.stepUp.value.from.None?
    ensures f.step.enabled && (f.step.from.Some? || f.startDate.Some?) ==> it.stepUp.value.from.Some?
  {
    var id := if f.id != "" then f.id else "rec_" + IntToString(now);
    var s := f.step;
    RecurringItem(id, f.kind, f.title, NumberOf(f.amount), f.recurrence, f.startDate, f.endDate,
      Some(StepUp(
        s.enabled, s.mode, s.every,
        if s.enabled then (if Falsy(s.value) then Some(0) else NumberOf(s.value)) else Some(0),
        if s.enabled then (if s.from.Some? then s.from else f.startDate) else None)))
  }

  /** An item the form can represent: what `Normalized` hands on always has
      this shape. */
  predicate WellFormed(it: RecurringItem) {
    && it.id != "" && it.kind != "" && Trim(it.title) != ""
    && it.amount.Some? && it.amount.value > 0
    && (it.startDate.Some? || it.recurrence == "one-time")
    && it.stepUp.Some? && it.stepUp.value.mode != "" && it.stepUp.value.every != ""
    && it.stepUp.value.value.Some?
    && (!it.stepUp.value.enabled ==> it.stepUp.value.value == Some(0) && it.stepUp.value.from.None?)
    && (it.stepUp.value.enabled ==> it.stepUp.value.from.Some?)
  }

  /** Editing a well-formed item and submitting it unchanged hands back the
      same item. */
  lemma EditRoundTrip(it: RecurringItem, now: nat)
    requires WellFormed(it)
    ensures CanSubmit(FromItem(it))
    ensures Normalized(FromItem(it), now) == it
  {
    var s := it.stepUp.value;
    var f := FromItem(it);
    assert f.step == StepForm(s.enabled, s.mode, s.every, Loaded(s.value), s.from);
  }

  /** Whatever the form holds, a submitted item is ready for editing again:
      its form passes the guard whenever the submitted one did. */
  lemma SubmitThenEdit(f: Form, now: nat)
    requires CanSubmit(f)
    ensures CanSubmit(FromItem(Normalized(f, now)))
  {}

  /** The fields `update(patch)` can set, one at a time as the inputs do. */
  datatype Patch =
    | SetKind(kind: string) | SetTitle(title: string) | SetAmount(amount: string)
    | SetRecurrence(recurrence: string) | SetStart(start: Option<Date>) | SetEnd(end: Option<Date>)

  /** The fields `updateStep(patch)` can set. */
  datatype StepPatch =
    | SetEnabled(enabled: bool) | SetMode(mode: string) | SetEvery(every: string)
    | SetValue(value: string) | SetFrom(from: Option<Date>)

  function Patched(f: Form, p: Patch): (g: Form)
    ensures g.id == f.id && g.step == f.step
  {
    match p
    case SetKind(k) => f.(kind := k)
    case SetTitle(t) => f.(title := t)
    case SetAmount(a) => f.(amount := Typed(a))
    case SetRecurrence(r) => f.(recurrence := r)
    case SetStart(d) => f.(startDate := d)
    case SetEnd(d) => f.(endDate := d)
  }

  function StepPatched(s: StepForm, p: StepPatch): StepForm {
    match p
    case SetEnabled(e) => s.(enabled := e)
    case SetMode(m) => s.(mode := m)
    case SetEvery(e) => s.(every := e)
    case SetValue(v) => s.(value := Typed(v))
    case SetFrom(d) => s.(from := d)
  }

  /** Step-up edits never change whether the form may be submitted. */
  lemma StepPatchKeepsGuard(f: Form, p: StepPatch)
    ensures CanSubmit(f.(step := StepPatched(f.step, p))) == CanSubmit(f)
  {}

  /** Typing an amount decides the amount check by `Number` of the text alone. */
  lemma AmountPatchGuard(f: Form, a: string)
    ensures CanSubmit(Patched(f, SetAmount(a))) ==> JsNumber(a).Some? && JsNumber(a).value > 0
    ensures CanSubmit(f) && JsNumber(a).Some? && JsNumber(a).value > 0 ==> CanSubmit(Patched(f, SetAmount(a)))
  {}

  /** The editor component's state: the form, and whether an item is being
      edited (then the form is not reset after a submit). */
  class Editor {
    var form: Form
    var editing: bool

    constructor()
      ensures form == Initial && !editing
    {
      form := Initial;
      editing := false;
    }

    /** The effect run when `editItem` changes to an item. */
    method LoadEdit(it: RecurringItem)
      modifies this
      ensures form == FromItem(it) && editing
    {
      form := FromItem(it);
      editing := true;
    }

    method Update(p: Patch)
      modifies this
      ensures form == Patched(old(form), p) && editing == old(editing)
    {
      form := Patched(form, p);
    }

    method UpdateStep(p: StepPatch)
      modifies this
      ensures form == old(form).(step := StepPatched(old(form).step, p)) && editing == old(editing)
    {
      form := form.(step := StepPatched(form.step, p));
    }

    /** `handleSubmit`: nothing unless the guard passes; otherwise hand on the
        normalised item and, when adding, reset the form. `now` is
        `Date.now()`. */
    method Submit(now: nat) returns (out: Option<RecurringItem>)
      modifies this
      ensures !CanSubmit(old(form)) ==> out.None? && form == old(form)
      ensures CanSubmit(old(form)) ==> out == Some(Normalized(old(form), now))
      ensures CanSubmit(old(form)) ==> form == (if editing then old(form) else Initial)
      ensures editing == old(editing)
    {
      if !CanSubmit(form) {
        return None;
      }
      var item := Normalized(form, now);
      out := Some(item);
      if !editing {
        form := Initial;
      }
    }
  }

  /** A submitted item always has a positive amount, a start date unless it is
      one-time, and a complete step-up rule. */
  lemma SubmittedShape(f: Form, now: nat)
    requires CanSubmit(f)
    ensures var it := Normalized(f, now);
      && it.amount.Some? && it.amount.value > 0
      && (it.startDate.Some? || it.recurrence == "one-time")
      && it.stepUp.value.mode == f.step.mode && it.stepUp.value.every == f.step.every
  {}
}
