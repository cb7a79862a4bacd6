/**
 * The estimate request wizard: three steps (work type, budget, contact
 * details), a submit guard on the required contact fields, and the mapping
 * of the form onto the legacy estimate record the mail service expects,
 * which splits the full name at its first space.
 */
module Estimate {
  import opened Common

  const TotalSteps: int := 3

  const SendFailedError: string := "Envoi impossible pour le moment. Merci de réessayer."

  /** The wizard's form; `workType` is the form's `type` field. */
  datatype FormData = FormData(
    workType: string,
    budget: string,
    name: string,
    email: string,
    phone: string,
    address: string,
    timeframe: string,
    hasPlans: string,
    message: string)

  /** The names `handleChange` is called with. */
  datatype Field = Type | Budget | Name | Email | Phone | Address | Timeframe | HasPlans | Message

  /** The legacy estimate record sent by mail. */
  datatype EstimateData = EstimateData(
    firstName: string,
    lastName: string,
    phone: string,
    email: string,
    preferredContact: string,
    address: string,
    city: string,
    postalCode: string,
    propertyType: string,
    propertyStatus: string,
    constructionYear: string,
    serviceType: string,
    budget: string,
    timeframe: string,
    hasPlans: string,
    description: string,
    source: string)

  const EmptyForm: FormData := FormData("", "", "", "", "", "", "", "", "")

  /** `{ ...prev, [field]: value }`. */
  function WithField(f: FormData, field: Field, value: string): (g: FormData)
    ensures field == Type ==> g == f.(workType := value)
    ensures field == Budget ==> g == f.(budget := value)
    ensures field == Name ==> g == f.(name := value)
    ensures field == Email ==> g == f.(email := value)
    ensures field == Phone ==> g == f.(phone := value)
    ensures field == Address ==> g == f.(address := value)
    ensures field == Timeframe ==> g == f.(timeframe := value)
    ensures field == HasPlans ==> g == f.(hasPlans := value)
    ensures field == Message ==> g == f.(message := value)
  {
    match field
    case Type => f.(workType := value)
    case Budget => f.(budget := value)
    case Name => f.(name := value)
    case Email => f.(email := value)
    case Phone => f.(phone := value)
    case Address => f.(address := value)
    case Timeframe => f.(timeframe := value)
    case HasPlans => f.(hasPlans := value)
    case Message => f.(message := value)
  }

  // ---------------------------------------------------------------------
  // String split and join on one character

  /** `s.split(sep)`: the pieces between successive separators. */
  function Split(s: string, sep: char): (parts: seq<string>)
    ensures |parts| >= 1
    ensures forall i :: 0 <= i < |parts| ==> sep !in parts[i]
    decreases |s|
  {
    if s == [] then [""]
    else
      var rest := Split(s[1..], sep);
      if s[0] == sep then [""] + rest
      else [[s[0]] + rest[0]] + rest[1..]
  }

  /** `parts.join(sep)`. */
  function Join(parts: seq<string>, sep: char): string
    decreases |parts|
  {
    if |parts| == 0 then ""
    else if |parts| == 1 then parts[0]
    else parts[0] + [sep] + Join(parts[1..], sep)
  }

  /** Joining the pieces back with the separator gives the original string. */
  lemma {:induction false} JoinSplit(s: string, sep: char)
    ensures Join(Split(s, sep), sep) == s
    decreases |s|
  {
    if s != [] {
      var rest := Split(s[1..], sep);
      JoinSplit(s[1..], sep);
      if s[0] == sep {
        assert Split(s, sep) == [""] + rest;
        assert ([""] + rest)[1..] == rest;
      } else {
        var parts := [[s[0]] + rest[0]] + rest[1..];
        assert Split(s, sep) == parts;
        if |rest| > 1 {
          assert parts[1..] == rest[1..];
          assert Join(rest, sep) == rest[0] + [sep] + Join(rest[1..], sep);
        }
        assert s == [s[0]] + s[1..];
      }
    }
  }

  /** There is more than one piece exactly when the separator occurs. */
  lemma {:induction false} SplitCount(s: string, sep: char)
    ensures |Split(s, sep)| == 1 <==> sep !in s
    decreases |s|
  {
    if s != [] {
      SplitCount(s[1..], sep);
      assert s == [s[0]] + s[1..];
    }
  }

  // ---------------------------------------------------------------------
  // The name split

  /** `name.split(' ')[0]`. */
  function FirstName(name: string): string {
    Split(name, ' ')[0]
  }

  /** `name.split(' ').slice(1).join(' ') || ''`. */
  function LastName(name: string): string {
    var rest := Join(Split(name, ' ')[1..], ' ');
    if rest != "" then rest else ""
  }

  /** The first name has no space; with a space in the name, first name,
      one space and last name give the name back; without one, the first
      name is the whole name and the last name is empty. */
  lemma NameRoundTrip(name: string)
    ensures ' ' !in FirstName(name)
    ensures ' ' in name ==> FirstName(name) + " " + LastName(name) == name
    ensures ' ' !in name ==> FirstName(name) == name && LastName(name) == ""
  {
    var parts := Split(name, ' ');
    JoinSplit(name, ' ');
    SplitCount(name, ' ');
    if |parts| > 1 {
      assert Join(parts, ' ') == parts[0] + " " + Join(parts[1..], ' ');
    }
  }

  /** So the first name is the text before the first space and the last
      name the text after it. */
  lemma NameSplitsAtFirstSpace(name: string, i: int)
    requires 0 <= i < |name| && name[i] == ' '
    requires forall j :: 0 <= j < i ==> name[j] != ' '
    ensures FirstName(name) == name[..i]
    ensures LastName(name) == name[i + 1..]
  {
    NameRoundTrip(name);
    var f := FirstName(name);
    assert name == f + " " + LastName(name);
    assert name[|f|] == ' ';
    if |f| > i {
      assert false;
    } else if |f| < i {
      assert false;
    }
    assert name[i + 1..] == LastName(name);
  }

  // ---------------------------------------------------------------------
  // Submission

  /** The wizard can submit only with a name, an email and a message. */
  predicate ReadyToSubmit(f: FormData) {
    f.name != "" && f.email != "" && f.message != ""
  }

  /** The legacy record built from the form. */
  function Submission(f: FormData): (d: EstimateData)
    ensures d.serviceType == f.workType && d.city == f.address && d.address == f.address
    ensures d.description == f.message && d.preferredContact == "email"
    ensures d.phone == f.phone && d.email == f.email && d.budget == f.budget
    ensures d.timeframe == f.timeframe && d.hasPlans == f.hasPlans
    ensures d.postalCode == "" && d.propertyType == "" && d.propertyStatus == ""
    ensures d.constructionYear == "" && d.source == ""
  {
    EstimateData(
      FirstName(f.name), LastName(f.name), f.phone, f.email, "email",
      f.address, f.address, "", "", "", "", f.workType, f.budget,
      f.timeframe, f.hasPlans, f.message, "")
  }

  /** The submitted record still determines the contact name when it has a
      space, and is the name itself otherwise. */
  lemma SubmissionKeepsName(f: FormData)
    ensures ' ' in f.name ==> Submission(f).firstName + " " + Submission(f).lastName == f.name
    ensures ' ' !in f.name ==> Submission(f).firstName == f.name && Submission(f).lastName == ""
  {
    NameRoundTrip(f.name);
  }

  // ---------------------------------------------------------------------
  // The wizard

  class EstimateWizard {
    var step: int
    var isSubmitting: bool
    var isSubmitted: bool
    var error: string
    var form: FormData

    ghost predicate Valid()
      reads this
    {
      1 <= step <= TotalSteps
    }

    /** First render on step 1, with the `service` query parameter (when
        present and non-empty) preselected as the work type. */
    constructor(defaultService: string)
      ensures Valid() && step == 1 && !isSubmitting && !isSubmitted && error == ""
      ensures form == (if defaultService != "" then EmptyForm.(workType := defaultService) else EmptyForm)
    {
      step := 1;
      isSubmitting := false;
      isSubmitted := false;
      error := "";
      form := EmptyForm;
      new;
      if defaultService != "" {
        form := form.(workType := defaultService);
      }
    }

    /** `handlePrev`: one step back, never before step 1. */
    method HandlePrev()
      requires Valid()
      modifies this
      ensures Valid()
      ensures step == (if old(step) > 1 then old(step) - 1 else 1)
      ensures form == old(form) && isSubmitting == old(isSubmitting)
      ensures isSubmitted == old(isSubmitted) && error == old(error)
    {
      step := if step - 1 > 1 then step - 1 else 1;
    }

    /** `handleChange`. */
    method HandleChange(field: Field, value: string)
      modifies this
      ensures form == WithField(old(form), field, value)
      ensures step == old(step) && isSubmitting == old(isSubmitting)
      ensures isSubmitted == old(isSubmitted) && error == old(error)
    {
      form := WithField(form, field, value);
    }

    /** `handleTypeSelect`: record the work type and move to the budget step. */
    method HandleTypeSelect(value: string)
      modifies this
      ensures Valid() && step == 2
      ensures form == old(form).(workType := value)
      ensures isSubmitting == old(isSubmitting) && isSubmitted == old(isSubmitted) && error == old(error)
    {
      HandleChange(Type, value);
      step := 2;
    }

    /** `handleBudgetSelect`: record the budget and move to the contact step. */
    method HandleBudgetSelect(value: string)
      modifies this
      ensures Valid() && step == 3
      ensures form == old(form).(budget := value)
      ensures isSubmitting == old(isSubmitting) && isSubmitted == old(isSubmitted) && error == old(error)
    {
      HandleChange(Budget, value);
      step := 3;
    }

    /** `handleSubmit`: a no-op unless name, email and message are filled in;
        otherwise the legacy record is sent, and `sendSucceeds` is the outcome
        of the mail call. */
    method HandleSubmit(sendSucceeds: bool) returns (sent: Option<EstimateData>)
      modifies this
      ensures !ReadyToSubmit(old(form)) ==>
        sent.None? && step == old(step) && isSubmitting == old(isSubmitting) &&
        isSubmitted == old(isSubmitted) && error == old(error)
      ensures ReadyToSubmit(old(form)) ==> sent == Some(Submission(old(form))) && !isSubmitting
      ensures ReadyToSubmit(old(form)) && sendSucceeds ==> isSubmitted && error == ""
      ensures ReadyToSubmit(old(form)) && !sendSucceeds ==> isSubmitted == old(isSubmitted) && error == SendFailedError
      ensures form == old(form) && step == old(step)
    {
      if !ReadyToSubmit(form) {
        return None;
      }
      isSubmitting := true;
      error := "";
      var data := Submission(form);
      sent := Some(data);
      if sendSucceeds {
        isSubmitted := true;
      } else {
        error := SendFailedError;
      }
      isSubmitting := false;
    }
  }
}
