/**
 * The resident form: how it is initialised from the record being viewed, which
 * errors `validate` reports, what `handleSubmit` hands to its caller, and which
 * relationship options are offered when a household already has a head.
 */
module PersonForm {
  import opened Wrappers
  import opened Json
  import Text
  import Types
  import DataService

  const NAME_MIN := 3
  const CPF_DIGITS := 11

  /** The fields `validate` checks; each error is reported under the field's `Key`. */
  datatype Checked = Name | Cpf | BirthDate | Relationship | Street | Neighborhood

  const AllChecked: set<Checked> := {Name, Cpf, BirthDate, Relationship, Street, Neighborhood}

  /** The property name of a checked field, which is also the key of its error message. */
  function Key(f: Checked): (k: string)
    ensures k in BlankForm
  {
    match f
    case Name => "name"
    case Cpf => "cpf"
    case BirthDate => "birthDate"
    case Relationship => "relationship"
    case Street => "street"
    case Neighborhood => "neighborhood"
  }

  /** The form's state: the record being edited and whether it is only being viewed. */
  datatype FormState = FormState(fields: Record, readOnly: bool)

  /** The record a new form starts from; the relationship is left unselected. */
  const BlankForm: Record := map[
    "id" := Str(""), "name" := Str(""), "birthDate" := Str(""), "relationship" := Str(""),
    "gender" := Str("Masculino"), "cpf" := Str(""), "rg" := Str(""), "civilStatus" := Str(Types.SINGLE),
    "email" := Str(""), "phone" := Str(""), "generalObservations" := Str(""),
    "street" := Str(""), "number" := Str(""), "neighborhood" := Str(""),
    "city" := Str("Cidade Local"), "state" := Str("UF"), "block" := Str(""), "lot" := Str(""),
    "education" := Obj(map[
      "isStudying" := Bool(false), "schoolName" := Str(""), "grade" := Str(""), "reasonNotStudying" := Str("")])]

  const InitialState := FormState(BlankForm, false)

  /** The optional fields an opened record gets defaulted with `|| ...` when it is loaded. */
  const LoadDefaults: map<string, Value> := map[
    "email" := Str(""), "phone" := Str(""), "generalObservations" := Str(""), "rg" := Str(""),
    "street" := Str(""), "number" := Str(""), "neighborhood" := Str(""),
    "civilStatus" := Str(Types.SINGLE)]

  /** `formData.relationship === RelationshipType.HEAD` */
  predicate IsHead(form: Record) {
    StrictEq(Field(form, "relationship"), Some(Str(Types.HEAD)))
  }

  /**
   * components/PersonForm.tsx:53-71, the effect run when the opened record or the
   * household's head status changes.
   */
  function Load(state: FormState, initialData: Option<Record>, headSet: bool): (s: FormState)
    ensures initialData.Some? ==> s.readOnly
    ensures initialData.Some? ==> s.fields.Keys == initialData.value.Keys + LoadDefaults.Keys
    ensures initialData.Some? ==> forall k :: k in initialData.value && k !in LoadDefaults ==>
      s.fields[k] == initialData.value[k]
    ensures initialData.Some? ==> forall k :: k in LoadDefaults ==>
      s.fields[k] == (if Present(Field(initialData.value, k)) then initialData.value[k] else LoadDefaults[k])
    ensures initialData.None? && !headSet ==> !s.readOnly && IsHead(s.fields)
    ensures initialData.None? && !headSet ==> forall k :: k in state.fields && k != "relationship" ==>
      k in s.fields && s.fields[k] == state.fields[k]
    ensures initialData.None? && headSet ==> s == state
  {
    if initialData.Some? then FormState(DataService.Fill(initialData.value, LoadDefaults), true)
    else if !headSet then FormState(state.fields["relationship" := Str(Types.HEAD)], false)
    else state
  }

  /** A new record in a household without a head starts as the head. */
  lemma NewRecordPreselectsHead()
    ensures IsHead(Load(InitialState, None, false).fields)
    ensures !Load(InitialState, None, false).readOnly
    ensures !IsHead(Load(InitialState, None, true).fields)
  {
  }

  /** Loading an opened record twice changes nothing the first load did not. */
  lemma LoadIdempotent(rec: Record, state: FormState, state': FormState, headSet: bool)
    ensures var once := Load(state, Some(rec), headSet);
      Load(state', Some(once.fields), headSet) == once
  {
    var once := Load(state, Some(rec), headSet).fields;
    var twice := DataService.Fill(once, LoadDefaults);
    forall k | k in LoadDefaults ensures twice[k] == once[k] {
      assert LoadDefaults[k].Str?;
    }
    assert twice == once;
  }

  /** `v?.trim()` is falsy: the field is missing, null or all whitespace. */
  predicate Blank(form: Record, k: string)
    requires k in form ==> form[k].Str? || form[k].Null?
  {
    k !in form || form[k].Null? || Text.Trim(form[k].s) == []
  }

  predicate TextOrAbsent(form: Record, k: string) {
    k in form ==> form[k].Str? || form[k].Null?
  }

  /**
   * What `validate` reads without throwing: name and cpf are strings and, for a head,
   * the address fields are strings when present.
   */
  predicate Readable(form: Record) {
    && "name" in form && form["name"].Str?
    && "cpf" in form && form["cpf"].Str?
    && (IsHead(form) ==> TextOrAbsent(form, "street") && TextOrAbsent(form, "neighborhood"))
  }

  /**
   * components/PersonForm.tsx:77, the name test as written: missing after trimming, or
   * shorter than three UTF-16 code units.
   */
  predicate NameFails(name: string) {
    var t := Text.Trim(name);
    t == [] || Text.Utf16Length(t) < NAME_MIN
  }

  /** Two emoji are a long enough name: JavaScript counts their four code units. */
  lemma TwoEmojiNameAccepted()
    ensures !NameFails("\U{1F600}\U{1F600}")
  {
    var name := "\U{1F600}\U{1F600}";
    assert Text.TrimStart(name) == name;
    assert Text.TrimEnd(name) == name;
    Text.SurrogatePairsCountTwice();
  }

  /** components/PersonForm.tsx:78, the cpf test as written: blank, or fewer than eleven digits. */
  predicate CpfFails(cpf: string) {
    Text.Trim(cpf) == [] || |Text.Digits(cpf)| < CPF_DIGITS
  }

  /** components/PersonForm.tsx:73-87, the fields `validate` reports errors for. */
  function Validate(form: Record): (errors: set<Checked>)
    requires Readable(form)
    ensures Name in errors <==> Text.Utf16Length(Text.Trim(form["name"].s)) < NAME_MIN
    ensures Cpf in errors <==> |Text.Digits(form["cpf"].s)| < CPF_DIGITS
    ensures BirthDate in errors <==> !Present(Field(form, "birthDate"))
    ensures Relationship in errors <==> !Present(Field(form, "relationship"))
    ensures Street in errors <==> IsHead(form) && Blank(form, "street")
    ensures Neighborhood in errors <==> IsHead(form) && Blank(form, "neighborhood")
  {
    var cpf := form["cpf"].s;
    assert CpfFails(cpf) <==> |Text.Digits(cpf)| < CPF_DIGITS by {
      if Text.Trim(cpf) == [] { Text.BlankHasNoDigits(cpf); }
    }
    Flagged(
      NameFails(form["name"].s),
      CpfFails(cpf),
      !Present(Field(form, "birthDate")),
      !Present(Field(form, "relationship")),
      IsHead(form) && Blank(form, "street"),
      IsHead(form) && Blank(form, "neighborhood"))
  }

  /** The checked fields whose flag is set. */
  function Flagged(name: bool, cpf: bool, birthDate: bool, relationship: bool, street: bool, neighborhood: bool)
    : (errors: set<Checked>)
    ensures Name in errors <==> name
    ensures Cpf in errors <==> cpf
    ensures BirthDate in errors <==> birthDate
    ensures Relationship in errors <==> relationship
    ensures Street in errors <==> street
    ensures Neighborhood in errors <==> neighborhood
  {
    set f | f in AllChecked && match f {
      case Name => name
      case Cpf => cpf
      case BirthDate => birthDate
      case Relationship => relationship
      case Street => street
      case Neighborhood => neighborhood
    }
  }

  /** components/PersonForm.tsx:89-96, `validate()`'s verdict, stated field by field. */
  function IsValid(form: Record): (ok: bool)
    requires Readable(form)
    ensures ok <==>
      && Text.Utf16Length(Text.Trim(form["name"].s)) >= NAME_MIN
      && |Text.Digits(form["cpf"].s)| >= CPF_DIGITS
      && Present(Field(form, "birthDate"))
      && Present(Field(form, "relationship"))
      && (IsHead(form) ==> !Blank(form, "street") && !Blank(form, "neighborhood"))
  {
    var errors := Validate(form);
    NoneChecked(errors);
    errors == {}
  }

  /** A set of checked fields is empty exactly when none of the six is in it. */
  lemma NoneChecked(errors: set<Checked>)
    ensures errors == {} <==>
      && Name !in errors && Cpf !in errors && BirthDate !in errors
      && Relationship !in errors && Street !in errors && Neighborhood !in errors
  {
    if errors != {} {
      var f :| f in errors;
      assert f.Name? || f.Cpf? || f.BirthDate? || f.Relationship? || f.Street? || f.Neighborhood?;
    }
  }

  /** What `validate` needs to know of the blank form. */
  lemma BlankFormFields()
    ensures "name" in BlankForm && BlankForm["name"] == Str("")
    ensures "cpf" in BlankForm && BlankForm["cpf"] == Str("")
    ensures "birthDate" in BlankForm && BlankForm["birthDate"] == Str("")
    ensures "relationship" in BlankForm && BlankForm["relationship"] == Str("")
    ensures "street" in BlankForm && BlankForm["street"] == Str("")
    ensures "neighborhood" in BlankForm && BlankForm["neighborhood"] == Str("")
  {
  }

  /** The blank form reports name, cpf, birth date and the unselected relationship, and no address. */
  lemma BlankFormErrors()
    ensures Readable(BlankForm) && var errors := Validate(BlankForm);
      && Name in errors && Cpf in errors && BirthDate in errors && Relationship in errors
      && Street !in errors && Neighborhood !in errors
  {
    BlankFormFields();
    EmptyFieldErrors(BlankForm);
  }

  /** What `validate` needs to know of the blank form with HEAD selected. */
  lemma BlankHeadFields()
    ensures var head := BlankForm["relationship" := Str(Types.HEAD)];
      && "name" in head && head["name"] == Str("") && "cpf" in head && head["cpf"] == Str("")
      && "birthDate" in head && head["birthDate"] == Str("")
      && "street" in head && head["street"] == Str("") && "neighborhood" in head && head["neighborhood"] == Str("")
      && IsHead(head)
  {
    BlankFormFields();
  }

  /** The blank form with HEAD selected reports the empty address instead of the relationship. */
  lemma BlankHeadErrors()
    ensures var head := BlankForm["relationship" := Str(Types.HEAD)];
      Readable(head) && var errors := Validate(head);
      && Name in errors && Cpf in errors && BirthDate in errors && Relationship !in errors
      && Street in errors && Neighborhood in errors
  {
    BlankHeadFields();
    EmptyFieldErrors(BlankForm["relationship" := Str(Types.HEAD)]);
  }

  /** Once HEAD is preselected, the new form reports the empty address instead of the relationship. */
  lemma HeadFormErrors()
    ensures var head := Load(InitialState, None, false).fields;
      Readable(head) && var errors := Validate(head);
      && Name in errors && Cpf in errors && BirthDate in errors && Relationship !in errors
      && Street in errors && Neighborhood in errors
  {
    assert Load(InitialState, None, false).fields == BlankForm["relationship" := Str(Types.HEAD)];
    BlankHeadErrors();
  }

  /** With name, cpf, birth date, street and neighborhood all empty, only the relationship decides the rest. */
  lemma EmptyFieldErrors(form: Record)
    requires "name" in form && form["name"] == Str("") && "cpf" in form && form["cpf"] == Str("")
    requires "birthDate" in form && form["birthDate"] == Str("")
    requires "street" in form && form["street"] == Str("") && "neighborhood" in form && form["neighborhood"] == Str("")
    ensures Readable(form)
    ensures var errors := Validate(form);
      && Name in errors && Cpf in errors && BirthDate in errors
      && (Street in errors <==> IsHead(form)) && (Neighborhood in errors <==> IsHead(form))
  {
    assert Text.AllSpace("");
  }

  /** Separators in a cpf do not count: only its digits are checked. */
  lemma CpfSeparatorsIgnored(form: Record, cpf: string)
    requires Readable(form)
    requires Text.Digits(cpf) == Text.Digits(form["cpf"].s)
    ensures (Cpf in Validate(form)) <==> (Cpf in Validate(form["cpf" := Str(cpf)]))
  {
    var form' := form["cpf" := Str(cpf)];
    assert Field(form', "relationship") == Field(form, "relationship");
    assert Readable(form');
  }

  /** What the form does on submit. */
  datatype SubmitOutcome =
    | Ignored                         // the form is only being viewed
    | Rejected(errors: set<Checked>)  // the errors are shown and nothing is sent
    | Submitted(person: Record)       // `onSubmit` receives the record

  /**
   * `{ ...formData, id: initialData?.id || <fresh id> }`: the record handed to `onSubmit`,
   * keeping the opened record's id when truthy and drawing one otherwise.
   */
  function Payload(form: Record, initialData: Option<Record>, ids: DataService.IdSource, k: nat)
    : (p: DataService.Drawn<Record>)
    ensures p.value.Keys == form.Keys + {"id"}
    ensures forall key :: key in form && key != "id" ==> p.value[key] == form[key]
    ensures Truthy(p.value["id"])
    ensures initialData.Some? && Present(Field(initialData.value, "id")) ==>
      p.value["id"] == initialData.value["id"] && p.next == k
    ensures !(initialData.Some? && Present(Field(initialData.value, "id"))) ==>
      p.value["id"] == Str(ids(k)) && p.next == k + 1
  {
    if initialData.Some? && Present(Field(initialData.value, "id")) then
      DataService.Drawn(form["id" := initialData.value["id"]], k)
    else
      DataService.Drawn(form["id" := Str(ids(k))], k + 1)
  }

  /**
   * components/PersonForm.tsx:118-124, `handleSubmit`: nothing while viewing, the error set
   * for an invalid form, and otherwise the `Payload` of the form.
   */
  function Submit(state: FormState, initialData: Option<Record>, ids: DataService.IdSource, k: nat)
    : (r: DataService.Drawn<SubmitOutcome>)
    requires state.readOnly || Readable(state.fields)
    ensures state.readOnly ==> r == DataService.Drawn(Ignored, k)
    ensures !state.readOnly && !IsValid(state.fields) ==>
      r == DataService.Drawn(Rejected(Validate(state.fields)), k) && r.value.errors != {}
    ensures r.value.Submitted? <==> !state.readOnly && IsValid(state.fields)
    ensures r.value.Submitted? ==>
      var p := Payload(state.fields, initialData, ids, k);
      r == DataService.Drawn(Submitted(p.value), p.next)
  {
    if state.readOnly then DataService.Drawn(Ignored, k)
    else if !IsValid(state.fields) then DataService.Drawn(Rejected(Validate(state.fields)), k)
    else
      var p := Payload(state.fields, initialData, ids, k);
      DataService.Drawn(Submitted(p.value), p.next)
  }

  /**
   * components/PersonForm.tsx:200: the HEAD option is disabled when the household has a
   * head and the record being edited is not it.
   */
  predicate OptionDisabled(option: string, headSet: bool, form: Record) {
    option == Types.HEAD && headSet && !IsHead(form)
  }

  /**
   * The gate keeps a household at one head: while a head exists, a record that is not
   * already HEAD can only be given an enabled option, and none of those is HEAD.
   */
  lemma EnabledOptionsKeepOneHead(headSet: bool, form: Record, choice: string)
    requires headSet && !IsHead(form)
    requires choice in Types.Relationships && !OptionDisabled(choice, headSet, form)
    ensures !IsHead(form["relationship" := Str(choice)])
  {
  }
}
