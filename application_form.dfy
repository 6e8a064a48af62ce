/** The membership application form: its field record, the per-field
    validation, the clearing of a field's error when the field is edited, and
    the ordered key/value payload handed to the form-submission endpoint. */
module ApplicationForm {
  import opened Wrappers
  import opened JsString
  import Departments

  /** A plain JavaScript object of string fields, as its entries in insertion
      order (the order `Object.entries` yields). */
  type Record = seq<(string, string)>

  /** Position of the first entry with key `key`, or `|r|` when there is none. */
  function IndexOf(r: Record, key: string): (i: nat)
    ensures i <= |r|
    ensures forall j :: 0 <= j < i ==> r[j].0 != key
    ensures i < |r| ==> r[i].0 == key
  {
    if r == [] || r[0].0 == key then 0 else 1 + IndexOf(r[1..], key)
  }

  /** Some entry of `r` is `(key, value)` and no entry before it has `key`. */
  predicate IsFirstEntry(r: Record, key: string, value: string) {
    exists i :: 0 <= i < |r| && r[i] == (key, value) && forall j :: 0 <= j < i ==> r[j].0 != key
  }

  /** `record[key]`: the value of the first entry with that key. */
  function Lookup(r: Record, key: string): (v: Option<string>)
    ensures v.None? <==> forall i :: 0 <= i < |r| ==> r[i].0 != key
    ensures v.Some? ==> IsFirstEntry(r, key, v.value)
  {
    var i := IndexOf(r, key);
    if i < |r| then Some(r[i].1) else None
  }

  /** The first position holding `key` is unique. */
  lemma IndexOfUnique(r: Record, key: string, i: nat)
    requires i <= |r| && (i < |r| ==> r[i].0 == key)
    requires forall j :: 0 <= j < i ==> r[j].0 != key
    ensures IndexOf(r, key) == i
  {
  }

  /** `{ ...r, [key]: value }`: an existing key keeps its place and takes the
      new value; a new key is appended. */
  function Assign(r: Record, key: string, value: string): (r': Record)
    ensures Lookup(r', key) == Some(value)
    ensures Lookup(r, key).Some? ==>
      |r'| == |r| && forall i :: 0 <= i < |r| ==> r'[i].0 == r[i].0
    ensures Lookup(r, key).None? ==> r' == r + [(key, value)]
    ensures Lookup(r, key) == Some(value) ==> r' == r
  {
    var i := IndexOf(r, key);
    if i < |r| then
      var r' := r[i := (key, value)];
      IndexOfUnique(r', key, i);
      r'
    else
      var r' := r + [(key, value)];
      IndexOfUnique(r', key, i);
      r'
  }

  /** Assigning one key leaves the value of every other key as it was. */
  lemma AssignOthersUnchanged(r: Record, key: string, value: string)
    ensures forall k :: k != key ==> Lookup(Assign(r, key, value), k) == Lookup(r, k)
  {
    var r' := Assign(r, key, value);
    forall k | k != key
      ensures Lookup(r', k) == Lookup(r, k)
    {
      var n := IndexOf(r, k);
      assert forall j :: 0 <= j < n ==> r'[j].0 == r[j].0;
      if n < |r| {
        IndexOfUnique(r', k, n);
      } else {
        IndexOfUnique(r', k, |r'|);
      }
    }
  }

  /** The value of a field that the form always holds. */
  function Value(r: Record, key: string): string {
    var i := IndexOf(r, key);
    if i < |r| then r[i].1 else ""
  }

  /** Reading a field the record holds gives its `Lookup` value. */
  lemma ValueIsLookup(r: Record, key: string)
    requires Lookup(r, key).Some?
    ensures Value(r, key) == Lookup(r, key).value
  {
  }

  /** The form's fields, in the order of its initial state. */
  const FieldOrder: seq<string> := ["name", "email", "phone", "department", "year", "branch"]

  /** The six field names are pairwise distinct: they differ in their first
      letter. */
  lemma FieldNamesDistinct()
    ensures forall i, j :: 0 <= i < j < 6 ==> FieldOrder[i] != FieldOrder[j]
    ensures "name" != "email" && "name" != "phone" && "name" != "department"
    ensures "name" != "year" && "name" != "branch" && "email" != "phone"
    ensures "email" != "department" && "email" != "year" && "email" != "branch"
    ensures "phone" != "department" && "phone" != "year" && "phone" != "branch"
    ensures "department" != "year" && "department" != "branch" && "year" != "branch"
  {
    assert forall i :: 0 <= i < 6 ==> FieldOrder[i][0] == "nepdyb"[i];
  }

  /** The record starts with the six fields in their initial order. */
  predicate FollowsFieldOrder(r: Record) {
    |r| >= 6 && forall i :: 0 <= i < 6 ==> r[i].0 == FieldOrder[i]
  }

  /** The initial form state for the route parameter `departmentId`
      (`None` when the route has none). */
  function InitialForm(departmentId: Option<string>): (r: Record)
    ensures FollowsFieldOrder(r) && |r| == 6
    ensures Value(r, "department") == (if departmentId.Some? then departmentId.value else "")
    ensures forall k :: k in FieldOrder && k != "department" ==> Value(r, k) == ""
  {
    FieldNamesDistinct();
    var department := if departmentId.Some? then departmentId.value else "";
    var r := [("name", ""), ("email", ""), ("phone", ""), ("department", department), ("year", ""), ("branch", "")];
    IndexOfUnique(r, "department", 3);
    r
  }

  lemma FieldOrderHasFields(r: Record)
    requires FollowsFieldOrder(r)
    ensures forall k :: k in FieldOrder ==> Lookup(r, k).Some?
  {
    forall k | k in FieldOrder
      ensures Lookup(r, k).Some?
    {
      var i :| 0 <= i < 6 && FieldOrder[i] == k;
      assert r[i].0 == k;
    }
  }

  lemma AssignKeepsFieldOrder(r: Record, key: string, value: string)
    requires FollowsFieldOrder(r)
    ensures FollowsFieldOrder(Assign(r, key, value))
  {
    if Lookup(r, key).None? {
      assert Assign(r, key, value)[..|r|] == r;
    }
  }

  // The email pattern /\S+@\S+\.\S+/, tested anywhere in the string.

  /** The pattern matches with its `@` at `at` and its `.` at `dot`: at least
      one non-whitespace character before the `@`, only and at least one
      non-whitespace character between them, and one after the `.`. */
  predicate EmailMatchAt(s: string, at: nat, dot: nat) {
    && 0 < at && at + 1 < dot && dot + 1 < |s|
    && s[at] == '@' && s[dot] == '.'
    && !IsWhitespace(s[at - 1]) && !IsWhitespace(s[dot + 1])
    && forall k :: at < k < dot ==> !IsWhitespace(s[k])
  }

  /** `/\S+@\S+\.\S+/.test(s)`. */
  predicate EmailPattern(s: string) {
    exists at: nat, dot: nat | at < dot < |s| :: EmailMatchAt(s, at, dot)
  }

  /** The pattern is not anchored: text around a match does not undo it. */
  lemma EmailPatternInContext(before: string, s: string, after: string)
    requires EmailPattern(s)
    ensures EmailPattern(before + s + after)
  {
    var at: nat, dot: nat :| at < dot < |s| && EmailMatchAt(s, at, dot);
    var t := before + s + after;
    var n := |before|;
    assert t == before + (s + after);
    assert forall k :: n <= k < n + |s| ==> t[k] == s[k - n];
    assert t[n + at] == '@' && t[n + dot] == '.';
    assert !IsWhitespace(t[n + at - 1]) && !IsWhitespace(t[n + dot + 1]);
    assert EmailMatchAt(t, n + at, n + dot);
  }

  /** A blank email never matches, so "Email is required" and
      "Email is invalid" never both apply. */
  lemma BlankEmailNeverMatches(s: string)
    requires IsBlank(s)
    ensures !EmailPattern(s)
  {
    BlankIffAllWhitespace(s);
  }

  lemma EmailExamples()
    ensures EmailPattern("a@b.c")
    ensures EmailPattern("mail me: a@b.c ")
    ensures !EmailPattern("a@b")
    ensures !EmailPattern("a @b.c")
    ensures !EmailPattern("a@.c")
  {
    assert EmailMatchAt("a@b.c", 1, 3);
    EmailPatternInContext("mail me: ", "a@b.c", " ");
    assert "mail me: " + "a@b.c" + " " == "mail me: a@b.c ";
    var s := "a @b.c";
    forall at: nat, dot: nat | at < dot < |s|
      ensures !EmailMatchAt(s, at, dot)
    {
      if at == 2 { assert IsWhitespace(s[at - 1]); }
    }
  }

  // Validation.

  const FieldNames: set<string> := {"name", "email", "phone", "department", "year", "branch"}

  /** The error map holds `message` under `key` exactly when `failing`. */
  predicate Reports(errors: map<string, string>, key: string, message: string, failing: bool) {
    (key in errors <==> failing) && (key in errors ==> errors[key] == message)
  }

  /** The error map `validateForm` builds for the form `r`: name, phone and
      branch must not be blank after trimming; department and year must not
      be the empty string; the email must not be blank and must match the
      pattern. */
  predicate ErrorsFor(r: Record, errors: map<string, string>) {
    var email := Value(r, "email");
    && errors.Keys <= FieldNames
    && Reports(errors, "name", "Name is required", IsBlank(Value(r, "name")))
    && (if IsBlank(email)
        then Reports(errors, "email", "Email is required", true)
        else Reports(errors, "email", "Email is invalid", !EmailPattern(email)))
    && Reports(errors, "phone", "Phone is required", IsBlank(Value(r, "phone")))
    && Reports(errors, "department", "Department is required", Value(r, "department") == "")
    && Reports(errors, "year", "Year is required", Value(r, "year") == "")
    && Reports(errors, "branch", "Branch is required", IsBlank(Value(r, "branch")))
  }

  /** A form with nothing to report. */
  predicate Complete(r: Record) {
    && !IsBlank(Value(r, "name"))
    && !IsBlank(Value(r, "email")) && EmailPattern(Value(r, "email"))
    && !IsBlank(Value(r, "phone"))
    && Value(r, "department") != ""
    && Value(r, "year") != ""
    && !IsBlank(Value(r, "branch"))
  }

  /** Validation passes exactly for a complete form. */
  lemma NoErrorsIffComplete(r: Record, errors: map<string, string>)
    requires ErrorsFor(r, errors)
    ensures errors == map[] <==> Complete(r)
  {
    if Complete(r) {
      assert errors.Keys == {};
    } else {
      assert "name" in errors || "email" in errors || "phone" in errors
        || "department" in errors || "year" in errors || "branch" in errors;
    }
  }

  /** A department or year made only of whitespace passes its check, while a
      name, phone or branch made only of whitespace does not. */
  lemma SpacesPassOnlyUntrimmedChecks(r: Record, errors: map<string, string>)
    requires ErrorsFor(r, errors)
    requires Value(r, "department") != "" && AllWhitespace(Value(r, "department"))
    requires Value(r, "year") != "" && AllWhitespace(Value(r, "year"))
    requires AllWhitespace(Value(r, "name"))
    requires AllWhitespace(Value(r, "phone"))
    requires AllWhitespace(Value(r, "branch"))
    ensures "department" !in errors && "year" !in errors
    ensures "name" in errors && "phone" in errors && "branch" in errors
  {
    BlankIffAllWhitespace(Value(r, "name"));
    BlankIffAllWhitespace(Value(r, "phone"));
    BlankIffAllWhitespace(Value(r, "branch"));
  }

  /** The error map `validateForm` assembles field by field, from the
      outcomes of its checks in the order it makes them. */
  method AssembleErrors(nameBlank: bool, emailBlank: bool, emailMalformed: bool, phoneBlank: bool,
                        departmentEmpty: bool, yearEmpty: bool, branchBlank: bool)
    returns (errors: map<string, string>)
    ensures errors.Keys <= FieldNames
    ensures forall k :: k in errors ==> errors[k] != ""
    ensures Reports(errors, "name", "Name is required", nameBlank)
    ensures if emailBlank then Reports(errors, "email", "Email is required", true)
            else Reports(errors, "email", "Email is invalid", emailMalformed)
    ensures Reports(errors, "phone", "Phone is required", phoneBlank)
    ensures Reports(errors, "department", "Department is required", departmentEmpty)
    ensures Reports(errors, "year", "Year is required", yearEmpty)
    ensures Reports(errors, "branch", "Branch is required", branchBlank)
  {
    FieldNamesDistinct();
    errors := map[];
    if nameBlank {
      errors := errors["name" := "Name is required"];
    }
    assert errors.Keys <= {"name"};
    if emailBlank {
      errors := errors["email" := "Email is required"];
    } else if emailMalformed {
      errors := errors["email" := "Email is invalid"];
    }
    assert errors.Keys <= {"name", "email"};
    assert Reports(errors, "name", "Name is required", nameBlank);
    if phoneBlank {
      errors := errors["phone" := "Phone is required"];
    }
    assert errors.Keys <= {"name", "email", "phone"};
    if departmentEmpty {
      errors := errors["department" := "Department is required"];
    }
    assert errors.Keys <= {"name", "email", "phone", "department"};
    assert Reports(errors, "name", "Name is required", nameBlank);
    assert Reports(errors, "phone", "Phone is required", phoneBlank);
    if yearEmpty {
      errors := errors["year" := "Year is required"];
    }
    assert errors.Keys <= {"name", "email", "phone", "department", "year"};
    if branchBlank {
      errors := errors["branch" := "Branch is required"];
    }
  }

  /** The error map `validateForm` builds for the current form state. */
  method CollectErrors(r: Record) returns (errors: map<string, string>)
    ensures ErrorsFor(r, errors)
    ensures forall k :: k in errors ==> errors[k] != ""
  {
    var email := Value(r, "email");
    errors := AssembleErrors(IsBlank(Value(r, "name")), IsBlank(email), !EmailPattern(email),
      IsBlank(Value(r, "phone")), Value(r, "department") == "", Value(r, "year") == "",
      IsBlank(Value(r, "branch")));
  }

  // The submission payload.

  /** The selected résumé file; only its identity matters here. */
  datatype Upload = Upload(fileName: string)

  /** A `FormData` value: text or a file. */
  datatype Part = Text(text: string) | Attachment(upload: Upload)

  /** `data` is the `FormData` the submit handler builds: the form-name entry,
      then every form field in order, then the résumé when one is selected. */
  predicate IsPayloadOf(data: seq<(string, Part)>, r: Record, file: Option<Upload>) {
    && |data| == 1 + |r| + (if file.Some? then 1 else 0)
    && data[0] == ("form-name", Text("application-form"))
    && (forall i :: 0 <= i < |r| ==> data[1 + i] == (r[i].0, Text(r[i].1)))
    && (file.Some? ==> data[|data| - 1] == ("resume", Attachment(file.value)))
  }

  /** For a form in its field order, the payload keys start with form-name
      followed by the six fields in order. */
  lemma PayloadKeyOrder(data: seq<(string, Part)>, r: Record, file: Option<Upload>)
    requires IsPayloadOf(data, r, file) && FollowsFieldOrder(r)
    ensures data[0].0 == "form-name"
    ensures forall i :: 0 <= i < 6 ==> data[1 + i].0 == FieldOrder[i]
    ensures file.Some? ==> data[|data| - 1] == ("resume", Attachment(file.value))
    ensures |r| == 6 ==> |data| == (if file.Some? then 8 else 7)
  {
  }

  method BuildPayload(r: Record, file: Option<Upload>) returns (data: seq<(string, Part)>)
    ensures IsPayloadOf(data, r, file)
  {
    data := [("form-name", Text("application-form"))];
    var i := 0;
    while i < |r|
      invariant 0 <= i <= |r|
      invariant |data| == 1 + i
      invariant data[0] == ("form-name", Text("application-form"))
      invariant forall j :: 0 <= j < i ==> data[1 + j] == (r[j].0, Text(r[j].1))
    {
      data := data + [(r[i].0, Text(r[i].1))];
      i := i + 1;
    }
    if file.Some? {
      data := data + [("resume", Attachment(file.value))];
    }
  }

  class Form {
    var formState: Record
    var file: Option<Upload>
    var isSubmitting: bool
    var formErrors: map<string, string>
    /** Whether the page navigated to the department list. */
    var leftForDepartments: bool

    /** The record keeps its field order, and every stored error message is
        non-empty, hence truthy. */
    ghost predicate Valid()
      reads this
    {
      && FollowsFieldOrder(formState)
      && forall k :: k in formErrors ==> formErrors[k] != ""
    }

    /** Mounting the form for a route parameter, including the effect that
        checks the parameter against the catalogue. */
    constructor (departmentId: Option<string>)
      ensures Valid()
      ensures formState == InitialForm(departmentId)
      ensures file == None && !isSubmitting && formErrors == map[]
      ensures leftForDepartments <==>
        departmentId.Some? && departmentId.value != "" &&
        Departments.GetDepartmentById(departmentId.value).None?
    {
      formState := InitialForm(departmentId);
      file := None;
      isSubmitting := false;
      formErrors := map[];
      leftForDepartments := false;
      new;
      if departmentId.Some? && departmentId.value != "" {
        var dept := Departments.GetDepartmentById(departmentId.value);
        if dept.None? {
          leftForDepartments := true;
        } else {
          assert Lookup(formState, "department") == Some(departmentId.value);
          formState := Assign(formState, "department", departmentId.value);
        }
      }
    }

    /** `handleInputChange`: sets the named field and, when that field's
        error message is truthy, drops it; every other field and error stays.
        Under `Valid()` every stored message is truthy. */
    method HandleInputChange(name: string, value: string)
      requires Valid()
      modifies this
      ensures Valid()
      ensures formState == Assign(old(formState), name, value)
      ensures Lookup(formState, name) == Some(value)
      ensures forall k :: k != name ==> Lookup(formState, k) == Lookup(old(formState), k)
      ensures formErrors == old(formErrors) - {name}
      ensures file == old(file) && isSubmitting == old(isSubmitting)
      ensures leftForDepartments == old(leftForDepartments)
    {
      AssignKeepsFieldOrder(formState, name, value);
      AssignOthersUnchanged(formState, name, value);
      formState := Assign(formState, name, value);
      if name in formErrors && formErrors[name] != "" {
        formErrors := formErrors - {name};
      } else {
        assert formErrors == formErrors - {name};
      }
    }

    /** `handleFileChange`: the first chosen file, if any, becomes the résumé. */
    method HandleFileChange(files: seq<Upload>)
      modifies this
      ensures file == if |files| > 0 then Some(files[0]) else old(file)
      ensures formState == old(formState) && formErrors == old(formErrors)
      ensures isSubmitting == old(isSubmitting) && leftForDepartments == old(leftForDepartments)
    {
      if |files| > 0 {
        file := Some(files[0]);
      }
    }

    method ClearFile()
      modifies this
      ensures file == None
      ensures formState == old(formState) && formErrors == old(formErrors)
      ensures isSubmitting == old(isSubmitting) && leftForDepartments == old(leftForDepartments)
    {
      file := None;
    }

    /** `validateForm`: replaces the error map wholesale and reports whether
        it is empty. */
    method ValidateForm() returns (ok: bool)
      requires Valid()
      modifies this`formErrors
      ensures Valid()
      ensures ErrorsFor(formState, formErrors)
      ensures ok <==> formErrors == map[]
    {
      FieldOrderHasFields(formState);
      var errors := CollectErrors(formState);
      formErrors := errors;
      ok := |errors| == 0;
    }

    /** `handleSubmit` up to the network request: an invalid form stops with
        its errors shown; a valid one is marked as submitting and yields its
        payload. */
    method HandleSubmit() returns (payload: Option<seq<(string, Part)>>)
      requires Valid()
      modifies this
      ensures Valid()
      ensures formState == old(formState) && file == old(file)
      ensures leftForDepartments == old(leftForDepartments)
      ensures ErrorsFor(formState, formErrors)
      ensures payload.Some? <==> Complete(formState)
      ensures payload.None? ==> isSubmitting == old(isSubmitting)
      ensures payload.Some? ==> isSubmitting && IsPayloadOf(payload.value, formState, file)
    {
      var ok := ValidateForm();
      NoErrorsIffComplete(formState, formErrors);
      if !ok {
        return None;
      }
      isSubmitting := true;
      var data := BuildPayload(formState, file);
      payload := Some(data);
    }

    /** The `finally` of the submission: the form is no longer submitting. */
    method FinishSubmission()
      modifies this`isSubmitting
      ensures !isSubmitting
    {
      isSubmitting := false;
    }
  }
}
