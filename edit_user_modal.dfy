/** The administrator's edit dialog (components/EditUserModal.tsx): the form
    seeded from a roster record, the masked date input, the three validators
    and the submit gate. */
module EditUserModal {
  import opened Js
  import opened Text
  import FormText

  /** The form's fields in the order the form object declares them. */
  const FormFields: seq<string> := [
    "id", "name", "father_name", "nationality", "phone_number", "date_of_birth", "caste",
    "gender", "gotra", "education", "occupation", "postal_address", "mother_tongue",
    "marital_status", "state", "district", "email", "adhaar"]

  lemma FormFieldsDistinct()
    ensures forall i, j :: 0 <= i < j < |FormFields| ==> FormFields[i] != FormFields[j]
  {
  }

  /** The seed value of one field: the date goes through the ISO converter,
      every other field is `user[key] || ''`. */
  function SeedValue(user: Record, key: string): string {
    if key == "date_of_birth" then FormText.IsoToDmy(Get(user, key)) else OrEmpty(Get(user, key))
  }

  /** The initial `formData`. */
  function InitialForm(user: Record): Record {
    seq(|FormFields|, i requires 0 <= i < |FormFields| => (FormFields[i], Str(SeedValue(user, FormFields[i]))))
  }

  lemma InitialFormKeys(user: Record)
    ensures Keys(InitialForm(user)) == FormFields && UniqueKeys(InitialForm(user))
  {
    FormFieldsDistinct();
  }

  lemma InitialFormGet(user: Record, k: string)
    requires k in FormFields
    ensures Get(InitialForm(user), k) == Str(SeedValue(user, k))
  {
    InitialFormKeys(user);
    var i :| 0 <= i < |FormFields| && FormFields[i] == k;
    GetAt(InitialForm(user), i);
  }

  /** The seeded form has exactly the form's fields, each holding text: the
      date converted from ISO, every other field the record's value when that
      is non-empty text and the empty string otherwise. */
  lemma InitialFormSpec(user: Record)
    ensures Keys(InitialForm(user)) == FormFields && UniqueKeys(InitialForm(user))
    ensures Get(InitialForm(user), "date_of_birth") == Str(FormText.IsoToDmy(Get(user, "date_of_birth")))
    ensures forall k :: k in FormFields && k != "date_of_birth" ==>
      (Truthy(Get(user, k)) ==> Get(InitialForm(user), k) == Get(user, k)) &&
      (!Truthy(Get(user, k)) ==> Get(InitialForm(user), k) == Str(""))
  {
    InitialFormKeys(user);
    assert "date_of_birth" == FormFields[5];
    InitialFormGet(user, "date_of_birth");
    forall k | k in FormFields && k != "date_of_birth"
      ensures Get(InitialForm(user), k) == Str(OrEmpty(Get(user, k)))
    {
      InitialFormGet(user, k);
    }
  }

  /** A stored ISO date (with or without a time part) is seeded as DD/MM/YYYY. */
  lemma InitialDateOfIso(user: Record, y: string, m: string, d: string, suffix: string)
    requires Get(user, "date_of_birth") == Str(y + "-" + m + "-" + d + suffix)
    requires y != "" && m != "" && d != ""
    requires '-' !in y && '-' !in m && '-' !in d
    requires 'T' !in y && 'T' !in m && 'T' !in d
    requires suffix == "" || suffix[0] == 'T'
    ensures Get(InitialForm(user), "date_of_birth") == Str(FormText.DmyOf(y, m, d))
  {
    InitialFormSpec(user);
    FormText.IsoToDmyOfIso(y, m, d, suffix);
  }

  // ---------------------------------------------------------------------------
  // Validation

  /** The characters of the JavaScript regular-expression class `\s`. */
  predicate IsSpace(c: char) {
    c == ' ' || '\t' <= c <= '\r'
    || c as int == 0xA0 || c as int == 0x1680 || 0x2000 <= c as int <= 0x200A
    || c as int == 0x2028 || c as int == 0x2029 || c as int == 0x202F
    || c as int == 0x205F || c as int == 0x3000 || c as int == 0xFEFF
  }

  /** A character of the class `[^\s@]`. */
  predicate EmailChar(c: char) {
    c != '@' && !IsSpace(c)
  }

  /** What `/^[^\s@]+@[^\s@]+\.[^\s@]+$/` accepts: an `@` at `at` and a `.`
      at `dot` cut the text into three non-empty runs of `[^\s@]`. */
  ghost predicate EmailRegex(s: string) {
    exists at, dot :: 0 < at && at + 1 < dot < |s| - 1 && s[at] == '@' && s[dot] == '.' &&
      forall k :: 0 <= k < |s| && k != at ==> EmailChar(s[k])
  }

  function HasSpace(s: string): bool {
    exists k: nat | k < |s| :: IsSpace(s[k])
  }

  /** Executable check: exactly one `@`, something before it, no blank, and a
      dot after the `@` that is neither its neighbour nor the last character. */
  predicate EmailOk(s: string) {
    var parts := SplitOn(s, '@');
    |parts| == 2 && parts[0] != "" && !HasSpace(s) &&
    |parts[1]| >= 3 && '.' in parts[1][1..|parts[1]| - 1]
  }

  lemma SplitOfPair(a: string, b: string, c: char)
    requires c !in a && c !in b
    ensures SplitOn(a + [c] + b, c) == [a, b]
  {
    assert Join([a, b], [c]) == a + [c] + b;
    SplitOfJoin([a, b], c);
  }

  lemma EmailOkIsRegex(s: string)
    requires EmailOk(s)
    ensures EmailRegex(s)
  {
    var parts := SplitOn(s, '@');
    var a, b := parts[0], parts[1];
    JoinOfSplit(s, '@');
    assert parts == [a, b];
    assert s == a + "@" + b;
    SplitPartsAvoidSeparator(s, '@');
    assert '@' !in a && '@' !in b;
    var inner := b[1..|b| - 1];
    var k :| 0 <= k < |inner| && inner[k] == '.';
    var at, dot := |a|, |a| + 2 + k;
    assert s[dot] == b[k + 1] == '.';
    assert s[at] == '@';
    forall n | 0 <= n < |s| && n != at ensures EmailChar(s[n]) {
      if n < at { assert s[n] == a[n]; } else { assert s[n] == b[n - at - 1]; }
      assert !IsSpace(s[n]);
    }
  }

  lemma RegexIsEmailOk(s: string)
    requires EmailRegex(s)
    ensures EmailOk(s)
  {
    var at, dot :| 0 < at && at + 1 < dot < |s| - 1 && s[at] == '@' && s[dot] == '.' &&
      forall k :: 0 <= k < |s| && k != at ==> EmailChar(s[k]);
    var a, b := s[..at], s[at + 1..];
    assert s == a + "@" + b;
    assert '@' !in a by {
      forall n | 0 <= n < |a| ensures a[n] != '@' { assert a[n] == s[n]; }
    }
    assert '@' !in b by {
      forall n | 0 <= n < |b| ensures b[n] != '@' { assert b[n] == s[n + at + 1]; }
    }
    SplitOfPair(a, b, '@');
    assert b[1..|b| - 1][dot - at - 2] == s[dot];
    assert !HasSpace(s) by {
      forall n | 0 <= n < |s| ensures !IsSpace(s[n]) {
        if n != at { assert EmailChar(s[n]); }
      }
    }
  }

  /** The executable check accepts exactly what the regular expression accepts. */
  lemma EmailOkIffRegex(s: string)
    ensures EmailOk(s) <==> EmailRegex(s)
  {
    if EmailOk(s) { EmailOkIsRegex(s); }
    if EmailRegex(s) { RegexIsEmailOk(s); }
  }

  const PhoneError := "Phone number must be 10 digits"
  const EmailError := "Valid email is required"
  const AdhaarError := "Adhaar number must be exactly 12 digits"

  /** `validate()`: the error messages of the three checked fields. */
  function Validate(form: Record): (errors: map<string, string>)
    ensures errors.Keys <= {"phone_number", "email", "adhaar"}
    ensures "phone_number" in errors <==>
      Truthy(Get(form, "phone_number")) && !IsDigitsOfLength(Get(form, "phone_number").s, 10)
    ensures "email" in errors <==> !EmailRegex(OrEmpty(Get(form, "email")))
    ensures "adhaar" in errors <==>
      Truthy(Get(form, "adhaar")) && !IsDigitsOfLength(Get(form, "adhaar").s, 12)
    ensures "phone_number" in errors ==> errors["phone_number"] == PhoneError
    ensures "email" in errors ==> errors["email"] == EmailError
    ensures "adhaar" in errors ==> errors["adhaar"] == AdhaarError
  {
    EmailOkIffRegex(OrEmpty(Get(form, "email")));
    var phone: map<string, string> := if FormText.PhoneInvalid(Get(form, "phone_number")) then map["phone_number" := PhoneError] else map[];
    var email := if !Truthy(Get(form, "email")) || !EmailOk(Get(form, "email").s) then phone["email" := EmailError] else phone;
    if FormText.AadhaarInvalid(Get(form, "adhaar")) then email["adhaar" := AdhaarError] else email
  }

  /** An empty phone or Aadhaar number is accepted; the email is required. */
  lemma OptionalAndRequiredFields(form: Record)
    requires !Truthy(Get(form, "phone_number")) && !Truthy(Get(form, "adhaar"))
    ensures Validate(form).Keys <= {"email"}
    ensures "email" in Validate(form) <==> !Truthy(Get(form, "email")) || !EmailRegex(Get(form, "email").s)
  {
    if !Truthy(Get(form, "email")) {
      assert !EmailRegex("");
    }
  }

  // ---------------------------------------------------------------------------
  // The dialog's state

  class Dialog {
    var formData: Record
    var errors: map<string, string>

    constructor (user: Record)
      ensures formData == InitialForm(user) && errors == map[]
    {
      formData := InitialForm(user);
      errors := map[];
    }

    /** `handleChange`: the date of birth is masked as typed; the field's
        value is replaced (a new field is appended) and its error cleared. */
    method HandleChange(name: string, typed: string)
      modifies this
      ensures formData == Set(old(formData), name, Str(if name == "date_of_birth" then FormText.MaskDmy(typed) else typed))
      ensures errors == old(errors)[name := ""]
    {
      var value := if name == "date_of_birth" then FormText.MaskDmy(typed) else typed;
      formData := Set(formData, name, Str(value));
      errors := errors[name := ""];
    }

    /** `handleSubmit`: with any validation error the errors are shown and
        nothing is saved; otherwise the form is handed to the save handler
        (and the dialog closes). */
    method HandleSubmit() returns (saved: Option<Record>)
      modifies this`errors
      ensures saved.Some? <==> Validate(formData) == map[]
      ensures saved.Some? ==> saved.value == formData && errors == old(errors)
      ensures saved.None? ==> errors == Validate(formData)
    {
      var found := Validate(formData);
      if |found| > 0 {
        errors := found;
        return None;
      }
      return Some(formData);
    }
  }

  /** Editing a field of the seeded form keeps the form's fields and their order. */
  lemma ChangeKeepsFields(user: Record, name: string, value: Value)
    requires name in FormFields
    ensures Keys(Set(InitialForm(user), name, value)) == FormFields
    ensures UniqueKeys(Set(InitialForm(user), name, value))
  {
    InitialFormKeys(user);
    KeysSet(InitialForm(user), name, value);
    SetUnique(InitialForm(user), name, value);
  }

  /** A date typed into the dialog is always a prefix shape of DD/MM/YYYY. */
  lemma TypedDateShape(form: Record, typed: string)
    ensures var v := Get(Set(form, "date_of_birth", Str(FormText.MaskDmy(typed))), "date_of_birth");
      v.Str? && |v.s| <= 10 && forall k :: 0 <= k < |v.s| ==> (v.s[k] == '/' <==> k == 2 || k == 5)
  {
    GetSet(form, "date_of_birth", Str(FormText.MaskDmy(typed)), "date_of_birth");
    FormText.MaskDmyFormat(typed);
  }
}
