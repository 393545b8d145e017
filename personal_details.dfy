/** The signed-in user's personal-details page (app/personal-details/page.tsx):
    field labels, the date validator, the load merge, field edits and the
    submit checks. */
module PersonalDetails {
  import opened Js
  import opened Text
  import FormText

  /** The fields of `initialForm`, in declaration order. */
  const FormFields: seq<string> := [
    "email", "adhaar", "name", "father_name", "nationality", "phone_number", "date_of_birth",
    "caste", "gender", "gotra", "education", "occupation", "postal_address", "mother_tongue",
    "marital_status", "state", "district"]

  /** `initialForm`: every field present and empty. */
  function InitialForm(): Record {
    seq(|FormFields|, i requires 0 <= i < |FormFields| => (FormFields[i], Str("")))
  }

  lemma FormFieldsDistinct()
    ensures forall i, j :: 0 <= i < j < |FormFields| ==> FormFields[i] != FormFields[j]
  {
  }

  lemma InitialFormKeys()
    ensures Keys(InitialForm()) == FormFields && UniqueKeys(InitialForm())
  {
    FormFieldsDistinct();
  }

  lemma InitialFormSpec()
    ensures Keys(InitialForm()) == FormFields && UniqueKeys(InitialForm())
    ensures forall k :: k in FormFields ==> Get(InitialForm(), k) == Str("")
  {
    InitialFormKeys();
    forall k | k in FormFields ensures Get(InitialForm(), k) == Str("") {
      var i :| 0 <= i < |FormFields| && FormFields[i] == k;
      GetAt(InitialForm(), i);
    }
  }

  // ---------------------------------------------------------------------------
  // Labels

  /** `word.charAt(0).toUpperCase() + word.slice(1)` */
  function Capitalize(word: string): string {
    if word == "" then "" else [Upper(word[0])] + word[1..]
  }

  function CapitalizeAll(words: seq<string>): (r: seq<string>)
    ensures |r| == |words|
  {
    if words == [] then [] else [Capitalize(words[0])] + CapitalizeAll(words[1..])
  }

  /** `formatLabel`: split on `_`, capitalise each word, join with spaces. */
  function FormatLabel(key: string): string {
    Join(CapitalizeAll(SplitOn(key, '_')), " ")
  }

  /** The label character by character: each `_` becomes a space, a character
      at the start or after a `_` is upper-cased, every other is kept. */
  function LabelChar(key: string, i: nat): char
    requires i < |key|
  {
    if key[i] == '_' then ' '
    else if i == 0 || key[i - 1] == '_' then Upper(key[i])
    else key[i]
  }

  lemma LabelOfPlainWord(key: string)
    requires '_' !in key
    ensures FormatLabel(key) == Capitalize(key)
  {
    SplitOnPlainPrefix(key, "", '_');
    assert key + "" == key;
    assert SplitOn(key, '_') == [key];
    assert CapitalizeAll([key]) == [Capitalize(key)];
  }

  /** The label of a key is its first word's label, a space, and the label of the rest. */
  lemma LabelAtFirstUnderscore(key: string, n: nat)
    requires n < |key| && key[n] == '_' && '_' !in key[..n]
    ensures FormatLabel(key) == Capitalize(key[..n]) + " " + FormatLabel(key[n + 1..])
  {
    var p, t := key[..n], key[n + 1..];
    assert key == p + ("_" + t);
    SplitOnPlainPrefix(p, "_" + t, '_');
    assert ("_" + t)[1..] == t;
    assert SplitOn("_" + t, '_') == [""] + SplitOn(t, '_');
    assert p + "" == p;
    var parts := SplitOn(key, '_');
    assert parts == [p] + SplitOn(t, '_');
    assert parts[1..] == SplitOn(t, '_');
    var caps := CapitalizeAll(parts);
    assert caps == [Capitalize(p)] + CapitalizeAll(SplitOn(t, '_'));
    assert caps[1..] == CapitalizeAll(SplitOn(t, '_'));
  }

  /** `formatLabel` agrees with the character-by-character description. */
  lemma {:induction false} FormatLabelPointwise(key: string)
    ensures |FormatLabel(key)| == |key|
    ensures forall i :: 0 <= i < |key| ==> FormatLabel(key)[i] == LabelChar(key, i)
    decreases |key|
  {
    if '_' !in key {
      LabelOfPlainWord(key);
    } else {
      var n := IndexOf(key, '_');
      var p, t := key[..n], key[n + 1..];
      LabelAtFirstUnderscore(key, n);
      FormatLabelPointwise(t);
      var r := FormatLabel(key);
      forall i | 0 <= i < |key| ensures r[i] == LabelChar(key, i) {
        if i < n {
          assert key[i] == p[i];
          if i > 0 { assert key[i - 1] == p[i - 1]; }
        } else if i > n {
          assert r[i] == FormatLabel(t)[i - n - 1];
          assert key[i] == t[i - n - 1];
          if i - n - 1 > 0 { assert key[i - 1] == t[i - n - 2]; }
        }
      }
    }
  }

  lemma FormatLabelOfFatherName(key: string)
    requires key == "father_name"
    ensures FormatLabel(key) == "Father Name"
  {
    FormatLabelPointwise(key);
  }

  // ---------------------------------------------------------------------------
  // The calendar validator

  predicate IsLeap(y: int) {
    y % 4 == 0 && (y % 100 != 0 || y % 400 == 0)
  }

  /** Days in month `mi` (0-based) of year `y` in the proleptic Gregorian calendar. */
  function DaysInMonth(y: int, mi: int): (n: int)
    requires 0 <= mi < 12
    ensures 28 <= n <= 31
  {
    if mi == 1 then (if IsLeap(y) then 29 else 28)
    else if mi == 3 || mi == 5 || mi == 8 || mi == 10 then 30
    else 31
  }

  /** A calendar date as the JavaScript `Date` accessors report it:
      full year, 0-based month, day of month. */
  datatype Date = Date(year: int, month: int, day: int)

  /** Carrying a day past the end of its month into the following months. */
  function RollForward(y: int, mi: int, d: int): (r: Date)
    requires 0 <= mi < 12 && d >= 1
    ensures 0 <= r.month < 12 && 1 <= r.day <= d && r.year >= y
    ensures r.day <= DaysInMonth(r.year, r.month)
    ensures r.day == d ==> d <= DaysInMonth(y, mi) && r == Date(y, mi, d)
    decreases d
  {
    if d <= DaysInMonth(y, mi) then Date(y, mi, d)
    else if mi == 11 then RollForward(y + 1, 0, d - DaysInMonth(y, mi))
    else RollForward(y, mi + 1, d - DaysInMonth(y, mi))
  }

  /** The day of `Date(y, mi, d)` for any day number: a day below 1 borrows
      from the previous months, a day past the month's end carries. */
  function Normalize(y: int, mi: int, d: int): (r: Date)
    requires 0 <= mi < 12
    ensures 0 <= r.month < 12 && 1 <= r.day <= DaysInMonth(r.year, r.month)
    ensures d >= 0 ==> r.year >= y - 1
    ensures r.day == d ==> 1 <= d <= DaysInMonth(y, mi) && r == Date(y, mi, d)
    decreases if d >= 1 then 0 else 1 - d
  {
    if d >= 1 then RollForward(y, mi, d)
    else if mi == 0 then Normalize(y - 1, 11, d + DaysInMonth(y - 1, 11))
    else Normalize(y, mi - 1, d + DaysInMonth(y, mi - 1))
  }

  /** `new Date(y, monthIndex, d)` read back through its accessors: a year
      from 0 to 99 means 1900 to 1999, the month index carries into the year,
      then the day into the months. */
  function JsDate(y: int, monthIndex: int, d: int): (r: Date)
    ensures 0 <= r.month < 12 && 1 <= r.day <= DaysInMonth(r.year, r.month)
  {
    var fullYear := if 0 <= y <= 99 then 1900 + y else y;
    Normalize(fullYear + monthIndex / 12, monthIndex % 12, d)
  }

  /** A real calendar date the `Date` constructor keeps as written. */
  predicate CalendarDate(y: int, m: int, d: int) {
    y >= 100 && 1 <= m <= 12 && 1 <= d <= DaysInMonth(y, m - 1)
  }

  /** Constructing a date and reading it back gives the same year, month and
      day exactly for calendar dates from year 100 on. */
  lemma RoundTripIffCalendar(y: nat, m: nat, d: nat)
    ensures JsDate(y, m - 1, d) == Date(y, m - 1, d) <==> CalendarDate(y, m, d)
  {
    var r := JsDate(y, m - 1, d);
    if r == Date(y, m - 1, d) {
      var fullYear := if 0 <= y <= 99 then 1900 + y else y;
      assert (m - 1) / 12 >= -1;
      assert y >= 100;
      assert 0 <= m - 1 < 12;
      assert (m - 1) / 12 == 0 && (m - 1) % 12 == m - 1;
    }
  }

  /** The fields of a DD/MM/YYYY text: the parts `split('/')` yields. */
  lemma DmyParts(s: string)
    requires FormText.MatchesDmy(s)
    ensures SplitOn(s, '/') == [s[..2], s[3..5], s[6..]]
    ensures AllDigits(s[..2]) && AllDigits(s[3..5]) && AllDigits(s[6..])
  {
    var parts := [s[..2], s[3..5], s[6..]];
    assert parts[1..] == [s[3..5], s[6..]] && parts[1..][1..] == [s[6..]];
    assert Join([s[3..5], s[6..]], "/") == s[3..5] + "/" + s[6..];
    assert Join(parts, "/") == s[..2] + "/" + (s[3..5] + "/" + s[6..]);
    assert s == s[..2] + "/" + (s[3..5] + "/" + s[6..]);
    forall i | 0 <= i < 3 ensures '/' !in parts[i] {
    }
    SplitOfJoin(parts, '/');
  }

  lemma DecimalOfTwo(s: string)
    requires |s| == 2 && AllDigits(s)
    ensures DecimalValue(s) == 10 * DigitValue(s[0]) + DigitValue(s[1])
  {
    assert s[..1][..0] == [] && s[..1][0] == s[0];
    assert DecimalValue(s[..1]) == DigitValue(s[0]);
    assert s[..|s| - 1] == s[..1];
  }

  lemma DecimalOfFour(s: string)
    requires |s| == 4 && AllDigits(s)
    ensures DecimalValue(s) == 1000 * DigitValue(s[0]) + 100 * DigitValue(s[1]) + 10 * DigitValue(s[2]) + DigitValue(s[3])
  {
    assert s[..3][..2] == s[..2];
    DecimalOfTwo(s[..2]);
  }

  function DayOf(s: string): (d: nat)
    requires FormText.MatchesDmy(s)
    ensures d == 10 * DigitValue(s[0]) + DigitValue(s[1])
  {
    DmyParts(s);
    DecimalOfTwo(s[..2]);
    DecimalValue(s[..2])
  }

  function MonthOf(s: string): (m: nat)
    requires FormText.MatchesDmy(s)
    ensures m == 10 * DigitValue(s[3]) + DigitValue(s[4])
  {
    DmyParts(s);
    DecimalOfTwo(s[3..5]);
    DecimalValue(s[3..5])
  }

  function YearOf(s: string): (y: nat)
    requires FormText.MatchesDmy(s)
    ensures y == 1000 * DigitValue(s[6]) + 100 * DigitValue(s[7]) + 10 * DigitValue(s[8]) + DigitValue(s[9])
  {
    DmyParts(s);
    DecimalOfFour(s[6..]);
    DecimalValue(s[6..])
  }

  /** `isValidDmy`: the DD/MM/YYYY shape, then the `Date` round trip. */
  function IsValidDmy(dmy: string): bool {
    if !FormText.MatchesDmy(dmy) then false
    else
      DmyParts(dmy);
      var parts := SplitOn(dmy, '/');
      var d, m, y := DecimalValue(parts[0]), DecimalValue(parts[1]), DecimalValue(parts[2]);
      var dt := JsDate(y, m - 1, d);
      dt.year == y && dt.month == m - 1 && dt.day == d
  }

  /** The validator accepts exactly the DD/MM/YYYY texts that name a calendar
      date from year 100 on. */
  lemma IsValidDmyIffCalendar(s: string)
    ensures IsValidDmy(s) <==> FormText.MatchesDmy(s) && CalendarDate(YearOf(s), MonthOf(s), DayOf(s))
  {
    if FormText.MatchesDmy(s) {
      DmyParts(s);
      RoundTripIffCalendar(YearOf(s), MonthOf(s), DayOf(s));
    }
  }

  function RenderDmy(y: nat, m: nat, d: nat): string {
    Fixed(d, 2) + "/" + Fixed(m, 2) + "/" + Fixed(y, 4)
  }

  /** Every accepted text is the rendering of its own date. */
  lemma ValidDmyIsRendered(s: string)
    requires IsValidDmy(s)
    ensures CalendarDate(YearOf(s), MonthOf(s), DayOf(s))
    ensures s == RenderDmy(YearOf(s), MonthOf(s), DayOf(s))
  {
    IsValidDmyIffCalendar(s);
    FixedOfDecimal(s[..2]);
    FixedOfDecimal(s[3..5]);
    FixedOfDecimal(s[6..]);
    assert s == s[..2] + "/" + s[3..5] + "/" + s[6..];
  }

  /** Every calendar date from year 100 to 9999, rendered, is accepted. */
  lemma RenderedDateIsValid(y: nat, m: nat, d: nat)
    requires CalendarDate(y, m, d) && y <= 9999
    ensures IsValidDmy(RenderDmy(y, m, d))
    ensures YearOf(RenderDmy(y, m, d)) == y && MonthOf(RenderDmy(y, m, d)) == m && DayOf(RenderDmy(y, m, d)) == d
  {
    var s := RenderDmy(y, m, d);
    assert s[..2] == Fixed(d, 2) && s[3..5] == Fixed(m, 2) && s[6..] == Fixed(y, 4);
    assert FormText.MatchesDmy(s) by {
      forall i | 0 <= i < 10 && i != 2 && i != 5 ensures IsDigit(s[i]) {
        if i < 2 { assert s[i] == Fixed(d, 2)[i]; }
        else if i < 5 { assert s[i] == Fixed(m, 2)[i - 3]; }
        else { assert s[i] == Fixed(y, 4)[i - 6]; }
      }
    }
    DecimalOfFixed(d, 2);
    DecimalOfFixed(m, 2);
    DecimalOfFixed(y, 4);
    IsValidDmyIffCalendar(s);
  }

  lemma AprilHasThirtyDays(s: string)
    requires s == "31/04/2024"
    ensures !IsValidDmy(s)
  {
    IsValidDmyIffCalendar(s);
    assert DayOf(s) == 31 && MonthOf(s) == 4;
  }

  lemma LeapDay(s: string, t: string)
    requires s == "29/02/2024" && t == "29/02/2023"
    ensures IsValidDmy(s) && !IsValidDmy(t)
  {
    IsValidDmyIffCalendar(s);
    IsValidDmyIffCalendar(t);
    assert DayOf(s) == 29 && MonthOf(s) == 2 && YearOf(s) == 2024;
    assert DayOf(t) == 29 && MonthOf(t) == 2 && YearOf(t) == 2023;
  }

  lemma ZeroAndOverflowFieldsRejected(a: string, b: string, c: string)
    requires a == "00/05/2024" && b == "10/00/2024" && c == "10/13/2024"
    ensures !IsValidDmy(a) && !IsValidDmy(b) && !IsValidDmy(c)
  {
    IsValidDmyIffCalendar(a);
    IsValidDmyIffCalendar(b);
    IsValidDmyIffCalendar(c);
    assert DayOf(a) == 0 && MonthOf(b) == 0 && MonthOf(c) == 13;
  }

  /** Years 0000 to 0099 are read as 1900 to 1999 and never round-trip. */
  lemma EarlyYearsRejected(s: string)
    requires FormText.MatchesDmy(s) && YearOf(s) < 100
    ensures !IsValidDmy(s)
  {
    IsValidDmyIffCalendar(s);
  }

  // ---------------------------------------------------------------------------
  // Load, edit and submit

  datatype Session = NoSession | Session(userEmail: Value)

  /** The fetched record: a JSON null body spreads nothing. */
  function FetchedRecord(body: Option<Record>): Record {
    if body.Some? then body.value else []
  }

  /** `{ ...prev, ...existing, date_of_birth: isoToDmy(existing?.date_of_birth), email }` */
  function LoadedForm(prev: Record, existing: Record, email: string): Record {
    Set(Set(Merge(prev, existing), "date_of_birth", Str(FormText.IsoToDmy(Get(existing, "date_of_birth")))), "email", Str(email))
  }

  /** After a successful load the session email and the converted date win,
      then any fetched field, then the previous form. */
  lemma LoadedFormGet(prev: Record, existing: Record, email: string, k: string)
    requires UniqueKeys(existing)
    ensures Get(LoadedForm(prev, existing, email), k) ==
      if k == "email" then Str(email)
      else if k == "date_of_birth" then Str(FormText.IsoToDmy(Get(existing, "date_of_birth")))
      else if k in Keys(existing) then Get(existing, k)
      else Get(prev, k)
  {
    var merged := Merge(prev, existing);
    var withDate := Set(merged, "date_of_birth", Str(FormText.IsoToDmy(Get(existing, "date_of_birth"))));
    GetSet(withDate, "email", Str(email), k);
    GetSet(merged, "date_of_birth", Str(FormText.IsoToDmy(Get(existing, "date_of_birth"))), k);
    GetMerge(prev, existing, k);
  }

  /** Loading keeps every field of the form, in the form's order, first. */
  lemma {:induction false} MergeKeepsKeys(prev: Record, existing: Record)
    ensures |Keys(Merge(prev, existing))| >= |Keys(prev)|
    ensures Keys(Merge(prev, existing))[..|prev|] == Keys(prev)
    decreases |existing|
  {
    if existing != [] {
      var next := Set(prev, existing[0].0, existing[0].1);
      KeysSet(prev, existing[0].0, existing[0].1);
      MergeKeepsKeys(next, existing[1..]);
      assert Keys(next)[..|prev|] == Keys(prev);
    }
  }

  lemma LoadedFormKeepsFields(existing: Record, email: string)
    ensures |Keys(LoadedForm(InitialForm(), existing, email))| >= |FormFields|
    ensures Keys(LoadedForm(InitialForm(), existing, email))[..|FormFields|] == FormFields
  {
    InitialFormSpec();
    var merged := Merge(InitialForm(), existing);
    MergeKeepsKeys(InitialForm(), existing);
    assert "date_of_birth" in Keys(merged) by { assert Keys(merged)[6] == FormFields[6]; }
    KeysSet(merged, "date_of_birth", Str(FormText.IsoToDmy(Get(existing, "date_of_birth"))));
    var withDate := Set(merged, "date_of_birth", Str(FormText.IsoToDmy(Get(existing, "date_of_birth"))));
    assert "email" in Keys(withDate) by { assert Keys(withDate)[0] == FormFields[0]; }
    KeysSet(withDate, "email", Str(email));
  }

  /** Outcome of the save request. */
  datatype SaveResult = Saved(message: Value) | Failed(message: Value)

  /** Which check decides a submit. */
  datatype Verdict = BadPhone | BadAdhaar | NotSignedIn | Send

  /** The submit checks in order: phone, then Aadhaar, then the session. */
  function SubmitVerdict(form: Record, signedIn: bool): (v: Verdict)
    ensures v == Send <==> !FormText.PhoneInvalid(Get(form, "phone_number")) &&
                           !FormText.AadhaarInvalid(Get(form, "adhaar")) && signedIn
    ensures v == BadPhone <==> FormText.PhoneInvalid(Get(form, "phone_number"))
    ensures v == BadAdhaar <==> !FormText.PhoneInvalid(Get(form, "phone_number")) &&
                                FormText.AadhaarInvalid(Get(form, "adhaar"))
  {
    if FormText.PhoneInvalid(Get(form, "phone_number")) then BadPhone
    else if FormText.AadhaarInvalid(Get(form, "adhaar")) then BadAdhaar
    else if !signedIn then NotSignedIn
    else Send
  }

  /** The date of birth never decides a submit. */
  lemma SubmitIgnoresDate(form: Record, signedIn: bool, date: Value)
    ensures SubmitVerdict(Set(form, "date_of_birth", date), signedIn) == SubmitVerdict(form, signedIn)
  {
    GetSet(form, "date_of_birth", date, "phone_number");
    GetSet(form, "date_of_birth", date, "adhaar");
  }

  /** In particular a date the calendar validator rejects is sent as typed. */
  lemma InvalidDateIsSent(form: Record, date: string)
    requires date == "31/04/2024"
    requires SubmitVerdict(form, true) == Send
    ensures !IsValidDmy(date)
    ensures SubmitVerdict(Set(form, "date_of_birth", Str(date)), true) == Send
  {
    AprilHasThirtyDays(date);
    SubmitIgnoresDate(form, true, Str(date));
  }

  class Page {
    var formData: Record
    var loading: bool

    constructor ()
      ensures formData == InitialForm() && loading
    {
      formData := InitialForm();
      loading := true;
    }

    /** The load effect. Without a session the page redirects and stays in
        its loading state; otherwise the fetched record is merged in (only the
        email on failure) and loading ends. */
    method LoadDetails(session: Session, fetched: Reply<Option<Record>>)
      modifies this
      ensures session.NoSession? ==> formData == old(formData) && loading == old(loading)
      ensures session.Session? && fetched.Ok? ==>
        formData == LoadedForm(old(formData), FetchedRecord(fetched.body), OrEmpty(session.userEmail)) && !loading
      ensures session.Session? && !fetched.Ok? ==>
        formData == Set(old(formData), "email", Str(OrEmpty(session.userEmail))) && !loading
    {
      if session.NoSession? {
        return;
      }
      var email := OrEmpty(session.userEmail);
      if fetched.Ok? {
        formData := LoadedForm(formData, FetchedRecord(fetched.body), email);
      } else {
        formData := Set(formData, "email", Str(email));
      }
      loading := false;
    }

    /** `handleChange`: the named field takes the typed text, masked for the date. */
    method HandleChange(name: string, typed: string)
      modifies this`formData
      ensures formData == Set(old(formData), name, Str(if name == "date_of_birth" then FormText.MaskDmy(typed) else typed))
    {
      var value := if name == "date_of_birth" then FormText.MaskDmy(typed) else typed;
      formData := Set(formData, name, Str(value));
    }

    /** `handleSubmit`: the alert shown, and the record sent when every check passes. */
    method HandleSubmit(signedIn: bool, result: SaveResult) returns (sent: Option<Record>, alert: string)
      ensures sent.Some? <==> SubmitVerdict(formData, signedIn) == Send
      ensures sent.Some? ==> sent.value == formData
      ensures SubmitVerdict(formData, signedIn) == BadPhone ==> alert == "Phone number must be exactly 10 digits"
      ensures SubmitVerdict(formData, signedIn) == BadAdhaar ==> alert == "Aadhaar number must be exactly 12 digits"
      ensures SubmitVerdict(formData, signedIn) == NotSignedIn ==> alert == "You must be logged in to submit details"
      ensures sent.Some? && result.Saved? ==> alert == (if Truthy(result.message) then result.message.s else "Details saved successfully!")
      ensures sent.Some? && result.Failed? ==> alert == (if Truthy(result.message) then result.message.s else "Could not connect to the server.")
    {
      var phone := Get(formData, "phone_number");
      if Truthy(phone) && !IsDigitsOfLength(phone.s, 10) {
        return None, "Phone number must be exactly 10 digits";
      }
      var adhaar := Get(formData, "adhaar");
      if Truthy(adhaar) && !IsDigitsOfLength(adhaar.s, 12) {
        return None, "Aadhaar number must be exactly 12 digits";
      }
      if !signedIn {
        return None, "You must be logged in to submit details";
      }
      sent := Some(formData);
      match result {
        case Saved(message) =>
          alert := if Truthy(message) then message.s else "Details saved successfully!";
        case Failed(message) =>
          alert := if Truthy(message) then message.s else "Could not connect to the server.";
      }
    }
  }
}
