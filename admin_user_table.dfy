/** The administrator's roster of personal-details records
    (components/AdminUserTable.tsx): the filtered view, the date display
    formatter, the CSV text, pagination, and the reconciliation of the roster
    after a load, a delete and a save. */
module AdminUserTable {
  import opened Js
  import opened Text
  import Seqs
  import FormText

  // ---------------------------------------------------------------------------
  // The filtered view

  datatype FilterState = FilterState(search: string, genderFilter: string, fieldFilters: map<string, string>)

  function IdOf(u: Record): Value {
    Get(u, "id")
  }

  /** Gender gate: `(user.gender ?? '')` equals the selection ignoring case. */
  predicate PassesGender(f: FilterState, u: Record) {
    f.genderFilter == "All" || LowerStr(OrEmptyNullish(Get(u, "gender"))) == LowerStr(f.genderFilter)
  }

  /** Every non-null value of the record, stringified, space-joined, lower-cased. */
  function SearchText(u: Record): string {
    LowerStr(Join(PresentTexts(u), " "))
  }

  predicate PassesSearch(f: FilterState, u: Record) {
    f.search == "" || Contains(SearchText(u), LowerStr(f.search))
  }

  /** One field gate: an empty pattern accepts; otherwise the field must be
      non-null and contain the pattern ignoring case. */
  predicate PassesField(u: Record, key: string, pattern: string) {
    pattern == "" || (Get(u, key).Str? && Contains(LowerStr(Get(u, key).s), LowerStr(pattern)))
  }

  predicate PassesFields(f: FilterState, u: Record) {
    forall key :: key in f.fieldFilters ==> PassesField(u, key, f.fieldFilters[key])
  }

  predicate Matches(f: FilterState, u: Record) {
    PassesGender(f, u) && PassesSearch(f, u) && PassesFields(f, u)
  }

  function Matcher(f: FilterState): Record -> bool {
    u => Matches(f, u)
  }

  /** `filteredUsers` */
  function FilteredUsers(users: seq<Record>, f: FilterState): (view: seq<Record>)
    ensures |view| <= |users|
    ensures forall i :: 0 <= i < |view| ==> view[i] in users && Matches(f, view[i])
    ensures forall i :: 0 <= i < |users| && Matches(f, users[i]) ==> users[i] in view
  {
    if |users| == 0 then [] else Seqs.Filter(users, Matcher(f))
  }

  lemma FilteredUsersIsFilter(users: seq<Record>, f: FilterState)
    ensures FilteredUsers(users, f) == Seqs.Filter(users, Matcher(f))
  {
  }

  /** The view is an order-preserving subsequence of the roster holding exactly
      the records that pass all three gates; it is empty for an empty roster. */
  lemma FilteredUsersSpec(users: seq<Record>, f: FilterState)
    ensures Seqs.SubsequenceOf(FilteredUsers(users, f), users)
    ensures users == [] ==> FilteredUsers(users, f) == []
    ensures forall i :: 0 <= i < |FilteredUsers(users, f)| ==>
      var u := FilteredUsers(users, f)[i];
      && u in users
      && (f.genderFilter != "All" ==> LowerStr(OrEmptyNullish(Get(u, "gender"))) == LowerStr(f.genderFilter))
      && (f.search != "" ==> Contains(SearchText(u), LowerStr(f.search)))
      && (forall key :: key in f.fieldFilters && f.fieldFilters[key] != "" ==>
            Get(u, key).Str? && Contains(LowerStr(Get(u, key).s), LowerStr(f.fieldFilters[key])))
    ensures forall i :: 0 <= i < |users| && Matches(f, users[i]) ==> users[i] in FilteredUsers(users, f)
  {
    FilteredUsersIsFilter(users, f);
    Seqs.FilterIsSubsequence(users, Matcher(f));
    forall i | 0 <= i < |FilteredUsers(users, f)|
      ensures Matches(f, FilteredUsers(users, f)[i])
    {
      assert Matcher(f)(FilteredUsers(users, f)[i]);
    }
  }

  /** Applying the same filter state to the view returns the view. */
  lemma FilteredUsersIdempotent(users: seq<Record>, f: FilterState)
    ensures FilteredUsers(FilteredUsers(users, f), f) == FilteredUsers(users, f)
  {
    FilteredUsersIsFilter(users, f);
    FilteredUsersIsFilter(FilteredUsers(users, f), f);
    Seqs.FilterIdempotent(users, Matcher(f));
  }

  /** Gender selections that agree ignoring case give the same view. */
  lemma GenderFilterIgnoresCase(users: seq<Record>, f: FilterState, g: string)
    requires f.genderFilter != "All" && g != "All"
    requires LowerStr(f.genderFilter) == LowerStr(g)
    ensures FilteredUsers(users, f.(genderFilter := g)) == FilteredUsers(users, f)
  {
    var f' := f.(genderFilter := g);
    forall u | u in users ensures Matcher(f')(u) == Matcher(f)(u) {
    }
    Seqs.FilterCongruent(users, Matcher(f'), Matcher(f));
  }

  /** With a specific gender selected, a record without a gender is excluded. */
  lemma MissingGenderExcluded(f: FilterState, u: Record)
    requires f.genderFilter != "All" && f.genderFilter != ""
    requires !Get(u, "gender").Str?
    ensures !Matches(f, u)
  {
    assert |LowerStr(f.genderFilter)| > 0;
  }

  /** An empty field pattern is the same as no pattern for that field. */
  lemma EmptyFieldPatternIsNoConstraint(users: seq<Record>, f: FilterState, key: string)
    ensures FilteredUsers(users, f.(fieldFilters := f.fieldFilters[key := ""])) ==
            FilteredUsers(users, f.(fieldFilters := f.fieldFilters - {key}))
  {
    var f1 := f.(fieldFilters := f.fieldFilters[key := ""]);
    var f2 := f.(fieldFilters := f.fieldFilters - {key});
    forall u | u in users ensures Matcher(f1)(u) == Matcher(f2)(u) {
      assert PassesFields(f1, u) == PassesFields(f2, u) by {
        if PassesFields(f2, u) {
          forall k | k in f1.fieldFilters ensures PassesField(u, k, f1.fieldFilters[k]) {
            if k != key { assert k in f2.fieldFilters; }
          }
        }
        if PassesFields(f1, u) {
          forall k | k in f2.fieldFilters ensures PassesField(u, k, f2.fieldFilters[k]) {
            assert k in f1.fieldFilters;
          }
        }
      }
    }
    Seqs.FilterCongruent(users, Matcher(f1), Matcher(f2));
  }

  /** The search runs over the joined text, so a match may span two adjacent values. */
  lemma SearchSpansAdjacentValues(u: Record)
    requires u == [("id", Str("7")), ("name", Str("Ab")), ("gender", Null), ("state", Str("Cd"))]
    ensures PassesSearch(FilterState("b c", "All", map[]), u)
  {
    assert PresentTexts(u[4..]) == [];
    assert PresentTexts(u[3..]) == ["Cd"];
    assert PresentTexts(u[2..]) == ["Cd"];
    assert PresentTexts(u[1..]) == ["Ab", "Cd"];
    assert PresentTexts(u) == ["7", "Ab", "Cd"];
    assert Join(["7", "Ab", "Cd"], " ") == "7" + " " + ("Ab" + " " + "Cd");
    var t := SearchText(u);
    assert t == "7 ab cd";
    assert OccursAt(t, LowerStr("b c"), 3);
  }

  // ---------------------------------------------------------------------------
  // Date display

  /** `formatDmy`: '-' for a missing date, DD/MM/YYYY passes, a malformed
      value is shown unchanged. */
  function FormatDmy(iso: Value): string {
    if !Truthy(iso) then "-"
    else if FormText.MatchesDmy(iso.s) then iso.s
    else match FormText.IsoFields(iso.s)
      case None => iso.s
      case Some((y, m, d)) => FormText.DmyOf(y, m, d)
  }

  /** The display formatter agrees with the form's converter except on missing
      input ('-' against '') and on malformed input (the input itself against ''). */
  lemma FormatDmyAgainstIsoToDmy(iso: Value)
    ensures !Truthy(iso) ==> FormatDmy(iso) == "-" && FormText.IsoToDmy(iso) == ""
    ensures Truthy(iso) && FormText.IsoToDmy(iso) == "" ==> FormatDmy(iso) == iso.s
    ensures Truthy(iso) && FormText.IsoToDmy(iso) != "" ==> FormatDmy(iso) == FormText.IsoToDmy(iso)
  {
  }

  lemma FormatDmyOfMonth(s: string)
    requires s == "2024-03"
    ensures FormatDmy(Str(s)) == s && FormText.IsoToDmy(Str(s)) == ""
  {
    FormText.IsoToDmyOfMonth(s);
  }

  // ---------------------------------------------------------------------------
  // CSV export

  const CsvHeader: seq<string> := [
    "Email", "Adhaar", "Name", "Father Name", "Nationality", "Phone Number", "Date of Birth",
    "Caste", "Gender", "Gotra", "Education", "Occupation", "Postal Address", "Mother Tongue",
    "Marital Status", "State", "District"]

  /** The record field behind each CSV column, in column order. */
  const CsvColumns: seq<string> := [
    "email", "adhaar", "name", "father_name", "nationality", "phone_number", "date_of_birth",
    "caste", "gender", "gotra", "education", "occupation", "postal_address", "mother_tongue",
    "marital_status", "state", "district"]

  function Quote(s: string): string {
    "\"" + s + "\""
  }

  /** One CSV line: every cell wrapped in double quotes, nothing escaped. */
  function CsvLine(cells: seq<string>): string {
    Join(seq(|cells|, i requires 0 <= i < |cells| => Quote(cells[i])), ",")
  }

  /** The seventeen cell texts of a record; null and undefined print as ''. */
  function RowCells(u: Record): (cells: seq<string>)
    ensures |cells| == |CsvColumns|
  {
    seq(|CsvColumns|, i requires 0 <= i < |CsvColumns| => OrEmptyNullish(Get(u, CsvColumns[i])))
  }

  /** `[headers, ...rows]`: the header row, then one row per record of the view. */
  function ExportRows(view: seq<Record>): seq<seq<string>> {
    [CsvHeader] + seq(|view|, r requires 0 <= r < |view| => RowCells(view[r]))
  }

  /** `.map(row => row.map(val => `"${val ?? ''}"`).join(',')).join('\n')` */
  function CsvText(rows: seq<seq<string>>): string {
    Join(seq(|rows|, i requires 0 <= i < |rows| => CsvLine(rows[i])), "\n")
  }

  /** `handleExportCSV` up to the download. */
  function ExportCsv(view: seq<Record>): string {
    CsvText(ExportRows(view))
  }

  /** A reader for the export's quoting: a cell runs from an opening `"` to
      the next `"`, and is followed by `,` (another cell of the row), a
      newline (a new row) or the end of the text. A newline or a comma inside
      the quotes is cell text. */
  function ReadRows(s: string): (rows: Option<seq<seq<string>>>)
    ensures rows.Some? ==> |rows.value| >= 1
    decreases |s|
  {
    if |s| == 0 || s[0] != '"' || '"' !in s[1..] then None
    else
      var n := IndexOf(s[1..], '"');
      var cell, rest := s[1..n + 1], s[n + 2..];
      if rest == "" then Some([[cell]])
      else if rest[0] == ',' then
        match ReadRows(rest[1..])
        case None => None
        case Some(rows) => Some([[cell] + rows[0]] + rows[1..])
      else if rest[0] == '\n' then
        match ReadRows(rest[1..])
        case None => None
        case Some(rows) => Some([[cell]] + rows)
      else None
  }

  /** A quoted cell without a `"` inside ends at its closing quote. */
  lemma QuotedCell(c: string, rest: string)
    requires '"' !in c
    ensures var s := Quote(c) + rest;
      s[0] == '"' && '"' in s[1..] && IndexOf(s[1..], '"') == |c| && s[1..|c| + 1] == c && s[|c| + 2..] == rest
  {
    var s := Quote(c) + rest;
    var x := s[1..];
    assert x == c + ("\"" + rest);
    assert x[|c|] == '"';
    var n := IndexOf(x, '"');
    assert forall k :: 0 <= k < |c| ==> x[k] == c[k];
  }

  lemma ReadCellAtEnd(c: string)
    requires '"' !in c
    ensures ReadRows(Quote(c)) == Some([[c]])
  {
    assert Quote(c) == Quote(c) + "";
    QuotedCell(c, "");
  }

  lemma ReadCellThenComma(c: string, more: string, rows: seq<seq<string>>)
    requires '"' !in c && ReadRows(more) == Some(rows)
    ensures ReadRows(Quote(c) + ("," + more)) == Some([[c] + rows[0]] + rows[1..])
  {
    QuotedCell(c, "," + more);
    assert ("," + more)[1..] == more;
  }

  lemma ReadCellThenNewline(c: string, more: string, rows: seq<seq<string>>)
    requires '"' !in c && ReadRows(more) == Some(rows)
    ensures ReadRows(Quote(c) + ("\n" + more)) == Some([[c]] + rows)
  {
    QuotedCell(c, "\n" + more);
    assert ("\n" + more)[1..] == more;
  }

  lemma ConcatAssoc(a: string, b: string, c: string, d: string)
    ensures (a + (b + c)) + d == a + (b + (c + d))
  {
  }

  /** A row is its first cell, quoted, then a comma and the rest of the row. */
  lemma CsvLineOfCells(cells: seq<string>)
    requires |cells| >= 1
    ensures CsvLine(cells) == if |cells| == 1 then Quote(cells[0]) else Quote(cells[0]) + ("," + CsvLine(cells[1..]))
  {
    var quoted := seq(|cells|, i requires 0 <= i < |cells| => Quote(cells[i]));
    var tail := cells[1..];
    assert quoted[1..] == seq(|tail|, i requires 0 <= i < |tail| => Quote(tail[i]));
  }

  lemma ReadLastCell(c: string, t: string, after: seq<seq<string>>)
    requires '"' !in c
    requires (t == "" && after == []) || (|t| >= 1 && t[0] == '\n' && ReadRows(t[1..]) == Some(after))
    ensures ReadRows(Quote(c) + t) == Some([[c]] + after)
  {
    if t == "" {
      ReadCellAtEnd(c);
      assert Quote(c) + t == Quote(c);
      assert [[c]] + after == [[c]];
    } else {
      assert t == "\n" + t[1..];
      ReadCellThenNewline(c, t[1..], after);
    }
  }

  /** A line whose cells hold no `"` reads back as those cells, followed by
      nothing at the end of the text or by the rows after the newline. */
  lemma {:induction false} ReadLineThen(cells: seq<string>, t: string, after: seq<seq<string>>)
    requires |cells| >= 1 && forall i :: 0 <= i < |cells| ==> '"' !in cells[i]
    requires (t == "" && after == []) || (|t| >= 1 && t[0] == '\n' && ReadRows(t[1..]) == Some(after))
    ensures ReadRows(CsvLine(cells) + t) == Some([cells] + after)
    decreases |cells|
  {
    var c := cells[0];
    CsvLineOfCells(cells);
    if |cells| == 1 {
      assert [c] == cells;
      ReadLastCell(c, t, after);
    } else {
      var tail := cells[1..];
      var more := CsvLine(tail) + t;
      assert forall i :: 0 <= i < |tail| ==> '"' !in tail[i] by {
        forall i | 0 <= i < |tail| ensures '"' !in tail[i] {
          assert tail[i] == cells[i + 1];
        }
      }
      ReadLineThen(tail, t, after);
      var rows := [tail] + after;
      assert ReadRows(Quote(c) + ("," + more)) == Some([cells] + after) by {
        ReadCellThenComma(c, more, rows);
        assert rows[0] == tail && rows[1..] == after;
        assert [c] + tail == cells;
      }
      ConcatAssoc(Quote(c), ",", CsvLine(tail), t);
    }
  }

  /** Every row has a cell and no cell holds a `"`. */
  predicate QuoteFree(rows: seq<seq<string>>) {
    forall r :: 0 <= r < |rows| ==> |rows[r]| >= 1 && forall i :: 0 <= i < |rows[r]| ==> '"' !in rows[r][i]
  }

  /** The text of several rows is the first row's line, a newline, and the text of the rest. */
  lemma CsvTextOfRows(rows: seq<seq<string>>)
    requires |rows| >= 1
    ensures CsvText(rows) == if |rows| == 1 then CsvLine(rows[0]) else CsvLine(rows[0]) + ("\n" + CsvText(rows[1..]))
  {
    var lines := seq(|rows|, i requires 0 <= i < |rows| => CsvLine(rows[i]));
    var tail := rows[1..];
    assert lines[1..] == seq(|tail|, i requires 0 <= i < |tail| => CsvLine(tail[i]));
  }

  lemma {:induction false} CsvTextReadsBack(rows: seq<seq<string>>)
    requires |rows| >= 1 && QuoteFree(rows)
    ensures ReadRows(CsvText(rows)) == Some(rows)
  {
    CsvTextOfRows(rows);
    assert |rows[0]| >= 1 && forall i :: 0 <= i < |rows[0]| ==> '"' !in rows[0][i];
    if |rows| == 1 {
      assert CsvText(rows) == CsvLine(rows[0]) + "";
      ReadLineThen(rows[0], "", []);
      assert [rows[0]] + [] == rows;
    } else {
      var tail := rows[1..];
      assert QuoteFree(tail) by {
        forall r | 0 <= r < |tail| ensures |tail[r]| >= 1 && forall i :: 0 <= i < |tail[r]| ==> '"' !in tail[r][i] {
          assert tail[r] == rows[r + 1];
        }
      }
      CsvTextReadsBack(tail);
      var t := "\n" + CsvText(tail);
      assert t[1..] == CsvText(tail);
      ReadLineThen(rows[0], t, tail);
      assert [rows[0]] + tail == rows;
    }
  }

  /** When no cell holds a `"`, reading the export back gives the header and
      each record's seventeen cells in view order; commas and newlines inside
      a cell stay inside it. */
  lemma ExportCsvRoundTrip(view: seq<Record>)
    requires forall r, i :: 0 <= r < |view| && 0 <= i < |CsvColumns| ==> '"' !in RowCells(view[r])[i]
    ensures ReadRows(ExportCsv(view)) == Some([CsvHeader] + seq(|view|, r requires 0 <= r < |view| => RowCells(view[r])))
  {
    var rows := ExportRows(view);
    forall r | 0 <= r < |rows| ensures |rows[r]| >= 1 && forall i :: 0 <= i < |rows[r]| ==> '"' !in rows[r][i] {
      if r > 0 { assert rows[r] == RowCells(view[r - 1]); }
    }
    CsvTextReadsBack(rows);
  }

  /** A `"` inside a cell is not escaped, so it ends the cell early: the row
      holding the one cell `a"b` does not read back at all. */
  lemma QuoteInCellBreaksRow(cell: string)
    requires cell == "a\"b"
    ensures ReadRows(CsvLine([cell])) == None
  {
    assert CsvLine([cell]) == Quote("a") + "b\"";
    QuotedCell("a", "b\"");
  }

  /** and a cell holding `x","y` reads back as the two cells `x` and `y`. */
  lemma QuotedCommaSplitsCell(cell: string)
    requires cell == "x\",\"y"
    ensures ReadRows(CsvLine([cell])) == Some([["x", "y"]])
  {
    assert CsvLine([cell]) == Quote("x") + ("," + Quote("y"));
    ReadCellAtEnd("y");
    ReadCellThenComma("x", Quote("y"), [["y"]]);
    var rows: seq<seq<string>> := [["y"]];
    assert rows[0] == ["y"] && rows[1..] == [];
    assert ["x"] + rows[0] == ["x", "y"];
    assert [["x"] + rows[0]] + rows[1..] == [["x", "y"]];
  }

  /** A missing value prints as an empty quoted cell, never as text. */
  lemma MissingValuePrintsEmpty(u: Record, i: nat)
    requires i < |CsvColumns| && !Get(u, CsvColumns[i]).Str?
    ensures RowCells(u)[i] == "" && Quote(RowCells(u)[i]) == "\"\""
  {
  }

  // ---------------------------------------------------------------------------
  // Pagination

  /** `Math.ceil(totalUsers / rowsPerPage)` */
  function TotalPages(totalUsers: nat, rowsPerPage: nat): (pages: nat)
    requires rowsPerPage > 0
    ensures pages * rowsPerPage >= totalUsers
    ensures pages == 0 || (pages - 1) * rowsPerPage < totalUsers
  {
    var q := (totalUsers + rowsPerPage - 1) / rowsPerPage;
    assert q * rowsPerPage + (totalUsers + rowsPerPage - 1) % rowsPerPage == totalUsers + rowsPerPage - 1;
    q
  }

  // ---------------------------------------------------------------------------
  // Roster reconciliation

  /** `users.filter(u => u.id !== id)` */
  function WithoutId(users: seq<Record>, id: Value): seq<Record> {
    Seqs.WithoutKey(users, IdOf, id)
  }

  /** `users.map(u => u.id === updated.id ? updated : u)` */
  function ReplaceById(users: seq<Record>, updated: Record): seq<Record> {
    seq(|users|, i requires 0 <= i < |users| => if IdOf(users[i]) == IdOf(updated) then updated else users[i])
  }

  /** A deleted record is gone from every later view, and the view is otherwise
      what it was: deleting commutes with filtering. */
  lemma DeleteCommutesWithView(users: seq<Record>, id: Value, f: FilterState)
    ensures FilteredUsers(WithoutId(users, id), f) == WithoutId(FilteredUsers(users, f), id)
  {
    FilteredUsersIsFilter(WithoutId(users, id), f);
    FilteredUsersIsFilter(users, f);
    Seqs.FilterCommute(users, Seqs.OtherKey(IdOf, id), Matcher(f));
  }

  /** Replacing by id keeps length, position and id of every record, and
      changes only the records whose id is the saved record's id. */
  lemma ReplaceByIdSpec(users: seq<Record>, updated: Record)
    ensures |ReplaceById(users, updated)| == |users|
    ensures forall i :: 0 <= i < |users| ==> IdOf(ReplaceById(users, updated)[i]) == IdOf(users[i])
    ensures forall i :: 0 <= i < |users| && IdOf(users[i]) != IdOf(updated) ==> ReplaceById(users, updated)[i] == users[i]
    ensures forall i :: 0 <= i < |users| && IdOf(users[i]) == IdOf(updated) ==> ReplaceById(users, updated)[i] == updated
  {
  }

  /** Saving the same record twice is the same as saving it once. */
  lemma ReplaceByIdIdempotent(users: seq<Record>, updated: Record)
    ensures ReplaceById(ReplaceById(users, updated), updated) == ReplaceById(users, updated)
  {
  }

  /** Deleting a record after saving it leaves what deleting it alone leaves. */
  lemma {:induction false} DeleteAfterSave(users: seq<Record>, updated: Record)
    ensures WithoutId(ReplaceById(users, updated), IdOf(updated)) == WithoutId(users, IdOf(updated))
  {
    if users != [] {
      DeleteAfterSave(users[1..], updated);
      assert ReplaceById(users, updated)[1..] == ReplaceById(users[1..], updated);
    }
  }

  predicate DistinctIds(users: seq<Record>) {
    forall i, j :: 0 <= i < j < |users| ==> IdOf(users[i]) != IdOf(users[j])
  }

  /** Neither reconciliation can make two records share an id. */
  lemma ReconciliationKeepsIdsDistinct(users: seq<Record>, id: Value, updated: Record)
    requires DistinctIds(users)
    ensures DistinctIds(WithoutId(users, id))
    ensures DistinctIds(ReplaceById(users, updated))
  {
    Seqs.FilterKeepsKeysDistinct(users, Seqs.OtherKey(IdOf, id), IdOf);
    ReplaceByIdSpec(users, updated);
  }

  // ---------------------------------------------------------------------------
  // The component's state

  /** Body of a successful roster request. */
  datatype ListBody =
    | ArrayBody(items: seq<Record>)
      /** Any other JSON value; `data` is its `data` field when that is a
          (truthy) array, `None` when the field is missing or the body is null. */
    | ObjectBody(data: Option<seq<Record>>)

  /** `Array.isArray(data) ? data : data?.data || []` */
  function LoadedList(body: ListBody): seq<Record> {
    match body
    case ArrayBody(items) => items
    case ObjectBody(data) => if data.Some? then data.value else []
  }

  class RosterTable {
    var users: seq<Record>
    var totalUsers: nat
    var loading: bool
    var search: string
    var genderFilter: string
    var fieldFilters: map<string, string>
    var editingUser: Option<Record>

    constructor ()
      ensures users == [] && totalUsers == 0 && loading
      ensures search == "" && genderFilter == "All" && fieldFilters == map[] && editingUser == None
    {
      users, totalUsers, loading := [], 0, true;
      search, genderFilter, fieldFilters, editingUser := "", "All", map[], None;
    }

    function Filters(): FilterState
      reads this
    {
      FilterState(search, genderFilter, fieldFilters)
    }

    /** The rows on screen and in the export. */
    function View(): seq<Record>
      reads this
    {
      FilteredUsers(users, Filters())
    }

    function CsvText(): string
      reads this
    {
      ExportCsv(View())
    }

    /** Pages offered: computed from the loaded count, not from the view. */
    function PageCount(rowsPerPage: nat): nat
      requires rowsPerPage > 0
      reads this
    {
      TotalPages(totalUsers, rowsPerPage)
    }

    /** The load effect: the normalised list on success, the empty roster and
        an alert on failure; `loading` is false once it settles. */
    method Load(reply: Reply<ListBody>) returns (alert: Option<string>)
      modifies this
      ensures users == (if reply.Ok? then LoadedList(reply.body) else [])
      ensures totalUsers == |users| && !loading
      ensures alert == (if reply.Ok? then None else Some("Failed to load personal details"))
      ensures Filters() == old(Filters()) && editingUser == old(editingUser)
    {
      loading := true;
      if reply.Ok? {
        var list := LoadedList(reply.body);
        users := list;
        totalUsers := |list|;
        alert := None;
      } else {
        alert := Some("Failed to load personal details");
        users := [];
        totalUsers := 0;
      }
      loading := false;
    }

    /** `handleDelete`: nothing without confirmation; on a 2xx reply the
        records with that id leave the roster; otherwise the roster is kept.
        The loaded count is not decremented. */
    method Delete(id: Value, confirmed: bool, reply: Reply<()>) returns (alert: Option<string>)
      modifies this
      ensures users == (if confirmed && reply.Ok? then WithoutId(old(users), id) else old(users))
      ensures alert == (if !confirmed then None
                        else if reply.Ok? then Some("User deleted!")
                        else Some("Failed to delete user"))
      ensures totalUsers == old(totalUsers) && loading == old(loading)
      ensures Filters() == old(Filters()) && editingUser == old(editingUser)
    {
      if !confirmed {
        return None;
      }
      if reply.Ok? {
        alert := Some("User deleted!");
        users := WithoutId(users, id);
      } else {
        alert := Some("Failed to delete user");
      }
    }

    /** `handleSave`: on a 2xx reply each record with the saved record's id is
        replaced by it in place; otherwise the roster is kept. */
    method Save(updated: Record, reply: Reply<()>) returns (alert: string)
      modifies this
      ensures users == (if reply.Ok? then ReplaceById(old(users), updated) else old(users))
      ensures alert == (if reply.Ok? then "User updated!" else "Failed to update user")
      ensures totalUsers == old(totalUsers) && loading == old(loading)
      ensures Filters() == old(Filters()) && editingUser == old(editingUser)
    {
      if reply.Ok? {
        alert := "User updated!";
        users := ReplaceById(users, updated);
      } else {
        alert := "Failed to update user";
      }
    }

    method SetSearch(text: string)
      modifies this`search
      ensures search == text
    {
      search := text;
    }

    method SetGenderFilter(gender: string)
      modifies this`genderFilter
      ensures genderFilter == gender
    {
      genderFilter := gender;
    }

    /** `setFieldFilters(prev => ({ ...prev, [field]: value }))` */
    method SetFieldFilter(field: string, pattern: string)
      modifies this`fieldFilters
      ensures fieldFilters == old(fieldFilters)[field := pattern]
    {
      fieldFilters := fieldFilters[field := pattern];
    }

    /** The Edit button opens the modal on a row; closing it clears the row. */
    method SetEditingUser(u: Option<Record>)
      modifies this`editingUser
      ensures editingUser == u
    {
      editingUser := u;
    }
  }
}
