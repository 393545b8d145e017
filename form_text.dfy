/** Date and number helpers that components/EditUserModal.tsx and
    app/personal-details/page.tsx each define for themselves: the live
    DD/MM/YYYY input mask, the ISO-to-DD/MM/YYYY converter that yields '' on
    malformed input, and the ten- and twelve-digit checks. The two converters
    are written differently (an inline function on the stored value, a named
    helper on a string) and agree on every string and on a missing value. */
module FormText {
  import opened Js
  import opened Text
  import Seqs

  /** `/^\d{2}\/\d{2}\/\d{4}$/.test(s)` */
  predicate MatchesDmy(s: string) {
    |s| == 10 && s[2] == '/' && s[5] == '/' &&
    forall i :: 0 <= i < 10 && i != 2 && i != 5 ==> IsDigit(s[i])
  }

  // ---------------------------------------------------------------------------
  // The live mask

  function NonEmpty(s: string): bool {
    s != ""
  }

  /** `maskDmyInput` / `maskDmy`: keep the first eight digits and put a `/`
      between the day, month and year groups that are present. */
  function MaskDmy(raw: string): (r: string)
    ensures |Slice(DigitsOf(raw), 0, 8)| <= 8
    ensures r == Grouped(Slice(DigitsOf(raw), 0, 8))
  {
    var digits := Slice(DigitsOf(raw), 0, 8);
    GroupsOfBuffer(digits);
    var parts := Seqs.Filter([Slice(digits, 0, 2), Slice(digits, 2, 4), Slice(digits, 4, 8)], NonEmpty);
    Join(parts, "/")
  }

  /** The masked text for a buffer of at most eight digits, written out. */
  function Grouped(d: string): string
    requires |d| <= 8
  {
    if |d| <= 2 then d
    else if |d| <= 4 then d[..2] + "/" + d[2..]
    else d[..2] + "/" + d[2..4] + "/" + d[4..]
  }

  /** `[a, b, c].filter(Boolean).join('/')` by cases on which parts are empty. */
  lemma JoinNonEmptyOfThree(a: string, b: string, c: string)
    ensures Join(Seqs.Filter([a, b, c], NonEmpty), "/") ==
      if a == "" then Join(Seqs.Filter([b, c], NonEmpty), "/")
      else if b == "" && c == "" then a
      else if c == "" then a + "/" + b
      else if b == "" then a + "/" + c
      else a + "/" + b + "/" + c
  {
    assert [a, b, c][1..] == [b, c] && [b, c][1..] == [c] && [c][1..] == [];
    var f2 := Seqs.Filter([c], NonEmpty);
    assert f2 == if c != "" then [c] else [];
    var f1 := Seqs.Filter([b, c], NonEmpty);
    assert f1 == if b != "" then [b] + f2 else f2;
    if a != "" {
      assert Seqs.Filter([a, b, c], NonEmpty) == [a] + f1;
      if b != "" && c != "" {
        assert [a] + f1 == [a, b, c];
        assert Join([b, c], "/") == b + "/" + c;
        assert Join([a, b, c], "/") == a + "/" + (b + "/" + c);
      } else if b != "" {
        assert [a] + f1 == [a, b];
        assert Join([a, b], "/") == a + "/" + b;
      } else if c != "" {
        assert [a] + f1 == [a, c];
        assert Join([a, c], "/") == a + "/" + c;
      } else {
        assert [a] + f1 == [a];
      }
    }
  }

  lemma GroupsOfBuffer(d: string)
    requires |d| <= 8
    ensures Join(Seqs.Filter([Slice(d, 0, 2), Slice(d, 2, 4), Slice(d, 4, 8)], NonEmpty), "/") == Grouped(d)
  {
    var p0, p1, p2 := Slice(d, 0, 2), Slice(d, 2, 4), Slice(d, 4, 8);
    JoinNonEmptyOfThree(p0, p1, p2);
    if |d| == 0 {
      assert [p1, p2][1..] == [p2] && [p2][1..] == [];
      assert Seqs.Filter([p1, p2], NonEmpty) == [];
    } else if |d| <= 2 {
      assert p0 == d && p1 == "" && p2 == "";
    } else if |d| <= 4 {
      assert p0 == d[..2] && p1 == d[2..] && p2 == "";
    } else {
      assert p0 == d[..2] && p1 == d[2..4] && p2 == d[4..];
    }
  }

  /** On a buffer of digits the mask only groups the first eight. */
  lemma MaskOfDigits(s: string)
    requires AllDigits(s)
    ensures MaskDmy(s) == Grouped(if |s| <= 8 then s else s[..8])
  {
    DigitsOfDigits(s);
  }

  lemma {:induction false} DigitsOfAppend(a: string, b: string)
    ensures DigitsOf(a + b) == DigitsOf(a) + DigitsOf(b)
  {
    if a != [] {
      assert (a + b)[1..] == a[1..] + b;
      DigitsOfAppend(a[1..], b);
    } else {
      assert a + b == b;
    }
  }

  lemma {:induction false} DigitsOfDigits(s: string)
    requires AllDigits(s)
    ensures DigitsOf(s) == s
  {
    if s != [] {
      DigitsOfDigits(s[1..]);
    }
  }

  lemma DigitsAfterSlash(x: string, b: string)
    requires AllDigits(b)
    ensures DigitsOf(x + "/" + b) == DigitsOf(x) + b
  {
    assert DigitsOf("/") == "";
    DigitsOfAppend(x + "/", b);
    DigitsOfAppend(x, "/");
    DigitsOfDigits(b);
  }

  lemma DigitsOfGrouped(d: string)
    requires |d| <= 8 && AllDigits(d)
    ensures DigitsOf(Grouped(d)) == d
  {
    if |d| <= 2 {
      DigitsOfDigits(d);
    } else if |d| <= 4 {
      DigitsOfDigits(d[..2]);
      DigitsAfterSlash(d[..2], d[2..]);
      assert d == d[..2] + d[2..];
    } else {
      DigitsOfDigits(d[..2]);
      DigitsAfterSlash(d[..2], d[2..4]);
      DigitsAfterSlash(d[..2] + "/" + d[2..4], d[4..]);
      assert d == d[..2] + d[2..4] + d[4..];
    }
  }

  lemma GroupedFormat(d: string)
    requires |d| <= 8 && AllDigits(d)
    ensures var r := Grouped(d);
      && |r| <= 10
      && (forall k :: 0 <= k < |r| ==> IsDigit(r[k]) || r[k] == '/')
      && (forall k :: 0 <= k < |r| ==> (r[k] == '/' <==> k == 2 || k == 5))
      && (r == "" || IsDigit(r[|r| - 1]))
  {
  }

  /** The mask's output: digits and `/` only, at most ten characters, its
      digits exactly the first eight digits typed, a `/` exactly after the
      second and the fourth digit when a further digit follows. */
  lemma MaskDmyFormat(raw: string)
    ensures var r := MaskDmy(raw);
      && |r| <= 10
      && (forall k :: 0 <= k < |r| ==> IsDigit(r[k]) || r[k] == '/')
      && (forall k :: 0 <= k < |r| ==> (r[k] == '/' <==> k == 2 || k == 5))
      && (r == "" || IsDigit(r[|r| - 1]))
      && DigitsOf(r) == Slice(DigitsOf(raw), 0, 8)
      && |DigitsOf(r)| <= 8
  {
    var d := Slice(DigitsOf(raw), 0, 8);
    GroupedFormat(d);
    DigitsOfGrouped(d);
  }

  /** Masking an already masked value leaves it unchanged. */
  lemma MaskDmyIdempotent(raw: string)
    ensures MaskDmy(MaskDmy(raw)) == MaskDmy(raw)
  {
    var r := MaskDmy(raw);
    MaskDmyFormat(raw);
    var d := Slice(DigitsOf(raw), 0, 8);
    assert Slice(DigitsOf(r), 0, 8) == Slice(d, 0, 8) == d;
  }

  lemma MaskDmyOfEightDigits(s: string)
    requires s == "05032024"
    ensures MaskDmy(s) == "05/03/2024"
  {
    MaskOfDigits(s);
    assert s[..2] == "05" && s[2..4] == "03" && s[4..] == "2024";
  }

  /** Digits beyond the eighth are dropped. */
  lemma MaskDmyOfTenDigits(s: string)
    requires s == "0503202499"
    ensures MaskDmy(s) == "05/03/2024"
  {
    MaskOfDigits(s);
    assert s[..8] == "05032024";
  }

  /** No trailing `/` until a digit follows it. */
  lemma MaskDmyOfThreeDigits(s: string)
    requires s == "050"
    ensures MaskDmy(s) == "05/0"
    ensures MaskDmy(s[..2]) == "05"
  {
    MaskOfDigits(s);
    MaskOfDigits(s[..2]);
  }

  lemma DigitsOfTypedSlashes(s: string)
    requires s == "5/3/2024x"
    ensures DigitsOf(s) == "532024"
  {
    assert s == "5" + "/" + "3" + "/" + "2024" + "x";
    DigitsOfAppend("5" + "/" + "3" + "/" + "2024", "x");
    DigitsOfAppend("5" + "/" + "3" + "/", "2024");
    DigitsOfAppend("5" + "/" + "3", "/");
    DigitsOfAppend("5" + "/", "3");
    DigitsOfAppend("5", "/");
    DigitsOfDigits("5");
    DigitsOfDigits("3");
    DigitsOfDigits("2024");
    assert DigitsOf("/") == "" && DigitsOf("x") == "";
  }

  /** Typed separators and letters are discarded. */
  lemma MaskDmyOfTypedSlashes(s: string)
    requires s == "5/3/2024x"
    ensures MaskDmy(s) == "53/20/24"
  {
    DigitsOfTypedSlashes(s);
    var d := DigitsOf(s);
    assert Slice(d, 0, 8) == d;
    assert Grouped(d) == "53/20/24";
  }

  // ---------------------------------------------------------------------------
  // ISO (YYYY-MM-DD, optionally with a `T...` time suffix) to DD/MM/YYYY

  /** `s.padStart(2, '0')` */
  function PadStart2(s: string): (r: string)
    ensures |s| >= 2 ==> r == s
    ensures |s| < 2 ==> |r| == 2 && r[2 - |s|..] == s && forall i :: 0 <= i < 2 - |s| ==> r[i] == '0'
  {
    if |s| >= 2 then s else if |s| == 1 then "0" + s else "00"
  }

  /** `(s.split('T')[0] || '').split('-')` destructured as `[y, m, d]`;
      `None` when one of the three is missing or empty. Parts after the
      third are ignored. */
  function IsoFields(s: string): Option<(string, string, string)> {
    var parts := SplitOn(SplitOn(s, 'T')[0], '-');
    if |parts| < 3 || parts[0] == "" || parts[1] == "" || parts[2] == "" then None
    else Some((parts[0], parts[1], parts[2]))
  }

  function DmyOf(y: string, m: string, d: string): string {
    PadStart2(d) + "/" + PadStart2(m) + "/" + y
  }

  /** The converter that yields '' on malformed input. */
  function IsoToDmy(iso: Value): string {
    if !Truthy(iso) then ""
    else if MatchesDmy(iso.s) then iso.s
    else match IsoFields(iso.s)
      case None => ""
      case Some((y, m, d)) => DmyOf(y, m, d)
  }

  lemma NoDashInDmy(s: string)
    requires MatchesDmy(s)
    ensures '-' !in s
  {
    forall i | 0 <= i < |s| ensures s[i] != '-' {
      if i != 2 && i != 5 { assert IsDigit(s[i]); }
    }
  }

  /** Reading the fields of `y-m-d` followed by nothing or by a `T...` suffix. */
  lemma IsoFieldsOf(y: string, m: string, d: string, suffix: string)
    requires y != "" && m != "" && d != ""
    requires '-' !in y && '-' !in m && '-' !in d
    requires 'T' !in y && 'T' !in m && 'T' !in d
    requires suffix == "" || suffix[0] == 'T'
    ensures IsoFields(y + "-" + m + "-" + d + suffix) == Some((y, m, d))
  {
    var base := y + "-" + m + "-" + d;
    assert base == Join([y, m, d], "-") by {
      assert [y, m, d][1..] == [m, d] && [m, d][1..] == [d];
      assert Join([m, d], "-") == m + "-" + d;
      assert Join([y, m, d], "-") == y + "-" + (m + "-" + d);
    }
    assert 'T' !in base;
    SplitOnPlainPrefix(base, suffix, 'T');
    if suffix != "" {
      assert SplitOn(suffix, 'T')[0] == "";
    }
    assert base + SplitOn(suffix, 'T')[0] == base;
    assert SplitOn(base + suffix, 'T')[0] == base;
    SplitOfJoin([y, m, d], '-');
  }

  /** An ISO date, with or without a time suffix, becomes zero-padded DD/MM/YYYY;
      a four-digit year with one- or two-digit month and day gives text of the
      DD/MM/YYYY shape. */
  lemma IsoToDmyOfIso(y: string, m: string, d: string, suffix: string)
    requires y != "" && m != "" && d != ""
    requires '-' !in y && '-' !in m && '-' !in d
    requires 'T' !in y && 'T' !in m && 'T' !in d
    requires suffix == "" || suffix[0] == 'T'
    ensures IsoToDmy(Str(y + "-" + m + "-" + d + suffix)) == DmyOf(y, m, d)
    ensures IsDigitsOfLength(y, 4) && AllDigits(m) && AllDigits(d) && |m| <= 2 && |d| <= 2 ==>
      MatchesDmy(DmyOf(y, m, d))
  {
    var s := y + "-" + m + "-" + d + suffix;
    assert s[|y|] == '-';
    if MatchesDmy(s) {
      NoDashInDmy(s);
      assert false;
    }
    IsoFieldsOf(y, m, d, suffix);
  }

  lemma IsoToDmyOfDate(s: string)
    requires s == "2024-03-05"
    ensures IsoToDmy(Str(s)) == "05/03/2024"
  {
    assert s == "2024" + "-" + "03" + "-" + "05" + "";
    IsoToDmyOfIso("2024", "03", "05", "");
  }

  lemma IsoToDmyOfTimestamp(s: string)
    requires s == "2024-3-5T10:00Z"
    ensures IsoToDmy(Str(s)) == "05/03/2024"
  {
    assert s == "2024" + "-" + "3" + "-" + "5" + "T10:00Z";
    IsoToDmyOfIso("2024", "3", "5", "T10:00Z");
  }

  /** Any DD/MM/YYYY text passes through unchanged; an empty or missing
      value gives ''. */
  lemma IsoToDmyPassThrough(s: string)
    requires MatchesDmy(s)
    ensures IsoToDmy(Str(s)) == s
    ensures IsoToDmy(Str("")) == "" && IsoToDmy(Undefined) == "" && IsoToDmy(Null) == ""
  {
  }

  /** Text that is not DD/MM/YYYY, and whose date part (the text before any
      `T`) does not split on `-` into three non-empty leading fields, converts
      to ''. */
  lemma IsoToDmyOfMissingPart(date: string, suffix: string)
    requires 'T' !in date && (suffix == "" || suffix[0] == 'T')
    requires !MatchesDmy(date + suffix)
    requires var parts := SplitOn(date, '-'); |parts| < 3 || parts[0] == "" || parts[1] == "" || parts[2] == ""
    ensures IsoToDmy(Str(date + suffix)) == ""
  {
    SplitOnPlainPrefix(date, suffix, 'T');
    assert SplitOn(suffix, 'T')[0] == "";
    assert date + "" == date;
  }

  lemma IsoToDmyOfMonth(s: string)
    requires s == "2024-03"
    ensures IsoToDmy(Str(s)) == ""
  {
    assert s == Join(["2024", "03"], "-");
    SplitOfJoin(["2024", "03"], '-');
    assert s + "" == s;
    IsoToDmyOfMissingPart(s, "");
  }

  // ---------------------------------------------------------------------------
  // Phone and Aadhaar numbers

  /** `v && !/^\d{10}$/.test(v)`: a phone number that was given but is not ten digits. */
  predicate PhoneInvalid(v: Value) {
    Truthy(v) && !IsDigitsOfLength(v.s, 10)
  }

  /** `v && !/^\d{12}$/.test(v)`: an Aadhaar number that was given but is not twelve digits. */
  predicate AadhaarInvalid(v: Value) {
    Truthy(v) && !IsDigitsOfLength(v.s, 12)
  }
}
