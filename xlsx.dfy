/**
 * Turning the rows of an uploaded spreadsheet into lead records
 * (`processLeadsExcel` in `src/utils/xlsxUtils.js`): rows without a
 * non-blank name are dropped, and every kept row gets its fields normalised
 * (defaults for missing values, cleaned phone numbers, an upper-cased area).
 * Reading the workbook is not modelled: the rows are the input.
 */
module SheetImport {
  import opened Common
  import opened Strings

  /**
   * A cell as the sheet reader reports it: text, a number (carried as its
   * JavaScript `String` rendering), or a boolean. A blank cell is absent.
   */
  datatype Cell = Text(text: string) | Number(shown: string) | Flag(b: bool)

  /** JavaScript truthiness of a cell value: "", 0, NaN and false are falsy. */
  predicate CellTruthy(c: Cell) {
    match c
    case Text(s) => s != ""
    case Number(shown) => shown != "0" && shown != "NaN"
    case Flag(b) => b
  }

  /** `String(value)`. */
  function CellString(c: Cell): string {
    match c
    case Text(s) => s
    case Number(shown) => shown
    case Flag(b) => if b then "true" else "false"
  }

  /** A present, truthy cell. */
  predicate Present(c: Option<Cell>) {
    c.Some? && CellTruthy(c.value)
  }

  /** The columns of a sheet row that the import reads. */
  datatype SheetRow = SheetRow(
    name: Option<Cell>,
    address: Option<Cell>,
    phone: Option<Cell>,
    mobile: Option<Cell>,
    email: Option<Cell>,
    contactPerson: Option<Cell>,
    area: Option<Cell>,
    details: Option<Cell>)

  /** The only way the import fails: `.trim()` called on a value that is not a string. */
  datatype ImportError = TypeError

  /** Guarding `.trim()` by truthiness alone: a truthy number or boolean reaches the call and throws. */
  predicate TrimThrows(c: Option<Cell>) {
    Present(c) && !c.value.Text?
  }

  /** The filter keeps a row whose name is text that is not all whitespace. */
  predicate Kept(row: SheetRow) {
    Present(row.name) && row.name.value.Text? && !AllWhitespace(row.name.value.text)
  }

  /** That is the filter's test: the trimmed name is not empty. */
  lemma KeptIff(row: SheetRow)
    ensures Kept(row) <==> Present(row.name) && row.name.value.Text? && Trim(row.name.value.text) != ""
  {
    if row.name.Some? && row.name.value.Text? {
      TrimEmptyIff(row.name.value.text);
    }
  }

  // ---------------------------------------------------------------------
  // The filter
  // ---------------------------------------------------------------------

  /** The kept rows, in sheet order: the reference definition of the filter. */
  function KeptRows(rows: seq<SheetRow>): seq<SheetRow> {
    if |rows| == 0 then []
    else (if Kept(rows[0]) then [rows[0]] else []) + KeptRows(rows[1..])
  }

  /** `rows.filter(row => row.Name && row.Name.trim())`, which throws on a non-text name. */
  function FilterNamed(rows: seq<SheetRow>): (r: Result<seq<SheetRow>, ImportError>)
    ensures r.Ok? <==> forall i :: 0 <= i < |rows| ==> !TrimThrows(rows[i].name)
    ensures r.Ok? ==> r.value == KeptRows(rows)
  {
    if |rows| == 0 then Ok([])
    else if TrimThrows(rows[0].name) then Err(TypeError)
    else
      match FilterNamed(rows[1..])
      case Err(e) => Err(e)
      case Ok(rest) => Ok((if Kept(rows[0]) then [rows[0]] else []) + rest)
  }

  /** Exactly the rows with a non-blank name are kept. */
  lemma {:induction false} KeptRowsMembers(rows: seq<SheetRow>)
    ensures forall x :: x in KeptRows(rows) <==> x in rows && Kept(x)
  {
    if |rows| > 0 {
      KeptRowsMembers(rows[1..]);
      assert rows == [rows[0]] + rows[1..];
    }
  }

  /** The filter keeps the sheet order: it distributes over concatenation. */
  lemma {:induction false} KeptRowsAppend(a: seq<SheetRow>, b: seq<SheetRow>)
    ensures KeptRows(a + b) == KeptRows(a) + KeptRows(b)
  {
    if |a| == 0 {
      assert a + b == b;
    } else {
      var head := if Kept(a[0]) then [a[0]] else [];
      assert (a + b)[0] == a[0];
      assert (a + b)[1..] == a[1..] + b;
      KeptRowsAppend(a[1..], b);
      assert KeptRows(a + b) == head + (KeptRows(a[1..]) + KeptRows(b));
      assert KeptRows(a) == head + KeptRows(a[1..]);
    }
  }

  /** Dropping the rows without a name changes nothing more: the filter is idempotent. */
  lemma {:induction false} KeptRowsIdempotent(rows: seq<SheetRow>)
    ensures KeptRows(KeptRows(rows)) == KeptRows(rows)
  {
    if |rows| > 0 {
      var rest := KeptRows(rows[1..]);
      KeptRowsIdempotent(rows[1..]);
      if Kept(rows[0]) {
        assert KeptRows(rows) == [rows[0]] + rest;
        KeptRowsAppend([rows[0]], rest);
        assert [rows[0]][1..] == [];
        assert KeptRows([rows[0]]) == [rows[0]] + KeptRows([]);
      } else {
        assert KeptRows(rows) == [] + rest;
        assert [] + rest == rest;
      }
    }
  }

  // ---------------------------------------------------------------------
  // cleanNumber
  // ---------------------------------------------------------------------

  predicate IsDigit(c: char) {
    '0' <= c <= '9'
  }

  predicate AllDigits(s: string) {
    forall i :: 0 <= i < |s| ==> IsDigit(s[i])
  }

  /** A run of digits has no surrounding whitespace. */
  lemma AllDigitsTrimmed(s: string)
    requires AllDigits(s)
    ensures Trimmed(s)
  {
    if s != [] {
      assert IsDigit(s[0]) && IsDigit(s[|s| - 1]);
    }
  }

  /** The pattern `^\d+\.0$`. */
  predicate DigitsDotZero(s: string) {
    |s| >= 3 && s[|s| - 2..] == ".0" && AllDigits(s[..|s| - 2])
  }

  /**
   * `cleanNumber` up to its scientific-notation step: an absent value gives
   * "", otherwise the trimmed text with a spreadsheet's trailing ".0"
   * removed from a whole number.
   */
  function CleanNumber(val: Option<Cell>): (r: string)
    ensures val.None? ==> r == ""
    ensures val.Some? ==> var t := Trim(CellString(val.value));
      && (DigitsDotZero(t) ==> r + ".0" == t && r != "" && AllDigits(r))
      && (!DigitsDotZero(t) ==> r == t)
  {
    if val.None? then ""
    else
      var str := Trim(CellString(val.value));
      if DigitsDotZero(str) then str[..|str| - 2] else str
  }

  /** A cleaned number has no surrounding whitespace. */
  lemma CleanNumberTrimmed(val: Option<Cell>)
    ensures Trimmed(CleanNumber(val))
  {
    if val.Some? {
      var str := CellString(val.value);
      if DigitsDotZero(Trim(str)) {
        AllDigitsTrimmed(CleanNumber(val));
      } else {
        TrimTrimmed(str);
      }
    }
  }

  /** Cleaning a cleaned number again gives it back. */
  lemma CleanNumberIdempotent(val: Option<Cell>)
    ensures CleanNumber(Some(Text(CleanNumber(val)))) == CleanNumber(val)
  {
    var r := CleanNumber(val);
    CleanNumberTrimmed(val);
    TrimFixedPoint(r);
    if val.Some? && DigitsDotZero(Trim(CellString(val.value))) && |r| >= 3 {
      assert r[|r| - 2..][0] == r[|r| - 2];
    }
  }

  /** A whole number without surrounding whitespace is kept as it is. */
  lemma CleanNumberDigits(c: Cell)
    requires AllDigits(CellString(c))
    ensures CleanNumber(Some(c)) == CellString(c)
  {
    var s := CellString(c);
    AllDigitsTrimmed(s);
    TrimFixedPoint(s);
    if |s| >= 3 {
      assert s[|s| - 2..][0] == s[|s| - 2];
    }
  }

  // ---------------------------------------------------------------------
  // The normalised record
  // ---------------------------------------------------------------------

  /** The `Details` value after the import: the text handed to `JSON.parse`, or `{}` for any other value. */
  datatype Details = JsonText(source: string) | EmptyObject

  /**
   * The lead record built from a kept row. The normalised fields are written
   * to lower-case keys (`name`, `address`, `phone`, `mobile`, `email`,
   * `contact_person`, `area`); the parsed details are written back under the
   * sheet's own `Details` key, so `detailsColumn` is that key, not `details`.
   */
  datatype ImportedLead = ImportedLead(
    name: Cell,
    address: Cell,
    phone: string,
    mobile: string,
    email: Cell,
    contactPerson: Cell,
    area: string,
    detailsColumn: Details)

  const DefaultArea: string := "N/A"

  /** `value || ''`: the value itself when truthy, else the empty string. */
  function OrEmpty(c: Option<Cell>): (r: Cell)
    ensures Present(c) ==> r == c.value
    ensures !Present(c) ==> r == Text("")
  {
    if Present(c) then c.value else Text("")
  }

  /** `area`: the trimmed, upper-cased text when truthy, "N/A" when falsy; a truthy non-text throws. */
  function AreaOf(c: Option<Cell>): Result<string, ImportError> {
    if !Present(c) then Ok(DefaultArea)
    else if !c.value.Text? then Err(TypeError)
    else Ok(ToUpper(Trim(c.value.text)))
  }

  /** `row.Details`: a truthy string is kept for parsing, anything else becomes `{}`. */
  function DetailsOf(c: Option<Cell>): Details {
    if Present(c) && c.value.Text? then JsonText(c.value.text) else EmptyObject
  }

  /** The `map` callback on one kept row. */
  function Normalise(row: SheetRow): (r: Result<ImportedLead, ImportError>)
    ensures r.Err? <==> TrimThrows(row.area)
  {
    match AreaOf(row.area)
    case Err(e) => Err(e)
    case Ok(area) =>
      Ok(ImportedLead(OrEmpty(row.name), OrEmpty(row.address), CleanNumber(row.phone), CleanNumber(row.mobile),
                      OrEmpty(row.email), OrEmpty(row.contactPerson), area, DetailsOf(row.details)))
  }

  /**
   * A normalised kept row keeps the name exactly as written (untrimmed), has
   * cleaned phone and mobile numbers, and an area that is "N/A" or the
   * trimmed area with no lower-case ASCII letter.
   */
  lemma NormaliseSpec(row: SheetRow)
    requires Kept(row) && !TrimThrows(row.area)
    ensures var r := Normalise(row).value;
      && r.name == row.name.value && Trim(r.name.text) != ""
      && Trimmed(r.phone) && Trimmed(r.mobile)
      && (!Present(row.area) ==> r.area == DefaultArea)
      && (Present(row.area) ==> Trimmed(r.area) && forall i :: 0 <= i < |r.area| ==> !IsLowerAscii(r.area[i]))
      && (Present(row.area) && AllWhitespace(row.area.value.text) ==> r.area == "")
      && (!Present(row.address) ==> r.address == Text(""))
      && (!Present(row.email) ==> r.email == Text(""))
      && (!Present(row.contactPerson) ==> r.contactPerson == Text(""))
      && (r.detailsColumn.JsonText? <==> Present(row.details) && row.details.value.Text?)
  {
    KeptIff(row);
    CleanNumberTrimmed(row.phone);
    CleanNumberTrimmed(row.mobile);
    if Present(row.area) {
      AreaOfText(row.area.value.text);
    }
  }

  /** A text area comes out trimmed, with no lower-case ASCII letter; a blank one comes out empty. */
  lemma AreaOfText(t: string)
    requires t != ""
    ensures var a := AreaOf(Some(Text(t))).value;
      && Trimmed(a)
      && (forall i :: 0 <= i < |a| ==> !IsLowerAscii(a[i]))
      && (AllWhitespace(t) ==> a == "")
  {
    TrimToUpperCommute(t);
    TrimTrimmed(ToUpper(t));
    ToUpperSpec(Trim(t));
    TrimEmptyIff(t);
  }

  /** The `map` over the kept rows; one throwing row rejects the whole import. */
  function NormaliseAll(rows: seq<SheetRow>): (r: Result<seq<ImportedLead>, ImportError>)
    ensures r.Ok? <==> forall i :: 0 <= i < |rows| ==> !TrimThrows(rows[i].area)
    ensures r.Ok? ==> |r.value| == |rows| && forall i :: 0 <= i < |rows| ==> r.value[i] == Normalise(rows[i]).value
  {
    if |rows| == 0 then Ok([])
    else
      match Normalise(rows[0])
      case Err(e) => Err(e)
      case Ok(first) =>
        match NormaliseAll(rows[1..])
        case Err(e) => Err(e)
        case Ok(rest) => Ok([first] + rest)
  }

  /** `processLeadsExcel` after the workbook is read: the filter, then the map. */
  function ProcessLeadRows(rows: seq<SheetRow>): Result<seq<ImportedLead>, ImportError> {
    match FilterNamed(rows)
    case Err(e) => Err(e)
    case Ok(kept) => NormaliseAll(kept)
  }

  /**
   * The import fails exactly when some row has a truthy non-text name, or a
   * kept row has a truthy non-text area.
   */
  lemma ProcessLeadRowsFails(rows: seq<SheetRow>)
    ensures ProcessLeadRows(rows).Err? <==>
            exists i :: 0 <= i < |rows| && (TrimThrows(rows[i].name) || (Kept(rows[i]) && TrimThrows(rows[i].area)))
  {
    KeptAreaThrows(rows);
  }

  /** Some kept row has a throwing area exactly when some row of the sheet is kept and has one. */
  lemma KeptAreaThrows(rows: seq<SheetRow>)
    ensures var kept := KeptRows(rows);
      (exists k :: 0 <= k < |kept| && TrimThrows(kept[k].area)) <==>
      (exists i :: 0 <= i < |rows| && Kept(rows[i]) && TrimThrows(rows[i].area))
  {
    var kept := KeptRows(rows);
    KeptRowsMembers(rows);
    forall k | 0 <= k < |kept| && TrimThrows(kept[k].area)
      ensures exists i :: 0 <= i < |rows| && Kept(rows[i]) && TrimThrows(rows[i].area)
    {
      assert kept[k] in rows;
      var i :| 0 <= i < |rows| && rows[i] == kept[k];
      assert Kept(rows[i]) && TrimThrows(rows[i].area);
    }
    forall i | 0 <= i < |rows| && Kept(rows[i]) && TrimThrows(rows[i].area)
      ensures exists k :: 0 <= k < |kept| && TrimThrows(kept[k].area)
    {
      assert rows[i] in kept;
      var k :| 0 <= k < |kept| && kept[k] == rows[i];
      assert TrimThrows(kept[k].area);
    }
  }

  /** On success, the records are the kept rows, normalised one by one, in sheet order. */
  lemma ProcessLeadRowsOk(rows: seq<SheetRow>)
    requires ProcessLeadRows(rows).Ok?
    ensures var out := ProcessLeadRows(rows).value;
            var kept := KeptRows(rows);
      && |out| == |kept|
      && forall i :: 0 <= i < |kept| ==> Kept(kept[i]) && kept[i] in rows && out[i] == Normalise(kept[i]).value
  {
    KeptRowsMembers(rows);
  }

  // ---------------------------------------------------------------------
  // The import with `String(value).trim()`
  // ---------------------------------------------------------------------

  /** A sheet with one row whose name is the number 42. */
  function NumericNameSheet(): seq<SheetRow> {
    [SheetRow(Some(Number("42")), None, None, None, None, None, None, None)]
  }

  /** As written, a numeric name, which is not blank, rejects the whole sheet. */
  lemma NumericNameRejectsSheet()
    ensures ProcessLeadRows(NumericNameSheet()).Err?
  {
    ProcessLeadRowsFails(NumericNameSheet());
    assert TrimThrows(NumericNameSheet()[0].name);
  }

  /** The name test the filter's comment describes: present and not blank once rendered as text. */
  predicate NamedRow(row: SheetRow) {
    Present(row.name) && !AllWhitespace(CellString(row.name.value))
  }

  function NamedRows(rows: seq<SheetRow>): seq<SheetRow> {
    if |rows| == 0 then []
    else (if NamedRow(rows[0]) then [rows[0]] else []) + NamedRows(rows[1..])
  }

  /** The area of a row, every cell rendered as text before it is trimmed. */
  function AreaOfAny(c: Option<Cell>): string {
    if Present(c) then ToUpper(Trim(CellString(c.value))) else DefaultArea
  }

  function NormaliseAny(row: SheetRow): ImportedLead {
    ImportedLead(OrEmpty(row.name), OrEmpty(row.address), CleanNumber(row.phone), CleanNumber(row.mobile),
                 OrEmpty(row.email), OrEmpty(row.contactPerson), AreaOfAny(row.area), DetailsOf(row.details))
  }

  /** The import with every `.trim()` applied to `String(value)`: it cannot fail. */
  function ProcessLeadRowsAny(rows: seq<SheetRow>): (out: seq<ImportedLead>)
    ensures |out| == |NamedRows(rows)|
    ensures forall i :: 0 <= i < |out| ==> out[i] == NormaliseAny(NamedRows(rows)[i])
  {
    var named := NamedRows(rows);
    seq(|named|, i requires 0 <= i < |named| => NormaliseAny(named[i]))
  }

  /** Exactly the rows with a present, non-blank name are imported, a numeric one included. */
  lemma {:induction false} NamedRowsMembers(rows: seq<SheetRow>)
    ensures forall x :: x in NamedRows(rows) <==> x in rows && NamedRow(x)
  {
    if |rows| > 0 {
      NamedRowsMembers(rows[1..]);
      assert rows == [rows[0]] + rows[1..];
    }
  }

  lemma NumericNameImported()
    ensures |ProcessLeadRowsAny(NumericNameSheet())| == 1
    ensures ProcessLeadRowsAny(NumericNameSheet())[0].name == Number("42")
  {
    var rows := NumericNameSheet();
    assert !IsJsWhitespace(CellString(rows[0].name.value)[0]);
    assert NamedRow(rows[0]);
    assert NamedRows(rows) == [rows[0]] + NamedRows(rows[1..]);
  }

  /** On every sheet the as-written import accepts, the corrected one gives the same records. */
  lemma {:induction false} ProcessLeadRowsAnyAgrees(rows: seq<SheetRow>)
    requires ProcessLeadRows(rows).Ok?
    ensures ProcessLeadRowsAny(rows) == ProcessLeadRows(rows).value
  {
    ProcessLeadRowsOk(rows);
    NamedRowsAgree(rows);
    var kept := KeptRows(rows);
    assert !FilterNamed(rows).Err?;
    forall k | 0 <= k < |kept| ensures NormaliseAny(kept[k]) == Normalise(kept[k]).value {
      assert !TrimThrows(kept[k].area);
    }
  }

  /** Where no name cell throws, the two filters keep the same rows. */
  lemma {:induction false} NamedRowsAgree(rows: seq<SheetRow>)
    requires forall i :: 0 <= i < |rows| ==> !TrimThrows(rows[i].name)
    ensures NamedRows(rows) == KeptRows(rows)
  {
    if |rows| > 0 {
      assert NamedRow(rows[0]) == Kept(rows[0]);
      assert forall i :: 0 <= i < |rows[1..]| ==> !TrimThrows(rows[1..][i].name) by {
        forall i | 0 <= i < |rows[1..]| ensures !TrimThrows(rows[1..][i].name) {
          assert rows[1..][i] == rows[i + 1];
        }
      }
      NamedRowsAgree(rows[1..]);
    }
  }
}
