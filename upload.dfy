/**
 * Handing imported records to `addLead` (`handleFileChange` in
 * `src/components/UploadLeadsDialog.js`): every record `processLeadsExcel`
 * returns is passed unchanged as the `lead` object, and `addLead` reads that
 * object's lower-case keys. The parsed details sit under the sheet's
 * `Details` key, which `addLead` does not read.
 */
module Upload {
  import opened Common
  import opened Strings
  import opened SheetImport
  import Leads

  /** What a TEXT column keeps of a bound cell: text as it is, a number as rendered, a boolean as 1 or 0. */
  function ColumnText(c: Cell): string {
    match c
    case Text(s) => s
    case Number(shown) => shown
    case Flag(b) => if b then "1" else "0"
  }

  /**
   * The `lead` object `addLead` receives for an imported record, as written.
   * The record has neither an `isSurveyLead` nor a `details` key, so both
   * read as undefined.
   */
  function AsLeadInput(r: ImportedLead): Leads.LeadInput {
    Leads.LeadInput(ColumnText(r.name), Some(ColumnText(r.address)), Some(r.phone), Some(r.mobile),
                    Some(ColumnText(r.email)), Some(ColumnText(r.contactPerson)), Some(r.area), false, None)
  }

  /** `JSON.stringify` of the parsed details, parsing and serialising taken as exact. */
  function DetailsText(d: Details): string {
    match d
    case JsonText(source) => source
    case EmptyObject => Leads.EmptyDetails
  }

  /** The corrected hand-over: the parsed details are passed as `details` as well. */
  function AsLeadInputFixed(r: ImportedLead): Leads.LeadInput {
    AsLeadInput(r).(details := Some(DetailsText(r.detailsColumn)))
  }

  /**
   * As written, the lead an upload stores has details "{}", whatever the
   * sheet's Details column holds; a lead that already exists has its
   * details overwritten with "{}".
   */
  lemma UploadDropsDetails(rows: seq<Leads.Lead>, lastId: nat, r: ImportedLead, now: nat)
    requires Leads.TableValid(rows, lastId)
    ensures var u := Leads.Upsert(rows, lastId, AsLeadInput(r), now);
            forall i :: 0 <= i < |u.rows| && u.rows[i].id == u.id ==> u.rows[i].details == Leads.EmptyDetails
  {
    Leads.UpsertStored(rows, lastId, AsLeadInput(r), now);
  }

  /** One sheet row named "Acme" whose Details cell holds a JSON object. */
  function DetailsSheet(): seq<SheetRow> {
    [SheetRow(Some(Text("Acme")), None, None, None, None, None, None, Some(Text("{\"segment\":\"retail\"}")))]
  }

  /** The import keeps that row and parses its details, yet the lead object it hands over has none. */
  lemma DetailsColumnIgnored()
    ensures ProcessLeadRows(DetailsSheet()).Ok?
    ensures var out := ProcessLeadRows(DetailsSheet()).value;
            && |out| == 1
            && out[0].detailsColumn == JsonText("{\"segment\":\"retail\"}")
            && AsLeadInput(out[0]).details.None?
            && Leads.StoredDetails(AsLeadInput(out[0]).details) == Leads.EmptyDetails
  {
    var rows := DetailsSheet();
    assert !IsJsWhitespace(rows[0].name.value.text[0]);
    assert Kept(rows[0]);
    assert KeptRows(rows) == [rows[0]] by {
      assert rows[1..] == [];
    }
    ProcessLeadRowsFails(rows);
    ProcessLeadRowsOk(rows);
  }

  /**
   * Corrected, the row behind the returned id stores the Details column's
   * JSON text, and "{}" when the column held no text.
   */
  lemma UploadKeepsDetails(rows: seq<Leads.Lead>, lastId: nat, r: ImportedLead, now: nat)
    requires Leads.TableValid(rows, lastId)
    ensures var u := Leads.Upsert(rows, lastId, AsLeadInputFixed(r), now);
            && (exists i :: 0 <= i < |u.rows| && u.rows[i].id == u.id)
            && forall i :: 0 <= i < |u.rows| && u.rows[i].id == u.id ==>
                 && (r.detailsColumn.JsonText? ==> u.rows[i].details == r.detailsColumn.source)
                 && (r.detailsColumn.EmptyObject? ==> u.rows[i].details == Leads.EmptyDetails)
  {
    Leads.UpsertNameUnique(rows, lastId, AsLeadInputFixed(r), now);
    Leads.UpsertStored(rows, lastId, AsLeadInputFixed(r), now);
  }
}
