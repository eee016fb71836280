/**
 * Sending one campaign email (`src/backend/emailService.js`): the template is
 * personalised by two first-occurrence substitutions, the message goes to the
 * lead's address, and the transport's verdict is recorded on the lead's
 * campaign_leads row. The transport itself is an oracle: its verdict is a
 * parameter.
 */
module Email {
  import opened Common
  import opened Strings
  import opened Campaigns

  const FirstNamePlaceholder: string := "{{first_name|there}}"
  const CompanyPlaceholder: string := "{{company_name}}"
  const DefaultGreeting: string := "Sir/Madam"
  const DefaultCompany: string := "your company"
  const Subject: string :=
    "Introduction to Asha Corporation \U{2013} Your One-Stop Solution for Lubrication & Chemicals"

  /** The contact person when truthy, else the polite default. */
  function Greeting(row: CampaignLeadRow): (g: string)
    ensures g != ""
    ensures Truthy(row.contactPerson) ==> g == row.contactPerson.value
  {
    if Truthy(row.contactPerson) then row.contactPerson.value else DefaultGreeting
  }

  /** The company name when non-empty, else the generic default. */
  function CompanyName(row: CampaignLeadRow): (n: string)
    ensures n != ""
    ensures row.name != "" ==> n == row.name
  {
    if row.name != "" then row.name else DefaultCompany
  }

  /** The HTML body: the greeting placeholder is replaced first, then the company placeholder in that result. */
  function Personalise(template: string, row: CampaignLeadRow): string {
    ReplaceFirst(ReplaceFirst(template, FirstNamePlaceholder, Greeting(row)), CompanyPlaceholder, CompanyName(row))
  }

  /**
   * For a template laid out as `pre`, greeting placeholder, `mid`, company
   * placeholder, `post` (each placeholder at its first occurrence, the second
   * one counted after the greeting is in place), the body is `pre`, greeting,
   * `mid`, company name, `post`: later placeholders in `post` stay.
   */
  lemma PersonaliseLayout(pre: string, mid: string, post: string, row: CampaignLeadRow)
    requires forall j :: 0 <= j < |pre| ==>
               !OccursAt(pre + FirstNamePlaceholder + mid + CompanyPlaceholder + post, FirstNamePlaceholder, j)
    requires forall j :: 0 <= j < |pre + Greeting(row) + mid| ==>
               !OccursAt(pre + Greeting(row) + mid + CompanyPlaceholder + post, CompanyPlaceholder, j)
    ensures Personalise(pre + FirstNamePlaceholder + mid + CompanyPlaceholder + post, row) ==
            pre + Greeting(row) + mid + CompanyName(row) + post
  {
    var rest := mid + CompanyPlaceholder + post;
    assert pre + FirstNamePlaceholder + mid + CompanyPlaceholder + post == pre + FirstNamePlaceholder + rest;
    ReplaceFirstLayout(pre, FirstNamePlaceholder, rest, Greeting(row));
    var front := pre + Greeting(row) + mid;
    assert pre + Greeting(row) + rest == front + CompanyPlaceholder + post;
    ReplaceFirstLayout(front, CompanyPlaceholder, post, CompanyName(row));
  }

  /** A template without placeholders is sent as it is. */
  lemma PersonalisePlain(template: string, row: CampaignLeadRow)
    requires !Contains(template, FirstNamePlaceholder) && !Contains(template, CompanyPlaceholder)
    ensures Personalise(template, row) == template
  {
    ReplaceFirstAbsent(template, FirstNamePlaceholder, Greeting(row));
    ReplaceFirstAbsent(template, CompanyPlaceholder, CompanyName(row));
  }

  /** A prefix without `{` holds no occurrence of a placeholder that starts with `{`. */
  lemma NoBraceNoEarlyOccurrence(pre: string, p: string, rest: string)
    requires |p| > 0 && p[0] == '{'
    requires forall j :: 0 <= j < |pre| ==> pre[j] != '{'
    ensures forall j :: 0 <= j < |pre| ==> !OccursAt(pre + p + rest, p, j)
  {
    var s := pre + p + rest;
    forall j | 0 <= j < |pre| ensures !OccursAt(s, p, j) {
      if j + |p| <= |s| {
        assert s[j..j + |p|][0] == s[j] == pre[j];
      }
    }
  }

  /**
   * The company substitution runs on the output of the greeting one: when
   * the contact person is itself the company placeholder, that copy receives
   * the company name and the template's own company placeholder, further on,
   * is left in the body.
   */
  lemma GreetingAbsorbsCompanySubstitution(pre: string, post: string, row: CampaignLeadRow)
    requires forall j :: 0 <= j < |pre| ==> pre[j] != '{'
    requires row.contactPerson == Some(CompanyPlaceholder)
    ensures Personalise(pre + FirstNamePlaceholder + post, row) == pre + CompanyName(row) + post
  {
    NoBraceNoEarlyOccurrence(pre, FirstNamePlaceholder, post);
    ReplaceFirstLayout(pre, FirstNamePlaceholder, post, CompanyPlaceholder);
    NoBraceNoEarlyOccurrence(pre, CompanyPlaceholder, post);
    ReplaceFirstLayout(pre, CompanyPlaceholder, post, CompanyName(row));
  }

  /** The message handed to the transport. */
  datatype Mail = Mail(to: Option<string>, subject: string, html: string)

  /** The message is always addressed to the lead's email and carries the fixed subject. */
  function ComposeMail(template: string, row: CampaignLeadRow): (m: Mail)
    ensures m.to == row.email && m.subject == Subject
  {
    Mail(row.email, Subject, Personalise(template, row))
  }

  /** The transport's verdict on one message. */
  datatype TransportResult = Delivered(info: string) | Undelivered(message: string)

  /** SENT on delivery, FAILED on a transport error. */
  function OutcomeStatus(res: TransportResult): (st: AssignmentStatus)
    ensures st == Sent || st == Failed
    ensures st == Sent <==> res.Delivered?
  {
    if res.Delivered? then Sent else Failed
  }

  /** `{info}` on delivery, `{error: message}` on a transport error. */
  function OutcomeExtra(res: TransportResult): ExtraData {
    match res
    case Delivered(info) => DeliveryInfo(info)
    case Undelivered(message) => DeliveryError(message)
  }

  /** The recorded outcome always passes the status CHECK, and the extra data keeps the transport's report. */
  lemma OutcomeRecordable(res: TransportResult)
    ensures ParseAssignmentStatus(AssignmentStatusText(OutcomeStatus(res))) == Some(OutcomeStatus(res))
    ensures res.Delivered? ==> OutcomeExtra(res) == DeliveryInfo(res.info)
    ensures res.Undelivered? ==> OutcomeExtra(res) == DeliveryError(res.message)
  {
    AssignmentStatusRoundTrip(OutcomeStatus(res));
  }

  /** What the callback of a successful recording receives. */
  datatype SendReport = SendReport(status: AssignmentStatus, transport: TransportResult, updated: nat)

  /**
   * `sendCampaignLeadEmail`: composes the message, takes the transport's
   * verdict `res`, and records it on the row keyed by the row's campaign and
   * lead ids. A transport failure is reported as a FAILED outcome; only a
   * store failure (`storeFails`) is an error, and then nothing is written.
   */
  method SendCampaignLeadEmail(store: CampaignStore, template: string, row: CampaignLeadRow,
                               res: TransportResult, storeFails: bool, now: nat)
      returns (mail: Mail, r: Result<SendReport, StoreError>)
    requires store.Valid()
    modifies store
    ensures store.Valid()
    ensures mail == ComposeMail(template, row)
    ensures store.campaigns == old(store.campaigns) && store.lastId == old(store.lastId)
    ensures storeFails ==> r == Err(IoFailure) && store.assignments == old(store.assignments)
    ensures !storeFails ==>
      && r == Ok(SendReport(OutcomeStatus(res), res,
                            if HasKey(old(store.assignments), (row.campaignId, row.id)) then 1 else 0))
      && store.assignments == SetLeadStatus(old(store.assignments), (row.campaignId, row.id),
                                            OutcomeStatus(res), OutcomeExtra(res), TruncateToSecond(now))
  {
    mail := ComposeMail(template, row);
    var status := OutcomeStatus(res);
    var extra := OutcomeExtra(res);
    if storeFails {
      return mail, Err(IoFailure);
    }
    OutcomeRecordable(res);
    SetLeadStatusEffect(store.assignments, (row.campaignId, row.id), status, extra, TruncateToSecond(now));
    var u := store.UpdateCampaignLeadStatus(row.campaignId, row.id, AssignmentStatusText(status), extra, now);
    r := Ok(SendReport(status, res, u.value));
  }
}
