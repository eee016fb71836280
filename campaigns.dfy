/**
 * The campaign store: the `campaigns` table, the `campaign_leads` table that
 * assigns leads to campaigns (one row per (campaign, lead) pair), and the
 * operations of `src/backend/campaigns.js` over them.
 *
 * Both tables are sequences in rowid order. Timestamps are milliseconds;
 * `campaign_leads` keeps them as "YYYY-MM-DD HH:MM:SS" text, so every time it
 * stores is cut to a whole second. Text columns that are only compared for
 * order (`campaigns.start_date`) stay text and use SQLite's BINARY order.
 */
module Campaigns {
  import opened Common
  import opened Strings
  import opened Sequences
  import opened Leads

  // ---------------------------------------------------------------------
  // Campaign type and status
  // ---------------------------------------------------------------------

  /** The channel of a campaign; the column's CHECK admits exactly these three. */
  datatype CampaignType = Email | Sms | WhatsApp

  function CampaignTypeText(t: CampaignType): string {
    match t
    case Email => "EMAIL"
    case Sms => "SMS"
    case WhatsApp => "WHATSAPP"
  }

  /** The type a bound value names; None when the NOT NULL or CHECK constraint rejects it. */
  function ParseCampaignType(s: Option<string>): (r: Option<CampaignType>)
    ensures r.Some? <==> s.Some? && s.value in {"EMAIL", "SMS", "WHATSAPP"}
    ensures r.Some? ==> CampaignTypeText(r.value) == s.value
  {
    if s == Some("EMAIL") then Some(Email)
    else if s == Some("SMS") then Some(Sms)
    else if s == Some("WHATSAPP") then Some(WhatsApp)
    else None
  }

  lemma CampaignTypeRoundTrip(t: CampaignType)
    ensures ParseCampaignType(Some(CampaignTypeText(t))) == Some(t)
  {
  }

  /**
   * A campaign's status. The column has no CHECK constraint, so besides the
   * names the application uses it may hold NULL (`Unset`) or any other text.
   */
  datatype CampaignStatus = Draft | Active | Stopped | Finished | Completed | Unset | Other(text: string)

  /** The status a stored text denotes. */
  function StatusFromText(s: string): (st: CampaignStatus)
    ensures st != Unset
  {
    if s == "DRAFT" then Draft
    else if s == "ACTIVE" then Active
    else if s == "STOPPED" then Stopped
    else if s == "FINISHED" then Finished
    else if s == "COMPLETED" then Completed
    else Other(s)
  }

  /** The text the column holds for a status; None for NULL. */
  function StatusText(st: CampaignStatus): Option<string> {
    match st
    case Draft => Some("DRAFT")
    case Active => Some("ACTIVE")
    case Stopped => Some("STOPPED")
    case Finished => Some("FINISHED")
    case Completed => Some("COMPLETED")
    case Unset => None
    case Other(t) => Some(t)
  }

  /** `Other` is reserved for texts that are not one of the named statuses. */
  predicate WellFormedStatus(st: CampaignStatus) {
    st.Other? ==> StatusFromText(st.text) == st
  }

  lemma StatusTextRoundTrip(s: string)
    ensures WellFormedStatus(StatusFromText(s))
    ensures StatusText(StatusFromText(s)) == Some(s)
  {
  }

  lemma StatusFromTextInverse(st: CampaignStatus)
    requires WellFormedStatus(st) && st != Unset
    ensures StatusFromText(StatusText(st).value) == st
  {
  }

  /**
   * The operator's Start/Stop button: an ACTIVE campaign is stopped and a
   * campaign in any other state (FINISHED and NULL included) is activated.
   */
  function ToggleStatus(st: CampaignStatus): (r: CampaignStatus)
    ensures r == Active || r == Stopped
    ensures r == Stopped <==> st == Active
  {
    if st == Active then Stopped else Active
  }

  lemma ToggleStatusInvolutive(st: CampaignStatus)
    requires st == Active || st == Stopped
    ensures ToggleStatus(ToggleStatus(st)) == st
  {
  }

  // ---------------------------------------------------------------------
  // Rows of the two tables
  // ---------------------------------------------------------------------

  datatype Campaign = Campaign(
    id: int,
    name: string,
    startDate: Option<string>,
    endDate: Option<string>,
    status: CampaignStatus,
    kind: CampaignType)

  function CampaignId(c: Campaign): int { c.id }

  /** The status of a campaign_leads row; the column's CHECK admits exactly these three. */
  datatype AssignmentStatus = Ready | Sent | Failed

  function AssignmentStatusText(s: AssignmentStatus): string {
    match s
    case Ready => "READY"
    case Sent => "SENT"
    case Failed => "FAILED"
  }

  /** The status a bound text names; None when the CHECK constraint rejects it. */
  function ParseAssignmentStatus(s: string): (r: Option<AssignmentStatus>)
    ensures r.Some? <==> s in {"READY", "SENT", "FAILED"}
    ensures r.Some? ==> AssignmentStatusText(r.value) == s
  {
    if s == "READY" then Some(Ready)
    else if s == "SENT" then Some(Sent)
    else if s == "FAILED" then Some(Failed)
    else None
  }

  lemma AssignmentStatusRoundTrip(s: AssignmentStatus)
    ensures ParseAssignmentStatus(AssignmentStatusText(s)) == Some(s)
  {
  }

  /** `extra_data`: NULL, or the serialised outcome of a delivery attempt (opaque here). */
  datatype ExtraData = NoExtra | DeliveryInfo(info: string) | DeliveryError(message: string)

  /** A campaign_leads row. */
  datatype Assignment = Assignment(
    campaignId: int,
    leadId: int,
    status: AssignmentStatus,
    createdAt: nat,
    updatedAt: nat,
    updatedBy: Option<string>,
    extra: ExtraData,
    tentativeSendDate: Option<nat>,
    followUpCallDate: Option<string>,
    remarks: Option<string>)

  /** The composite primary key of campaign_leads. */
  type Key = (int, int)

  function KeyOf(a: Assignment): Key { (a.campaignId, a.leadId) }

  /** The campaigns table invariant: AUTOINCREMENT ids, increasing in row order; statuses well formed. */
  ghost predicate CampaignsValid(campaigns: seq<Campaign>, lastId: nat) {
    && (forall i :: 0 <= i < |campaigns| ==> 0 < campaigns[i].id <= lastId)
    && (forall i :: 0 <= i < |campaigns| ==> WellFormedStatus(campaigns[i].status))
    && (forall i, j :: 0 <= i < j < |campaigns| ==> campaigns[i].id < campaigns[j].id)
  }

  /** The primary key of campaign_leads: no two rows share a (campaign, lead) pair. */
  ghost predicate KeysDistinct(assignments: seq<Assignment>) {
    forall i, j :: 0 <= i < j < |assignments| ==> KeyOf(assignments[i]) != KeyOf(assignments[j])
  }

  // ---------------------------------------------------------------------
  // getAllCampaigns
  // ---------------------------------------------------------------------

  /** The options of `getAllCampaigns` after its defaults are applied. */
  datatype CampaignQuery = CampaignQuery(
    search: string,
    kind: Option<string>,
    status: Option<string>,
    page: int,
    pageSize: int)

  const DefaultPage: int := 1
  const DefaultPageSize: int := 20

  /** `getAllCampaigns({ status })`: every other option at its default. */
  function StatusQuery(status: string): CampaignQuery {
    CampaignQuery("", None, Some(status), DefaultPage, DefaultPageSize)
  }

  /** The WHERE clause: the supplied filters combined with AND. */
  predicate CampaignMatches(q: CampaignQuery, c: Campaign) {
    && (q.search != "" ==> Contains(c.name, q.search))
    && (Truthy(q.kind) ==> CampaignTypeText(c.kind) == q.kind.value)
    && (Truthy(q.status) ==> StatusText(c.status) == q.status)
  }

  function MatchingCampaigns(campaigns: seq<Campaign>, q: CampaignQuery): (r: seq<Campaign>)
    ensures forall c :: c in r <==> c in campaigns && CampaignMatches(q, c)
    ensures |r| <= |campaigns|
  {
    if |campaigns| == 0 then []
    else if CampaignMatches(q, campaigns[0]) then [campaigns[0]] + MatchingCampaigns(campaigns[1..], q)
    else MatchingCampaigns(campaigns[1..], q)
  }

  lemma {:induction false} MatchingCampaignsDistinct(campaigns: seq<Campaign>, q: CampaignQuery)
    requires DistinctBy(campaigns, CampaignId)
    ensures DistinctBy(MatchingCampaigns(campaigns, q), CampaignId)
  {
    if |campaigns| > 0 {
      var tail := campaigns[1..];
      assert DistinctBy(tail, CampaignId) by {
        forall i, j | 0 <= i < j < |tail| ensures tail[i].id != tail[j].id {
          assert tail[i] == campaigns[i + 1] && tail[j] == campaigns[j + 1];
        }
      }
      MatchingCampaignsDistinct(tail, q);
      var rest := MatchingCampaigns(tail, q);
      forall k | 0 <= k < |rest| ensures rest[k].id != campaigns[0].id {
        assert rest[k] in tail;
        var j :| 0 <= j < |tail| && tail[j] == rest[k];
        assert campaigns[j + 1] == rest[k];
      }
    }
  }

  /** SQLite's order on a nullable text column: NULL before every text, texts by code point. */
  predicate StartsBefore(a: Option<string>, b: Option<string>) {
    b.Some? && (a.None? || LexLess(a.value, b.value))
  }

  lemma StartsBeforeIrreflexive(a: Option<string>)
    ensures !StartsBefore(a, a)
  {
    if a.Some? { LexIrreflexive(a.value); }
  }

  lemma StartsBeforeTransitive(a: Option<string>, b: Option<string>, c: Option<string>)
    requires StartsBefore(a, b) && StartsBefore(b, c)
    ensures StartsBefore(a, c)
  {
    if a.Some? { LexTransitive(a.value, b.value, c.value); }
  }

  lemma StartsBeforeTotal(a: Option<string>, b: Option<string>)
    requires a != b
    ensures StartsBefore(a, b) || StartsBefore(b, a)
  {
    if a.Some? && b.Some? { LexTotal(a.value, b.value); }
  }

  lemma StartsBeforeAsymmetric(a: Option<string>, b: Option<string>)
    requires StartsBefore(a, b)
    ensures !StartsBefore(b, a)
  {
    if a.Some? { LexAsymmetric(a.value, b.value); }
  }

  /** "Not before" is transitive: the descending order is a total preorder. */
  lemma NotBeforeTransitive(a: Option<string>, b: Option<string>, c: Option<string>)
    requires !StartsBefore(a, b) && !StartsBefore(b, c)
    ensures !StartsBefore(a, c)
  {
    if a == b {
    } else if b == c {
    } else {
      StartsBeforeTotal(a, b);
      StartsBeforeTotal(b, c);
      StartsBeforeTransitive(c, b, a);
      StartsBeforeAsymmetric(c, a);
    }
  }

  /** `ORDER BY start_date DESC`. */
  predicate NewestFirst(s: seq<Campaign>) {
    forall i, j :: 0 <= i < j < |s| ==> !StartsBefore(s[i].startDate, s[j].startDate)
  }

  function InsertByStart(c: Campaign, s: seq<Campaign>): (r: seq<Campaign>)
    requires NewestFirst(s)
    ensures NewestFirst(r)
    ensures multiset(r) == multiset(s) + multiset{c}
  {
    if |s| == 0 || !StartsBefore(c.startDate, s[0].startDate) then
      assert NewestFirst([c] + s) by {
        forall j | 0 < j < |[c] + s| ensures !StartsBefore(c.startDate, ([c] + s)[j].startDate) {
          if j > 1 { NotBeforeTransitive(c.startDate, s[0].startDate, s[j - 1].startDate); }
        }
      }
      [c] + s
    else
      var t := InsertByStart(c, s[1..]);
      InsertByStartStep(c, s, t);
      [s[0]] + t
  }

  lemma InsertByStartStep(c: Campaign, s: seq<Campaign>, t: seq<Campaign>)
    requires NewestFirst(s) && |s| > 0 && StartsBefore(c.startDate, s[0].startDate)
    requires NewestFirst(t) && multiset(t) == multiset(s[1..]) + multiset{c}
    ensures NewestFirst([s[0]] + t)
    ensures multiset([s[0]] + t) == multiset(s) + multiset{c}
  {
    forall k | 0 <= k < |t| ensures !StartsBefore(s[0].startDate, t[k].startDate) {
      assert t[k] in multiset(t);
      if t[k] == c {
        StartsBeforeAsymmetric(c.startDate, s[0].startDate);
      } else {
        assert t[k] in multiset(s[1..]);
        var j :| 0 <= j < |s[1..]| && s[1..][j] == t[k];
        assert s[j + 1] == t[k];
      }
    }
    assert s == [s[0]] + s[1..];
  }

  function SortByStart(s: seq<Campaign>): (r: seq<Campaign>)
    ensures NewestFirst(r)
    ensures multiset(r) == multiset(s)
    ensures |r| == |s|
  {
    if |s| == 0 then []
    else
      assert s == [s[0]] + s[1..];
      InsertByStart(s[0], SortByStart(s[1..]))
  }

  lemma {:induction false} InsertByStartDistinct(c: Campaign, s: seq<Campaign>)
    requires NewestFirst(s) && DistinctBy(s, CampaignId)
    requires forall y :: y in s ==> y.id != c.id
    ensures DistinctBy(InsertByStart(c, s), CampaignId)
  {
    if |s| > 0 && StartsBefore(c.startDate, s[0].startDate) {
      var tail := s[1..];
      DistinctByTail(s, CampaignId);
      var t := InsertByStart(c, tail);
      InsertByStartDistinct(c, tail);
      forall k | 0 <= k < |t| ensures CampaignId(s[0]) != CampaignId(t[k]) {
        assert t[k] in multiset(tail) + multiset{c} by { assert t[k] in multiset(t); }
        if t[k] != c {
          var j :| 0 <= j < |tail| && tail[j] == t[k];
          assert s[j + 1] == t[k];
        }
      }
      DistinctByCons(s[0], t, CampaignId);
    } else {
      forall k | 0 <= k < |s| ensures CampaignId(c) != CampaignId(s[k]) {
        assert s[k] in s;
      }
      DistinctByCons(c, s, CampaignId);
    }
  }

  lemma {:induction false} SortByStartDistinct(s: seq<Campaign>)
    requires DistinctBy(s, CampaignId)
    ensures DistinctBy(SortByStart(s), CampaignId)
  {
    if |s| > 0 {
      var tail := s[1..];
      DistinctByTail(s, CampaignId);
      var sorted := SortByStart(tail);
      SortByStartDistinct(tail);
      forall y | y in sorted ensures y.id != s[0].id {
        assert y in multiset(sorted);
        assert y in tail;
        var j :| 0 <= j < |tail| && tail[j] == y;
        assert s[j + 1] == y;
      }
      InsertByStartDistinct(s[0], sorted);
    }
  }

  datatype CampaignPage = CampaignPage(campaigns: seq<Campaign>, total: nat)

  /** `getAllCampaigns`: the matches ordered by start date, newest first, then LIMIT/OFFSET; `total` counts every match. */
  function AllCampaigns(campaigns: seq<Campaign>, q: CampaignQuery): CampaignPage {
    var matching := MatchingCampaigns(campaigns, q);
    CampaignPage(Window(SortByStart(matching), q.pageSize, PageOffset(q.page, q.pageSize)), |matching|)
  }

  lemma AllCampaignsSound(campaigns: seq<Campaign>, q: CampaignQuery)
    ensures var p := AllCampaigns(campaigns, q);
      && (forall c :: c in p.campaigns ==> c in campaigns && CampaignMatches(q, c))
      && NewestFirst(p.campaigns)
      && (q.pageSize >= 0 ==> |p.campaigns| <= q.pageSize)
      && p.total == |MatchingCampaigns(campaigns, q)|
  {
    var matching := MatchingCampaigns(campaigns, q);
    var sorted := SortByStart(matching);
    var p := AllCampaigns(campaigns, q);
    var lo := Clamp(PageOffset(q.page, q.pageSize), |sorted|);
    NewestFirstSlice(sorted, lo, lo + |p.campaigns|);
    forall c | c in p.campaigns ensures c in matching {
      assert c in multiset(p.campaigns);
      assert c in multiset(sorted);
    }
  }

  /** A contiguous part of a newest-first list is newest first. */
  lemma NewestFirstSlice(s: seq<Campaign>, lo: nat, hi: nat)
    requires NewestFirst(s) && lo <= hi <= |s|
    ensures NewestFirst(s[lo..hi])
  {
    var t := s[lo..hi];
    forall i, j | 0 <= i < j < |t| ensures !StartsBefore(t[i].startDate, t[j].startDate) {
      assert t[i] == s[lo + i] && t[j] == s[lo + j];
    }
  }

  /** On the first page, when every match fits, every match is listed. */
  lemma AllCampaignsFirstPageComplete(campaigns: seq<Campaign>, q: CampaignQuery)
    requires q.page == 1 && |MatchingCampaigns(campaigns, q)| <= q.pageSize
    ensures forall c :: c in campaigns && CampaignMatches(q, c) ==> c in AllCampaigns(campaigns, q).campaigns
  {
    var matching := MatchingCampaigns(campaigns, q);
    var sorted := SortByStart(matching);
    assert AllCampaigns(campaigns, q).campaigns == sorted;
    forall c | c in campaigns && CampaignMatches(q, c) ensures c in sorted {
      assert c in multiset(matching);
    }
  }

  /** In a valid table no two campaigns share an id. */
  lemma CampaignsDistinct(campaigns: seq<Campaign>, lastId: nat)
    requires CampaignsValid(campaigns, lastId)
    ensures DistinctBy(campaigns, CampaignId)
  {
    forall i, j | 0 <= i < j < |campaigns| ensures CampaignId(campaigns[i]) != CampaignId(campaigns[j]) {
      assert campaigns[i].id < campaigns[j].id;
    }
  }

  /** Listing the campaigns of a valid table yields distinct ids. */
  lemma AllCampaignsDistinct(campaigns: seq<Campaign>, lastId: nat, q: CampaignQuery)
    requires CampaignsValid(campaigns, lastId)
    ensures DistinctBy(AllCampaigns(campaigns, q).campaigns, CampaignId)
  {
    CampaignsDistinct(campaigns, lastId);
    var matching := MatchingCampaigns(campaigns, q);
    MatchingCampaignsDistinct(campaigns, q);
    var sorted := SortByStart(matching);
    SortByStartDistinct(matching);
    var lo := Clamp(PageOffset(q.page, q.pageSize), |sorted|);
    var p := AllCampaigns(campaigns, q).campaigns;
    DistinctBySlice(sorted, CampaignId, lo, lo + |p|);
  }

  // ---------------------------------------------------------------------
  // getLeadsForCampaign and getAllLeadsForCampaignExport
  // ---------------------------------------------------------------------

  /** Which assignment statuses a campaign-lead query admits. */
  datatype StatusSelection = AnyStatus | StatusIn(texts: seq<string>) | NotReady

  /** `statuses` restricts the query only when it is a non-empty list. */
  function SelectionOf(statuses: Option<seq<string>>): (sel: StatusSelection)
    ensures sel.StatusIn? <==> statuses.Some? && |statuses.value| > 0
    ensures sel.StatusIn? ==> sel.texts == statuses.value
    ensures !sel.NotReady?
  {
    if statuses.Some? && |statuses.value| > 0 then StatusIn(statuses.value) else AnyStatus
  }

  predicate Selects(sel: StatusSelection, st: AssignmentStatus) {
    match sel
    case AnyStatus => true
    case StatusIn(texts) => AssignmentStatusText(st) in texts
    case NotReady => st != Ready
  }

  /** A row of the join of `leads` with `campaign_leads`, as the campaign-lead query selects it. */
  datatype CampaignLeadRow = CampaignLeadRow(
    id: int,                  // the lead's id
    name: string,
    email: Option<string>,
    mobile: Option<string>,
    contactPerson: Option<string>,
    status: AssignmentStatus,
    extra: ExtraData,
    updatedAt: nat,
    campaignId: int,
    tentativeSendDate: Option<nat>,
    followUpCallDate: Option<string>,
    remarks: Option<string>)

  /** The lead with that id, if any. */
  function FindLead(leads: seq<Lead>, id: int): (r: Option<Lead>)
    ensures r.Some? <==> HasId(leads, id)
    ensures r.Some? ==> r.value in leads && r.value.id == id
  {
    if |leads| == 0 then None
    else HasIdCons(leads, id); if leads[0].id == id then Some(leads[0]) else FindLead(leads[1..], id)
  }

  /**
   * An assignment takes part in the join when it is the campaign's, its status
   * is admitted and its lead still exists (foreign keys are not enforced, so a
   * deleted lead leaves its assignments behind, invisible to every query).
   */
  predicate Visible(leads: seq<Lead>, a: Assignment, cid: int, sel: StatusSelection) {
    a.campaignId == cid && Selects(sel, a.status) && HasId(leads, a.leadId)
  }

  function RowOf(leads: seq<Lead>, a: Assignment): (r: CampaignLeadRow)
    requires HasId(leads, a.leadId)
    ensures r.id == a.leadId && r.campaignId == a.campaignId && r.status == a.status
    ensures r.updatedAt == a.updatedAt && r.tentativeSendDate == a.tentativeSendDate
  {
    var l := FindLead(leads, a.leadId).value;
    CampaignLeadRow(l.id, l.name, l.email, l.mobile, l.contactPerson, a.status, a.extra,
                    a.updatedAt, a.campaignId, a.tentativeSendDate, a.followUpCallDate, a.remarks)
  }

  /** The joined rows of a campaign whose status is admitted, in table order. */
  function CampaignRows(leads: seq<Lead>, assignments: seq<Assignment>, cid: int, sel: StatusSelection): (r: seq<CampaignLeadRow>)
    ensures |r| <= |assignments|
    ensures forall x :: x in r ==> x.campaignId == cid && Selects(sel, x.status)
  {
    if |assignments| == 0 then []
    else
      var init := CampaignRows(leads, assignments[..|assignments| - 1], cid, sel);
      var a := assignments[|assignments| - 1];
      if Visible(leads, a, cid, sel) then init + [RowOf(leads, a)] else init
  }

  /** The positions of the assignments the join shows. */
  ghost function VisibleIndices(leads: seq<Lead>, assignments: seq<Assignment>, cid: int, sel: StatusSelection): set<int> {
    set j | 0 <= j < |assignments| && Visible(leads, assignments[j], cid, sel)
  }

  /** The last assignment adds its own position, when visible, to those of the others. */
  lemma VisibleIndicesSnoc(leads: seq<Lead>, assignments: seq<Assignment>, cid: int, sel: StatusSelection)
    requires |assignments| > 0
    ensures var n := |assignments| - 1;
      |VisibleIndices(leads, assignments, cid, sel)| ==
      |VisibleIndices(leads, assignments[..n], cid, sel)| + (if Visible(leads, assignments[n], cid, sel) then 1 else 0)
  {
    var n := |assignments| - 1;
    var init := assignments[..n];
    var all, front := VisibleIndices(leads, assignments, cid, sel), VisibleIndices(leads, init, cid, sel);
    var last := if Visible(leads, assignments[n], cid, sel) then {n} else {};
    forall j | j in all ensures j in front + last {
      if j < n { assert init[j] == assignments[j]; }
    }
    forall j | j in front ensures j in all {
      assert init[j] == assignments[j];
    }
    assert all == front + last;
    assert n !in front;
  }

  /** One joined row per visible assignment: the COUNT(*) of the query. */
  lemma {:induction false} CampaignRowsCount(leads: seq<Lead>, assignments: seq<Assignment>, cid: int, sel: StatusSelection)
    ensures |CampaignRows(leads, assignments, cid, sel)| == |VisibleIndices(leads, assignments, cid, sel)|
  {
    if |assignments| > 0 {
      var n := |assignments| - 1;
      var init := assignments[..n];
      CampaignRowsCount(leads, init, cid, sel);
      VisibleIndicesSnoc(leads, assignments, cid, sel);
    }
  }

  /** Every joined row comes from a visible assignment. */
  lemma {:induction false} CampaignRowsSource(leads: seq<Lead>, assignments: seq<Assignment>, cid: int, sel: StatusSelection, x: CampaignLeadRow)
      returns (j: nat)
    requires x in CampaignRows(leads, assignments, cid, sel)
    ensures j < |assignments| && Visible(leads, assignments[j], cid, sel)
    ensures x == RowOf(leads, assignments[j])
  {
    var n := |assignments| - 1;
    var init := assignments[..n];
    if x in CampaignRows(leads, init, cid, sel) {
      j := CampaignRowsSource(leads, init, cid, sel, x);
      assert init[j] == assignments[j];
    } else {
      j := n;
    }
  }

  /** Every visible assignment appears in the join. */
  lemma {:induction false} CampaignRowsComplete(leads: seq<Lead>, assignments: seq<Assignment>, cid: int, sel: StatusSelection, j: nat)
    requires j < |assignments| && Visible(leads, assignments[j], cid, sel)
    ensures RowOf(leads, assignments[j]) in CampaignRows(leads, assignments, cid, sel)
  {
    var n := |assignments| - 1;
    var init := assignments[..n];
    if j < n {
      assert init[j] == assignments[j];
      CampaignRowsComplete(leads, init, cid, sel, j);
    }
  }

  lemma CampaignRowsEmptyIff(leads: seq<Lead>, assignments: seq<Assignment>, cid: int, sel: StatusSelection)
    ensures CampaignRows(leads, assignments, cid, sel) == [] <==>
            forall j :: 0 <= j < |assignments| ==> !Visible(leads, assignments[j], cid, sel)
  {
    var r := CampaignRows(leads, assignments, cid, sel);
    if r != [] {
      var j := CampaignRowsSource(leads, assignments, cid, sel, r[0]);
    }
    forall j | 0 <= j < |assignments| && Visible(leads, assignments[j], cid, sel) ensures r != [] {
      CampaignRowsComplete(leads, assignments, cid, sel, j);
    }
  }

  /** The join for one campaign reads only that campaign's rows. */
  lemma {:induction false} CampaignRowsFrame(leads: seq<Lead>, a: seq<Assignment>, b: seq<Assignment>, cid: int, sel: StatusSelection)
    requires |a| == |b|
    requires forall j :: 0 <= j < |a| ==> a[j].campaignId == b[j].campaignId
    requires forall j :: 0 <= j < |a| && a[j].campaignId == cid ==> a[j] == b[j]
    ensures CampaignRows(leads, a, cid, sel) == CampaignRows(leads, b, cid, sel)
  {
    if |a| > 0 {
      CampaignRowsFrame(leads, a[..|a| - 1], b[..|b| - 1], cid, sel);
    }
  }

  /** The options of `getLeadsForCampaign` after its defaults are applied. */
  datatype CampaignLeadsQuery = CampaignLeadsQuery(statuses: Option<seq<string>>, page: int, pageSize: int)

  datatype CampaignLeadPage = CampaignLeadPage(leads: seq<CampaignLeadRow>, total: nat)

  function RowUpdatedAt(r: CampaignLeadRow): int { r.updatedAt }

  /** `getLeadsForCampaign`: the campaign's admitted rows, latest update first, then LIMIT/OFFSET. */
  function LeadsForCampaign(leads: seq<Lead>, assignments: seq<Assignment>, cid: int, q: CampaignLeadsQuery): CampaignLeadPage {
    var matching := CampaignRows(leads, assignments, cid, SelectionOf(q.statuses));
    CampaignLeadPage(Window(SortDesc(matching, RowUpdatedAt), q.pageSize, PageOffset(q.page, q.pageSize)), |matching|)
  }

  lemma LeadsForCampaignSound(leads: seq<Lead>, assignments: seq<Assignment>, cid: int, q: CampaignLeadsQuery)
    ensures var sel := SelectionOf(q.statuses);
            var p := LeadsForCampaign(leads, assignments, cid, q);
      && (forall x :: x in p.leads ==> x in CampaignRows(leads, assignments, cid, sel))
      && (forall x :: x in p.leads ==> x.campaignId == cid && Selects(sel, x.status))
      && SortedDesc(p.leads, RowUpdatedAt)
      && (q.pageSize >= 0 ==> |p.leads| <= q.pageSize)
      && p.total == |VisibleIndices(leads, assignments, cid, sel)|
  {
    var sel := SelectionOf(q.statuses);
    var matching := CampaignRows(leads, assignments, cid, sel);
    PageRowsFromMatching(matching, q);
    CampaignRowsCount(leads, assignments, cid, sel);
  }

  /** A window of the sorted rows stays sorted and holds only rows it was cut from. */
  lemma PageRowsFromMatching(matching: seq<CampaignLeadRow>, q: CampaignLeadsQuery)
    ensures var p := Window(SortDesc(matching, RowUpdatedAt), q.pageSize, PageOffset(q.page, q.pageSize));
      && (forall x :: x in p ==> x in matching)
      && SortedDesc(p, RowUpdatedAt)
  {
    var ordered := SortDesc(matching, RowUpdatedAt);
    var p := Window(ordered, q.pageSize, PageOffset(q.page, q.pageSize));
    var lo := Clamp(PageOffset(q.page, q.pageSize), |ordered|);
    SortedDescSlice(ordered, RowUpdatedAt, lo, lo + |p|);
    forall x | x in p ensures x in matching {
      assert x in multiset(p);
      assert x in multiset(ordered);
    }
  }

  /** The page is the run of the ordered rows that starts after (page - 1) * pageSize of them. */
  lemma LeadsForCampaignWindow(leads: seq<Lead>, assignments: seq<Assignment>, cid: int, q: CampaignLeadsQuery)
    ensures var ordered := SortDesc(CampaignRows(leads, assignments, cid, SelectionOf(q.statuses)), RowUpdatedAt);
            var lo := Clamp(PageOffset(q.page, q.pageSize), |ordered|);
            var p := LeadsForCampaign(leads, assignments, cid, q).leads;
      && p == ordered[lo..lo + |p|]
      && (0 <= q.pageSize < |ordered| - lo ==> |p| == q.pageSize)
      && (q.pageSize < 0 || q.pageSize >= |ordered| - lo ==> lo + |p| == |ordered|)
  {
  }

  /** One exported line; `emailSentDate` is the assignment's last update. */
  datatype ExportRow = ExportRow(
    campaignId: int,
    leadId: int,
    companyName: string,
    email: Option<string>,
    mobile: Option<string>,
    contactPerson: Option<string>,
    status: AssignmentStatus,
    emailSentDate: nat,
    followUpCallDate: Option<string>,
    remarks: Option<string>)

  function ExportOf(r: CampaignLeadRow): ExportRow {
    ExportRow(r.campaignId, r.id, r.name, r.email, r.mobile, r.contactPerson, r.status, r.updatedAt, r.followUpCallDate, r.remarks)
  }

  /** `getAllLeadsForCampaignExport`: every row of the campaign that left READY, latest update first, unpaged. */
  function AllLeadsForCampaignExport(leads: seq<Lead>, assignments: seq<Assignment>, cid: int): seq<ExportRow> {
    var ordered := SortDesc(CampaignRows(leads, assignments, cid, NotReady), RowUpdatedAt);
    seq(|ordered|, i requires 0 <= i < |ordered| => ExportOf(ordered[i]))
  }

  lemma ExportSound(leads: seq<Lead>, assignments: seq<Assignment>, cid: int)
    ensures var rows := AllLeadsForCampaignExport(leads, assignments, cid);
      && (forall i :: 0 <= i < |rows| ==> rows[i].campaignId == cid && rows[i].status != Ready)
      && (forall i, j :: 0 <= i < j < |rows| ==> rows[i].emailSentDate >= rows[j].emailSentDate)
      && |rows| == |VisibleIndices(leads, assignments, cid, NotReady)|
  {
    var matching := CampaignRows(leads, assignments, cid, NotReady);
    var ordered := SortDesc(matching, RowUpdatedAt);
    forall i | 0 <= i < |ordered| ensures ordered[i].campaignId == cid && ordered[i].status != Ready {
      assert ordered[i] in multiset(ordered);
      assert ordered[i] in matching;
    }
    CampaignRowsCount(leads, assignments, cid, NotReady);
  }

  /** Every assignment of the campaign that left READY and whose lead exists is exported. */
  lemma ExportComplete(leads: seq<Lead>, assignments: seq<Assignment>, cid: int, j: nat)
    requires j < |assignments| && assignments[j].campaignId == cid && assignments[j].status != Ready
    requires HasId(leads, assignments[j].leadId)
    ensures ExportOf(RowOf(leads, assignments[j])) in AllLeadsForCampaignExport(leads, assignments, cid)
  {
    var matching := CampaignRows(leads, assignments, cid, NotReady);
    var ordered := SortDesc(matching, RowUpdatedAt);
    var x := RowOf(leads, assignments[j]);
    CampaignRowsComplete(leads, assignments, cid, NotReady, j);
    assert x in multiset(matching);
    assert x in multiset(ordered);
    var i :| 0 <= i < |ordered| && ordered[i] == x;
    assert AllLeadsForCampaignExport(leads, assignments, cid)[i] == ExportOf(x);
  }

  // ---------------------------------------------------------------------
  // addLeadsToCampaign (the definition at line 236, which is the one in force)
  // ---------------------------------------------------------------------

  /** Consecutive leads of one call are given tentative dates one minute apart. */
  const InsertSpacingMs: nat := 60000

  /** A time as the second-resolution text the store keeps reads back. */
  function TruncateToSecond(t: nat): (r: nat)
    ensures r <= t < r + 1000 && r % 1000 == 0
  {
    t / 1000 * 1000
  }

  /** The row inserted for the lead at position `idx` of the call's list. */
  function NewAssignment(cid: int, leadId: int, idx: nat, now: nat): Assignment {
    var stamp := TruncateToSecond(now);
    Assignment(cid, leadId, Ready, stamp, stamp, None, NoExtra,
               Some(TruncateToSecond(now + idx * InsertSpacingMs)), None, None)
  }

  predicate HasKey(assignments: seq<Assignment>, k: Key) {
    exists i :: 0 <= i < |assignments| && KeyOf(assignments[i]) == k
  }

  /** One INSERT: a pair already present violates the primary key and the error is swallowed. */
  function InsertOne(assignments: seq<Assignment>, cid: int, leadId: int, idx: nat, now: nat): seq<Assignment> {
    if HasKey(assignments, (cid, leadId)) then assignments
    else assignments + [NewAssignment(cid, leadId, idx, now)]
  }

  /** The table after inserting every lead of the list in order. */
  function InsertAll(assignments: seq<Assignment>, cid: int, leadIds: seq<int>, now: nat): seq<Assignment>
    decreases |leadIds|
  {
    if |leadIds| == 0 then assignments
    else
      var n := |leadIds| - 1;
      InsertOne(InsertAll(assignments, cid, leadIds[..n], now), cid, leadIds[n], n, now)
  }

  /** Where a value first occurs in a list. */
  function FirstIndex(s: seq<int>, x: int): (r: nat)
    requires x in s
    ensures r < |s| && s[r] == x
    ensures forall t :: 0 <= t < r ==> s[t] != x
  {
    if s[0] == x then 0 else 1 + FirstIndex(s[1..], x)
  }

  lemma {:induction false} FirstIndexUnique(s: seq<int>, x: int, r: nat)
    requires r < |s| && s[r] == x
    requires forall t :: 0 <= t < r ==> s[t] != x
    ensures FirstIndex(s, x) == r
  {
    if r > 0 {
      FirstIndexUnique(s[1..], x, r - 1);
    }
  }

  /** Inserting never disturbs the rows already there. */
  lemma {:induction false} InsertAllExtends(assignments: seq<Assignment>, cid: int, leadIds: seq<int>, now: nat)
    ensures var after := InsertAll(assignments, cid, leadIds, now);
            |assignments| <= |after| && after[..|assignments|] == assignments
  {
    if |leadIds| > 0 {
      var n := |leadIds| - 1;
      InsertAllExtends(assignments, cid, leadIds[..n], now);
      var before := InsertAll(assignments, cid, leadIds[..n], now);
      var after := InsertOne(before, cid, leadIds[n], n, now);
      assert after[..|before|] == before;
      assert after[..|assignments|] == before[..|assignments|];
    }
  }

  lemma InsertOneKeys(assignments: seq<Assignment>, cid: int, leadId: int, idx: nat, now: nat, k: Key)
    ensures HasKey(InsertOne(assignments, cid, leadId, idx, now), k) <==> HasKey(assignments, k) || k == (cid, leadId)
  {
    var after := InsertOne(assignments, cid, leadId, idx, now);
    if !HasKey(assignments, (cid, leadId)) {
      if HasKey(after, k) {
        var i :| 0 <= i < |after| && KeyOf(after[i]) == k;
        if i < |assignments| { assert KeyOf(assignments[i]) == k; }
      }
      if HasKey(assignments, k) {
        var i :| 0 <= i < |assignments| && KeyOf(assignments[i]) == k;
        assert KeyOf(after[i]) == k;
      }
      assert KeyOf(after[|assignments|]) == (cid, leadId);
    }
  }

  /** After the call, a pair is present iff it was before or the lead is in the list. */
  lemma {:induction false} InsertAllKeys(assignments: seq<Assignment>, cid: int, leadIds: seq<int>, now: nat, k: Key)
    ensures HasKey(InsertAll(assignments, cid, leadIds, now), k) <==>
            HasKey(assignments, k) || (k.0 == cid && k.1 in leadIds)
  {
    if |leadIds| > 0 {
      var n := |leadIds| - 1;
      InsertAllKeys(assignments, cid, leadIds[..n], now, k);
      InsertOneKeys(InsertAll(assignments, cid, leadIds[..n], now), cid, leadIds[n], n, now, k);
      assert leadIds == leadIds[..n] + [leadIds[n]];
    }
  }

  /** The primary key still holds after the call. */
  lemma {:induction false} InsertAllDistinct(assignments: seq<Assignment>, cid: int, leadIds: seq<int>, now: nat)
    requires KeysDistinct(assignments)
    ensures KeysDistinct(InsertAll(assignments, cid, leadIds, now))
  {
    if |leadIds| > 0 {
      var n := |leadIds| - 1;
      InsertAllDistinct(assignments, cid, leadIds[..n], now);
      var before := InsertAll(assignments, cid, leadIds[..n], now);
      if !HasKey(before, (cid, leadIds[n])) {
        var after := before + [NewAssignment(cid, leadIds[n], n, now)];
        forall i, j | 0 <= i < j < |after| ensures KeyOf(after[i]) != KeyOf(after[j]) {
          if j == |before| {
            assert KeyOf(before[i]) != (cid, leadIds[n]);
          } else {
            assert after[i] == before[i] && after[j] == before[j];
          }
        }
      }
    }
  }

  /**
   * Each row the call adds is a fresh READY pair for a lead of the list, whose
   * tentative date is `now` plus one minute per position of the lead's first
   * occurrence in the list.
   */
  lemma {:induction false} InsertAllNewRows(assignments: seq<Assignment>, cid: int, leadIds: seq<int>, now: nat)
    ensures var after := InsertAll(assignments, cid, leadIds, now);
      forall j :: |assignments| <= j < |after| ==>
        && after[j].leadId in leadIds
        && after[j] == NewAssignment(cid, after[j].leadId, FirstIndex(leadIds, after[j].leadId), now)
        && !HasKey(assignments, KeyOf(after[j]))
  {
    if |leadIds| > 0 {
      var n := |leadIds| - 1;
      var init := leadIds[..n];
      InsertAllNewRows(assignments, cid, init, now);
      InsertAllExtends(assignments, cid, init, now);
      var before := InsertAll(assignments, cid, init, now);
      var after := InsertAll(assignments, cid, leadIds, now);
      forall j | |assignments| <= j < |after|
        ensures after[j].leadId in leadIds
        ensures after[j] == NewAssignment(cid, after[j].leadId, FirstIndex(leadIds, after[j].leadId), now)
        ensures !HasKey(assignments, KeyOf(after[j]))
      {
        if j < |before| {
          var y := before[j].leadId;
          assert after[j] == before[j];
          var r := FirstIndex(init, y);
          FirstIndexUnique(leadIds, y, r);
        } else {
          var x := leadIds[n];
          assert after[j] == NewAssignment(cid, x, n, now);
          InsertAllKeys(assignments, cid, init, now, (cid, x));
          FirstIndexUnique(leadIds, x, n);
        }
      }
    }
  }

  /** The leads of the list whose pair is not yet present. */
  ghost function NewLeadIds(assignments: seq<Assignment>, cid: int, leadIds: seq<int>): set<int> {
    set x | x in leadIds && !HasKey(assignments, (cid, x))
  }

  /** The call adds exactly one row per distinct lead of the list that was not yet assigned. */
  lemma {:induction false} InsertAllCount(assignments: seq<Assignment>, cid: int, leadIds: seq<int>, now: nat)
    ensures |InsertAll(assignments, cid, leadIds, now)| == |assignments| + |NewLeadIds(assignments, cid, leadIds)|
  {
    if |leadIds| > 0 {
      var n := |leadIds| - 1;
      var init := leadIds[..n];
      var x := leadIds[n];
      InsertAllCount(assignments, cid, init, now);
      InsertAllKeys(assignments, cid, init, now, (cid, x));
      var front, all := NewLeadIds(assignments, cid, init), NewLeadIds(assignments, cid, leadIds);
      assert leadIds == init + [x];
      if HasKey(assignments, (cid, x)) || x in init {
        assert all == front;
      } else {
        assert all == front + {x};
      }
    }
  }

  lemma {:induction false} InsertAllNoop(assignments: seq<Assignment>, cid: int, leadIds: seq<int>, now: nat)
    requires forall x :: x in leadIds ==> HasKey(assignments, (cid, x))
    ensures InsertAll(assignments, cid, leadIds, now) == assignments
  {
    if |leadIds| > 0 {
      var n := |leadIds| - 1;
      assert forall x :: x in leadIds[..n] ==> x in leadIds;
      InsertAllNoop(assignments, cid, leadIds[..n], now);
    }
  }

  /** Repeating a call, at any later time, adds nothing. */
  lemma InsertAllIdempotent(assignments: seq<Assignment>, cid: int, leadIds: seq<int>, now: nat, later: nat)
    ensures var once := InsertAll(assignments, cid, leadIds, now);
            InsertAll(once, cid, leadIds, later) == once
  {
    var once := InsertAll(assignments, cid, leadIds, now);
    forall x | x in leadIds ensures HasKey(once, (cid, x)) {
      InsertAllKeys(assignments, cid, leadIds, now, (cid, x));
    }
    InsertAllNoop(once, cid, leadIds, later);
  }

  // ---------------------------------------------------------------------
  // updateCampaignLeadStatus and updateCampaignStatus
  // ---------------------------------------------------------------------

  /** `UPDATE campaign_leads SET status, extra_data, updated_at WHERE campaign_id AND lead_id`. */
  function SetLeadStatus(assignments: seq<Assignment>, k: Key, st: AssignmentStatus, extra: ExtraData, at: nat): (r: seq<Assignment>)
    ensures |r| == |assignments|
  {
    seq(|assignments|, i requires 0 <= i < |assignments| =>
      if KeyOf(assignments[i]) == k then assignments[i].(status := st, extra := extra, updatedAt := at)
      else assignments[i])
  }

  /** Exactly the row with the key is rewritten, with the given values whatever it held; every row keeps its key. */
  lemma SetLeadStatusEffect(assignments: seq<Assignment>, k: Key, st: AssignmentStatus, extra: ExtraData, at: nat)
    ensures var r := SetLeadStatus(assignments, k, st, extra, at);
      forall i :: 0 <= i < |r| ==>
        && KeyOf(r[i]) == KeyOf(assignments[i])
        && (KeyOf(assignments[i]) == k ==> r[i].status == st && r[i].extra == extra && r[i].updatedAt == at)
        && (KeyOf(assignments[i]) != k ==> r[i] == assignments[i])
    ensures !HasKey(assignments, k) ==> SetLeadStatus(assignments, k, st, extra, at) == assignments
    ensures KeysDistinct(assignments) ==> KeysDistinct(SetLeadStatus(assignments, k, st, extra, at))
  {
  }

  /** The rows the WHERE clause matches. */
  ghost function KeyIndices(assignments: seq<Assignment>, k: Key): set<int> {
    set i | 0 <= i < |assignments| && KeyOf(assignments[i]) == k
  }

  /** Under the primary key an update matches one row when the pair exists and none otherwise. */
  lemma KeyIndicesCount(assignments: seq<Assignment>, k: Key)
    requires KeysDistinct(assignments)
    ensures |KeyIndices(assignments, k)| == if HasKey(assignments, k) then 1 else 0
  {
    var s := KeyIndices(assignments, k);
    if HasKey(assignments, k) {
      var i :| 0 <= i < |assignments| && KeyOf(assignments[i]) == k;
      assert s == {i};
    } else {
      assert s == {};
    }
  }

  predicate HasCampaign(campaigns: seq<Campaign>, id: int) {
    exists i :: 0 <= i < |campaigns| && campaigns[i].id == id
  }

  /** `UPDATE campaigns SET status = ? WHERE id = ?`. */
  function SetCampaignStatus(campaigns: seq<Campaign>, id: int, st: CampaignStatus): (r: seq<Campaign>)
    ensures |r| == |campaigns|
  {
    seq(|campaigns|, i requires 0 <= i < |campaigns| =>
      if campaigns[i].id == id then campaigns[i].(status := st) else campaigns[i])
  }

  lemma SetCampaignStatusEffect(campaigns: seq<Campaign>, lastId: nat, id: int, st: CampaignStatus)
    ensures var r := SetCampaignStatus(campaigns, id, st);
      forall i :: 0 <= i < |r| ==>
        && r[i].id == campaigns[i].id
        && (campaigns[i].id == id ==> r[i] == campaigns[i].(status := st))
        && (campaigns[i].id != id ==> r[i] == campaigns[i])
    ensures CampaignsValid(campaigns, lastId) && WellFormedStatus(st) ==>
            CampaignsValid(SetCampaignStatus(campaigns, id, st), lastId)
  {
  }

  ghost function IdIndices(campaigns: seq<Campaign>, id: int): set<int> {
    set i | 0 <= i < |campaigns| && campaigns[i].id == id
  }

  lemma IdIndicesCount(campaigns: seq<Campaign>, lastId: nat, id: int)
    requires CampaignsValid(campaigns, lastId)
    ensures |IdIndices(campaigns, id)| == if HasCampaign(campaigns, id) then 1 else 0
  {
    var s := IdIndices(campaigns, id);
    if HasCampaign(campaigns, id) {
      var i :| 0 <= i < |campaigns| && campaigns[i].id == id;
      assert s == {i};
    } else {
      assert s == {};
    }
  }

  // ---------------------------------------------------------------------
  // addCampaign
  // ---------------------------------------------------------------------

  /** The campaign object a caller passes to `addCampaign`; absent fields bind NULL. */
  datatype CampaignInput = CampaignInput(
    name: Option<string>,
    startDate: Option<string>,
    endDate: Option<string>,
    status: Option<string>,
    kind: Option<string>)

  /** The lead filter of `addCampaign`: a manual selection, or `getAllLeads` criteria. */
  datatype LeadSelection = LeadSelection(criteria: LeadFilter, selectedLeadIds: Option<seq<int>>)

  predicate ManualSelection(selection: LeadSelection) {
    selection.selectedLeadIds.Some? && |selection.selectedLeadIds.value| > 0
  }

  function LeadIdsOf(rows: seq<Lead>): seq<int> {
    seq(|rows|, i requires 0 <= i < |rows| => rows[i].id)
  }

  /** The leads `addCampaign` attaches: the manual selection, else every match of the criteria without paging. */
  function SelectLeadIds(leads: seq<Lead>, selection: LeadSelection): seq<int> {
    if ManualSelection(selection) then selection.selectedLeadIds.value
    else LeadIdsOf(AllLeads(leads, Unpaged(selection.criteria)).leads)
  }

  lemma SelectLeadIdsSpec(leads: seq<Lead>, selection: LeadSelection)
    ensures var ids := SelectLeadIds(leads, selection);
      && (ManualSelection(selection) ==> ids == selection.selectedLeadIds.value)
      && (!ManualSelection(selection) ==>
            && |ids| == |MatchingLeads(leads, selection.criteria)|
            && forall id :: id in ids <==>
                 exists i :: 0 <= i < |leads| && leads[i].id == id && Matches(selection.criteria, leads[i]))
  {
    if !ManualSelection(selection) {
      var f := selection.criteria;
      MatchingLeadsIgnoresPaging(leads, f);
      var matching := MatchingLeads(leads, f);
      var ordered := SortDesc(matching, UpdatedAt);
      SortDescMembers(matching, UpdatedAt);
      assert AllLeads(leads, Unpaged(f)).leads == ordered;
      var ids := LeadIdsOf(ordered);
      forall id | id in ids ensures exists i :: 0 <= i < |leads| && leads[i].id == id && Matches(f, leads[i]) {
        var k := LeadIdsOfSource(ordered, id);
        assert ordered[k] in matching;
        var i :| 0 <= i < |leads| && leads[i] == ordered[k];
      }
      forall i | 0 <= i < |leads| && Matches(f, leads[i]) ensures leads[i].id in ids {
        assert leads[i] in ordered;
        var k :| 0 <= k < |ordered| && ordered[k] == leads[i];
        assert ids[k] == leads[i].id;
      }
    }
  }

  lemma LeadIdsOfSource(rows: seq<Lead>, id: int) returns (k: nat)
    requires id in LeadIdsOf(rows)
    ensures k < |rows| && rows[k].id == id
  {
    var ids := LeadIdsOf(rows);
    var j :| 0 <= j < |ids| && ids[j] == id;
    k := j;
  }

  function NewCampaign(id: int, input: CampaignInput, kind: CampaignType): Campaign
    requires input.name.Some?
  {
    Campaign(id, input.name.value, input.startDate, input.endDate,
             if input.status.Some? then StatusFromText(input.status.value) else Unset, kind)
  }

  // ---------------------------------------------------------------------
  // The store
  // ---------------------------------------------------------------------

  /** Both tables, updated in place by the operations of `campaigns.js`. */
  class CampaignStore {
    var campaigns: seq<Campaign>
    var assignments: seq<Assignment>
    var lastId: nat

    ghost predicate Valid()
      reads this
    {
      CampaignsValid(campaigns, lastId) && KeysDistinct(assignments)
    }

    constructor ()
      ensures Valid() && campaigns == [] && assignments == [] && lastId == 0
    {
      campaigns := [];
      assignments := [];
      lastId := 0;
    }

    /**
     * `addLeadsToCampaign`: inserts a READY row for each listed lead not yet
     * in the campaign, tentative dates one minute apart from `now`; an empty
     * list inserts nothing. Returns the campaign id.
     */
    method AddLeadsToCampaign(campaignId: int, leadIds: seq<int>, now: nat) returns (r: int)
      requires Valid()
      modifies this
      ensures Valid()
      ensures r == campaignId
      ensures campaigns == old(campaigns) && lastId == old(lastId)
      ensures assignments == InsertAll(old(assignments), campaignId, leadIds, now)
    {
      if |leadIds| == 0 {
        return campaignId;
      }
      var idx := 0;
      while idx < |leadIds|
        invariant 0 <= idx <= |leadIds|
        invariant assignments == InsertAll(old(assignments), campaignId, leadIds[..idx], now)
        invariant KeysDistinct(assignments)
        invariant campaigns == old(campaigns) && lastId == old(lastId)
      {
        InsertAllDistinct(old(assignments), campaignId, leadIds[..idx + 1], now);
        assert leadIds[..idx + 1][..idx] == leadIds[..idx];
        var leadId := leadIds[idx];
        if !HasKey(assignments, (campaignId, leadId)) {
          assignments := assignments + [NewAssignment(campaignId, leadId, idx, now)];
        }
        idx := idx + 1;
      }
      assert leadIds[..idx] == leadIds;
      r := campaignId;
    }

    /**
     * `addCampaign`: inserts the campaign (a missing name or a type outside
     * the CHECK is a constraint error and nothing is written), then attaches
     * the selected leads. Returns the new campaign's id.
     */
    method AddCampaign(leads: LeadTable, input: CampaignInput, selection: LeadSelection, now: nat)
        returns (r: Result<int, StoreError>)
      requires Valid()
      modifies this
      ensures Valid()
      ensures input.name.None? || ParseCampaignType(input.kind).None? ==>
                r == Err(ConstraintViolation) && campaigns == old(campaigns) &&
                assignments == old(assignments) && lastId == old(lastId)
      ensures input.name.Some? && ParseCampaignType(input.kind).Some? ==>
                && r == Ok(old(lastId) + 1)
                && lastId == old(lastId) + 1
                && campaigns == old(campaigns) + [NewCampaign(lastId, input, ParseCampaignType(input.kind).value)]
                && assignments == InsertAll(old(assignments), lastId, SelectLeadIds(leads.rows, selection), now)
    {
      var kind := ParseCampaignType(input.kind);
      if input.name.None? || kind.None? {
        return Err(ConstraintViolation);
      }
      lastId := lastId + 1;
      campaigns := campaigns + [NewCampaign(lastId, input, kind.value)];
      StatusTextRoundTrip(input.status.GetOr(""));
      var ids := SelectLeadIds(leads.rows, selection);
      var id := AddLeadsToCampaign(lastId, ids, now);
      r := Ok(id);
    }

    /**
     * `updateCampaignLeadStatus`: rewrites status, extra data and update time
     * of the row keyed by the pair, whatever its status was. Reports how many
     * rows matched; a status outside the CHECK fails only when a row matches.
     */
    method UpdateCampaignLeadStatus(campaignId: int, leadId: int, status: string, extra: ExtraData, now: nat)
        returns (r: Result<nat, StoreError>)
      requires Valid()
      modifies this
      ensures Valid()
      ensures campaigns == old(campaigns) && lastId == old(lastId)
      ensures var k := (campaignId, leadId);
        && (!HasKey(old(assignments), k) ==> r == Ok(0) && assignments == old(assignments))
        && (HasKey(old(assignments), k) && ParseAssignmentStatus(status).None? ==>
              r == Err(ConstraintViolation) && assignments == old(assignments))
        && (HasKey(old(assignments), k) && ParseAssignmentStatus(status).Some? ==>
              && r == Ok(|KeyIndices(old(assignments), k)|)
              && r == Ok(1)
              && assignments == SetLeadStatus(old(assignments), k, ParseAssignmentStatus(status).value, extra, TruncateToSecond(now)))
    {
      var k := (campaignId, leadId);
      if !HasKey(assignments, k) {
        return Ok(0);
      }
      var st := ParseAssignmentStatus(status);
      if st.None? {
        return Err(ConstraintViolation);
      }
      KeyIndicesCount(assignments, k);
      SetLeadStatusEffect(assignments, k, st.value, extra, TruncateToSecond(now));
      assignments := SetLeadStatus(assignments, k, st.value, extra, TruncateToSecond(now));
      r := Ok(1);
    }

    /**
     * `updateCampaignStatus`: stores any text as the campaign's status, with
     * no check, and reports how many rows matched (1 if the campaign exists).
     */
    method UpdateCampaignStatus(campaignId: int, status: string) returns (updated: nat)
      requires Valid()
      modifies this
      ensures Valid()
      ensures assignments == old(assignments) && lastId == old(lastId)
      ensures campaigns == SetCampaignStatus(old(campaigns), campaignId, StatusFromText(status))
      ensures updated == |IdIndices(old(campaigns), campaignId)|
      ensures updated == if HasCampaign(old(campaigns), campaignId) then 1 else 0
    {
      IdIndicesCount(campaigns, lastId, campaignId);
      StatusTextRoundTrip(status);
      SetCampaignStatusEffect(campaigns, lastId, campaignId, StatusFromText(status));
      updated := if HasCampaign(campaigns, campaignId) then 1 else 0;
      campaigns := SetCampaignStatus(campaigns, campaignId, StatusFromText(status));
    }
  }
}
