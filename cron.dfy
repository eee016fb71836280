/**
 * One run of the campaign timer (`src/backend/cronService.js`): list the
 * ACTIVE campaigns (first page of `getAllCampaigns`), and for each fetch its
 * first 1000 READY rows; a campaign with none is set to FINISHED, otherwise
 * every fetched row whose tentative send date has come is mailed and its
 * outcome recorded.
 *
 * A tick is modelled as sequential and atomic. The transport's verdict on
 * each (campaign, lead) pair and the failures of the store are oracles.
 * The functions below state the tick's effect on the tables as they were
 * when it started; `Tick` is proved to produce exactly that effect.
 */
module Cron {
  import opened Common
  import opened Sequences
  import opened Leads
  import opened Campaigns
  import opened Email

  /** The page size of the READY-row fetch. */
  const ReadyPageSize: int := 1000

  /** `getAllCampaigns({ status: 'ACTIVE' })`. */
  function ActiveQuery(): CampaignQuery {
    StatusQuery("ACTIVE")
  }

  /** `getLeadsForCampaign(id, { statuses: ['READY'], page: 1, pageSize: 1000 })`. */
  function ReadyQuery(): CampaignLeadsQuery {
    CampaignLeadsQuery(Some(["READY"]), 1, ReadyPageSize)
  }

  /** Which store operations fail during the tick. */
  datatype Faults = Faults(
    campaignQueryFails: bool,   // the campaign listing errs
    leadQueryFails: set<int>,   // the READY-row fetch errs for these campaign ids
    writeFails: set<Key>)       // recording the outcome errs for these pairs

  /** The campaigns the tick walks through, in order. */
  function Visited(campaigns: seq<Campaign>, faults: Faults): seq<Campaign> {
    if faults.campaignQueryFails then [] else AllCampaigns(campaigns, ActiveQuery()).campaigns
  }

  /** The READY rows fetched for a campaign. */
  function ReadyRows(leads: seq<Lead>, assignments: seq<Assignment>, cid: int): seq<CampaignLeadRow> {
    LeadsForCampaign(leads, assignments, cid, ReadyQuery()).leads
  }

  /** A row is due when it has a tentative send date and that date has come. */
  predicate Due(r: CampaignLeadRow, now: nat) {
    r.tentativeSendDate.Some? && r.tentativeSendDate.value <= now
  }

  /** The pairs that are mailed among some fetched rows of a campaign. */
  ghost function DueKeys(cid: int, rows: seq<CampaignLeadRow>, now: nat): set<Key> {
    set r | r in rows && Due(r, now) :: (cid, r.id)
  }

  /** A visited campaign is finished when its fetch succeeds and returns no row. */
  predicate Finishes(leads: seq<Lead>, assignments: seq<Assignment>, c: Campaign, faults: Faults) {
    c.id !in faults.leadQueryFails && ReadyRows(leads, assignments, c.id) == []
  }

  /** The pairs mailed for one visited campaign. */
  ghost function CampaignSends(leads: seq<Lead>, assignments: seq<Assignment>, c: Campaign, faults: Faults, now: nat): set<Key> {
    if c.id in faults.leadQueryFails then {} else DueKeys(c.id, ReadyRows(leads, assignments, c.id), now)
  }

  /** The pairs mailed for a run of visited campaigns. */
  ghost function SentKeys(leads: seq<Lead>, assignments: seq<Assignment>, visited: seq<Campaign>, faults: Faults, now: nat): set<Key>
    decreases |visited|
  {
    if |visited| == 0 then {}
    else SentKeys(leads, assignments, visited[..|visited| - 1], faults, now)
         + CampaignSends(leads, assignments, visited[|visited| - 1], faults, now)
  }

  /** The ids of the campaigns finished in a run of visited campaigns. */
  ghost function FinishedIds(leads: seq<Lead>, assignments: seq<Assignment>, visited: seq<Campaign>, faults: Faults): set<int>
    decreases |visited|
  {
    if |visited| == 0 then {}
    else
      var last := visited[|visited| - 1];
      FinishedIds(leads, assignments, visited[..|visited| - 1], faults)
        + (if Finishes(leads, assignments, last, faults) then {last.id} else {})
  }

  /** The fetched rows all belong to the campaign. */
  lemma ReadyRowsOfCampaign(leads: seq<Lead>, assignments: seq<Assignment>, cid: int)
    ensures forall r :: r in ReadyRows(leads, assignments, cid) ==> r.campaignId == cid
  {
    LeadsForCampaignSound(leads, assignments, cid, ReadyQuery());
  }

  /** A row after its outcome is recorded. */
  function Record(a: Assignment, res: TransportResult, now: nat): Assignment {
    a.(status := OutcomeStatus(res), extra := OutcomeExtra(res), updatedAt := TruncateToSecond(now))
  }

  /** The assignments with the outcome of every written pair recorded. */
  ghost function AfterSends(assignments: seq<Assignment>, written: set<Key>, transport: Key -> TransportResult, now: nat): seq<Assignment> {
    seq(|assignments|, j requires 0 <= j < |assignments| =>
      if KeyOf(assignments[j]) in written then Record(assignments[j], transport(KeyOf(assignments[j])), now)
      else assignments[j])
  }

  /** The campaigns with every finished one set to FINISHED. */
  ghost function AfterFinish(campaigns: seq<Campaign>, finished: set<int>): seq<Campaign> {
    seq(|campaigns|, i requires 0 <= i < |campaigns| =>
      if campaigns[i].id in finished then campaigns[i].(status := Finished) else campaigns[i])
  }

  /** The campaigns table after a tick. */
  ghost function TickCampaigns(leads: seq<Lead>, campaigns: seq<Campaign>, assignments: seq<Assignment>, faults: Faults): seq<Campaign> {
    AfterFinish(campaigns, FinishedIds(leads, assignments, Visited(campaigns, faults), faults))
  }

  /** The campaign_leads table after a tick. */
  ghost function TickAssignments(leads: seq<Lead>, campaigns: seq<Campaign>, assignments: seq<Assignment>,
                                 now: nat, transport: Key -> TransportResult, faults: Faults): seq<Assignment> {
    AfterSends(assignments, SentKeys(leads, assignments, Visited(campaigns, faults), faults, now) - faults.writeFails, transport, now)
  }

  // ---------------------------------------------------------------------
  // Steps of the tick
  // ---------------------------------------------------------------------

  lemma AfterNothing(campaigns: seq<Campaign>, assignments: seq<Assignment>, transport: Key -> TransportResult, now: nat)
    ensures AfterFinish(campaigns, {}) == campaigns
    ensures AfterSends(assignments, {}, transport, now) == assignments
  {
  }

  /** Recording one more pair's outcome. */
  lemma AfterSendsStep(assignments: seq<Assignment>, written: set<Key>, k: Key, transport: Key -> TransportResult, now: nat)
    ensures SetLeadStatus(AfterSends(assignments, written, transport, now), k,
                          OutcomeStatus(transport(k)), OutcomeExtra(transport(k)), TruncateToSecond(now))
            == AfterSends(assignments, written + {k}, transport, now)
  {
  }

  /** Finishing one more campaign. */
  lemma AfterFinishStep(campaigns: seq<Campaign>, finished: set<int>, id: int)
    ensures SetCampaignStatus(AfterFinish(campaigns, finished), id, StatusFromText("FINISHED"))
            == AfterFinish(campaigns, finished + {id})
  {
  }

  lemma DueKeysSnoc(cid: int, rows: seq<CampaignLeadRow>, k: nat, now: nat)
    requires k < |rows|
    ensures DueKeys(cid, rows[..k + 1], now) ==
            DueKeys(cid, rows[..k], now) + (if Due(rows[k], now) then {(cid, rows[k].id)} else {})
  {
    assert rows[..k + 1] == rows[..k] + [rows[k]];
  }

  /** One more fetched row adds its pair to the written set when it is due and its write succeeds. */
  lemma WrittenSnoc(cid: int, rows: seq<CampaignLeadRow>, k: nat, now: nat, sent: set<Key>, writeFails: set<Key>)
    requires k < |rows|
    ensures (sent + DueKeys(cid, rows[..k + 1], now)) - writeFails ==
            ((sent + DueKeys(cid, rows[..k], now)) - writeFails) +
            (if Due(rows[k], now) && (cid, rows[k].id) !in writeFails then {(cid, rows[k].id)} else {})
  {
    DueKeysSnoc(cid, rows, k, now);
  }

  /** Every mailed pair belongs to one of the visited campaigns. */
  lemma {:induction false} SentKeysSource(leads: seq<Lead>, assignments: seq<Assignment>, visited: seq<Campaign>,
                                           faults: Faults, now: nat, k: Key) returns (i: nat, r: CampaignLeadRow)
    requires k in SentKeys(leads, assignments, visited, faults, now)
    ensures i < |visited| && visited[i].id !in faults.leadQueryFails
    ensures r in ReadyRows(leads, assignments, visited[i].id) && Due(r, now)
    ensures k == (visited[i].id, r.id)
  {
    var n := |visited| - 1;
    if k in SentKeys(leads, assignments, visited[..n], faults, now) {
      i, r := SentKeysSource(leads, assignments, visited[..n], faults, now, k);
      assert visited[..n][i] == visited[i];
    } else {
      i := n;
      r :| r in ReadyRows(leads, assignments, visited[n].id) && Due(r, now) && k == (visited[n].id, r.id);
    }
  }

  lemma SentKeysSnoc(leads: seq<Lead>, assignments: seq<Assignment>, visited: seq<Campaign>, faults: Faults, now: nat)
    requires |visited| > 0
    ensures var n := |visited| - 1;
      && SentKeys(leads, assignments, visited[..n], faults, now) <= SentKeys(leads, assignments, visited, faults, now)
      && (visited[n].id !in faults.leadQueryFails ==>
            DueKeys(visited[n].id, ReadyRows(leads, assignments, visited[n].id), now) <= SentKeys(leads, assignments, visited, faults, now))
  {
  }

  /** The pairs mailed for a prefix of the visited campaigns are among those mailed for all of them. */
  lemma {:induction false} SentKeysPrefix(leads: seq<Lead>, assignments: seq<Assignment>, visited: seq<Campaign>,
                                           faults: Faults, now: nat, m: nat)
    requires m <= |visited|
    ensures SentKeys(leads, assignments, visited[..m], faults, now) <= SentKeys(leads, assignments, visited, faults, now)
    decreases |visited| - m
  {
    if m < |visited| {
      SentKeysPrefix(leads, assignments, visited, faults, now, m + 1);
      var p := visited[..m + 1];
      assert p[..m] == visited[..m];
      SentKeysSnoc(leads, assignments, p, faults, now);
    } else {
      assert visited[..m] == visited;
    }
  }

  /** The pairs mailed for one of the visited campaigns are among those of the whole run. */
  lemma SentKeysCover(leads: seq<Lead>, assignments: seq<Assignment>, visited: seq<Campaign>,
                      faults: Faults, now: nat, i: nat)
    requires i < |visited|
    ensures CampaignSends(leads, assignments, visited[i], faults, now) <= SentKeys(leads, assignments, visited, faults, now)
  {
    var p := visited[..i + 1];
    assert p[i] == visited[i] && p[..i] == visited[..i];
    SentKeysPrefix(leads, assignments, visited, faults, now, i + 1);
  }

  lemma DueKeysMember(cid: int, rows: seq<CampaignLeadRow>, r: CampaignLeadRow, now: nat)
    requires r in rows && Due(r, now)
    ensures (cid, r.id) in DueKeys(cid, rows, now)
  {
  }

  /** Every due fetched row of a visited campaign is mailed. */
  lemma {:induction false} SentKeysComplete(leads: seq<Lead>, assignments: seq<Assignment>, visited: seq<Campaign>,
                                             faults: Faults, now: nat, i: nat, r: CampaignLeadRow)
    requires i < |visited| && visited[i].id !in faults.leadQueryFails
    requires r in ReadyRows(leads, assignments, visited[i].id) && Due(r, now)
    ensures (visited[i].id, r.id) in SentKeys(leads, assignments, visited, faults, now)
  {
    SentKeysCover(leads, assignments, visited, faults, now, i);
    DueKeysMember(visited[i].id, ReadyRows(leads, assignments, visited[i].id), r, now);
  }

  lemma {:induction false} FinishedIdsSource(leads: seq<Lead>, assignments: seq<Assignment>, visited: seq<Campaign>,
                                              faults: Faults, id: int) returns (i: nat)
    requires id in FinishedIds(leads, assignments, visited, faults)
    ensures i < |visited| && visited[i].id == id && Finishes(leads, assignments, visited[i], faults)
  {
    var n := |visited| - 1;
    if id in FinishedIds(leads, assignments, visited[..n], faults) {
      i := FinishedIdsSource(leads, assignments, visited[..n], faults, id);
      assert visited[..n][i] == visited[i];
    } else {
      i := n;
    }
  }

  lemma {:induction false} FinishedIdsComplete(leads: seq<Lead>, assignments: seq<Assignment>, visited: seq<Campaign>,
                                                faults: Faults, i: nat)
    requires i < |visited| && Finishes(leads, assignments, visited[i], faults)
    ensures visited[i].id in FinishedIds(leads, assignments, visited, faults)
  {
    var n := |visited| - 1;
    if i < n {
      assert visited[..n][i] == visited[i];
      FinishedIdsComplete(leads, assignments, visited[..n], faults, i);
    }
  }

  /**
   * Outcomes recorded for the campaigns visited before position `n` do not
   * change what the fetch for the campaign at `n` returns: they touch only
   * rows of other campaigns.
   */
  lemma ReadyRowsUnchanged(leads: seq<Lead>, assignments: seq<Assignment>, visited: seq<Campaign>, n: nat,
                           faults: Faults, now: nat, transport: Key -> TransportResult)
    requires n < |visited| && DistinctBy(visited, CampaignId)
    ensures var written := SentKeys(leads, assignments, visited[..n], faults, now) - faults.writeFails;
            ReadyRows(leads, AfterSends(assignments, written, transport, now), visited[n].id)
            == ReadyRows(leads, assignments, visited[n].id)
  {
    var written := SentKeys(leads, assignments, visited[..n], faults, now) - faults.writeFails;
    var cid := visited[n].id;
    forall k | k in written ensures k.0 != cid {
      var i, r := SentKeysSource(leads, assignments, visited[..n], faults, now, k);
      assert visited[..n][i] == visited[i];
    }
    var after := AfterSends(assignments, written, transport, now);
    CampaignRowsFrame(leads, assignments, after, cid, SelectionOf(ReadyQuery().statuses));
  }

  // ---------------------------------------------------------------------
  // What a tick visits and fetches
  // ---------------------------------------------------------------------

  /** The maximum number of campaigns one tick visits: the default page size of the listing. */
  const VisitLimit: int := DefaultPageSize

  /** In a valid table, the status filter `ACTIVE` picks exactly the ACTIVE campaigns. */
  lemma ActiveMatches(c: Campaign)
    requires WellFormedStatus(c.status)
    ensures CampaignMatches(ActiveQuery(), c) <==> c.status == Active
  {
  }

  /**
   * The tick visits at most 20 campaigns, each an ACTIVE campaign of the
   * table, newest start date first, none twice; a failed listing visits none.
   */
  lemma VisitedSpec(campaigns: seq<Campaign>, lastId: nat, faults: Faults)
    requires CampaignsValid(campaigns, lastId)
    ensures var v := Visited(campaigns, faults);
      && |v| <= VisitLimit
      && (forall c :: c in v ==> c in campaigns && c.status == Active)
      && NewestFirst(v)
      && DistinctBy(v, CampaignId)
      && (faults.campaignQueryFails ==> v == [])
  {
    if !faults.campaignQueryFails {
      AllCampaignsSound(campaigns, ActiveQuery());
      AllCampaignsDistinct(campaigns, lastId, ActiveQuery());
      forall c | c in Visited(campaigns, faults) ensures c.status == Active {
        var i :| 0 <= i < |campaigns| && campaigns[i] == c;
        ActiveMatches(c);
      }
    }
  }

  /** With at most 20 ACTIVE campaigns, a successful listing visits every one of them. */
  lemma VisitedComplete(campaigns: seq<Campaign>, faults: Faults)
    requires !faults.campaignQueryFails
    requires |MatchingCampaigns(campaigns, ActiveQuery())| <= VisitLimit
    ensures forall c :: c in campaigns && c.status == Active ==> c in Visited(campaigns, faults)
  {
    AllCampaignsFirstPageComplete(campaigns, ActiveQuery());
  }

  /**
   * Conversely, with more than 20 ACTIVE campaigns some ACTIVE campaign is
   * left out of the tick, whatever the listing's outcome.
   */
  lemma VisitedIncomplete(campaigns: seq<Campaign>, lastId: nat, faults: Faults)
    requires CampaignsValid(campaigns, lastId)
    requires VisitLimit < |MatchingCampaigns(campaigns, ActiveQuery())|
    ensures exists c :: c in campaigns && c.status == Active && c !in Visited(campaigns, faults)
  {
    var matching := MatchingCampaigns(campaigns, ActiveQuery());
    var v := Visited(campaigns, faults);
    VisitedSpec(campaigns, lastId, faults);
    CampaignsDistinct(campaigns, lastId);
    MatchingCampaignsDistinct(campaigns, ActiveQuery());
    KeySetCardDistinct(matching, CampaignId);
    KeySetCard(v, CampaignId);
    var mine, seen := KeySet(matching, CampaignId), KeySet(v, CampaignId);
    if mine <= seen {
      SubsetCard(mine, seen);
    }
    assert !(mine <= seen);
    var x :| x in mine && x !in seen;
    var k :| 0 <= k < |matching| && CampaignId(matching[k]) == x;
    var c := matching[k];
    assert c in campaigns;
    var i :| 0 <= i < |campaigns| && campaigns[i] == c;
    ActiveMatches(c);
    forall t | 0 <= t < |v| ensures v[t].id != x {
      assert CampaignId(v[t]) in seen;
    }
    assert c !in v;
  }

  /** The selection the READY fetch applies. */
  function ReadySelection(): (sel: StatusSelection)
    ensures forall st :: Selects(sel, st) <==> st == Ready
  {
    SelectionOf(ReadyQuery().statuses)
  }

  /**
   * The fetch returns at most 1000 rows, all READY rows of the campaign,
   * latest update first; it returns none exactly when the campaign has no
   * READY assignment whose lead still exists.
   */
  lemma ReadyRowsSpec(leads: seq<Lead>, assignments: seq<Assignment>, cid: int)
    ensures var rows := ReadyRows(leads, assignments, cid);
      && |rows| <= ReadyPageSize
      && (forall r :: r in rows ==> r.campaignId == cid && r.status == Ready)
      && SortedDesc(rows, RowUpdatedAt)
      && (rows == [] <==> forall j :: 0 <= j < |assignments| ==>
            !(assignments[j].campaignId == cid && assignments[j].status == Ready && HasId(leads, assignments[j].leadId)))
  {
    var sel := ReadySelection();
    LeadsForCampaignSound(leads, assignments, cid, ReadyQuery());
    var ordered := SortDesc(CampaignRows(leads, assignments, cid, sel), RowUpdatedAt);
    FirstPageEmptyIff(ordered, ReadyPageSize);
    CampaignRowsEmptyIff(leads, assignments, cid, sel);
  }

  /** Each fetched row is the join of a READY assignment of the campaign with its existing lead. */
  lemma ReadyRowsSource(leads: seq<Lead>, assignments: seq<Assignment>, cid: int, r: CampaignLeadRow) returns (j: nat)
    requires r in ReadyRows(leads, assignments, cid)
    ensures j < |assignments| && assignments[j].campaignId == cid && assignments[j].status == Ready
    ensures HasId(leads, assignments[j].leadId) && r == RowOf(leads, assignments[j])
  {
    LeadsForCampaignSound(leads, assignments, cid, ReadyQuery());
    j := CampaignRowsSource(leads, assignments, cid, ReadySelection(), r);
  }

  /** The number of READY assignments of a campaign whose lead exists. */
  ghost function ReadyCount(leads: seq<Lead>, assignments: seq<Assignment>, cid: int): nat {
    |VisibleIndices(leads, assignments, cid, ReadySelection())|
  }

  /** When a campaign has at most 1000 READY rows, the fetch returns every one of them. */
  lemma ReadyRowsComplete(leads: seq<Lead>, assignments: seq<Assignment>, cid: int, j: nat)
    requires j < |assignments| && assignments[j].campaignId == cid && assignments[j].status == Ready
    requires HasId(leads, assignments[j].leadId)
    requires ReadyCount(leads, assignments, cid) <= ReadyPageSize
    ensures RowOf(leads, assignments[j]) in ReadyRows(leads, assignments, cid)
  {
    var sel := ReadySelection();
    var matching := CampaignRows(leads, assignments, cid, sel);
    CampaignRowsComplete(leads, assignments, cid, sel, j);
    CampaignRowsCount(leads, assignments, cid, sel);
    LeadsForCampaignWindow(leads, assignments, cid, ReadyQuery());
    var ordered := SortDesc(matching, RowUpdatedAt);
    assert ReadyRows(leads, assignments, cid) == ordered;
    SortDescMembers(matching, RowUpdatedAt);
  }

  // ---------------------------------------------------------------------
  // What a tick writes
  // ---------------------------------------------------------------------

  /** In a valid table a campaign is determined by its id. */
  lemma SameIdSameCampaign(campaigns: seq<Campaign>, lastId: nat, i: nat, c: Campaign)
    requires CampaignsValid(campaigns, lastId)
    requires i < |campaigns| && c in campaigns && c.id == campaigns[i].id
    ensures c == campaigns[i]
  {
    var k :| 0 <= k < |campaigns| && campaigns[k] == c;
    assert k == i;
  }

  /**
   * After a tick, a campaign is set to FINISHED exactly when it was visited
   * and its READY fetch succeeded empty; every other campaign row is as it
   * was. Only ACTIVE campaigns change, and the table stays valid.
   */
  lemma TickCampaignsSpec(leads: seq<Lead>, campaigns: seq<Campaign>, lastId: nat, assignments: seq<Assignment>, faults: Faults)
    requires CampaignsValid(campaigns, lastId)
    ensures var after := TickCampaigns(leads, campaigns, assignments, faults);
            var v := Visited(campaigns, faults);
      && |after| == |campaigns|
      && (forall i :: 0 <= i < |campaigns| ==>
            after[i] == if campaigns[i] in v && Finishes(leads, assignments, campaigns[i], faults)
                        then campaigns[i].(status := Finished) else campaigns[i])
      && (forall i :: 0 <= i < |campaigns| && after[i] != campaigns[i] ==>
            campaigns[i].status == Active && after[i].status == Finished)
      && CampaignsValid(after, lastId)
  {
    forall i | 0 <= i < |campaigns| {
      FinishedRow(leads, campaigns, lastId, assignments, faults, i);
    }
  }

  /** One campaign row of `TickCampaignsSpec`: its id is finished exactly when it was visited and fetched empty. */
  lemma FinishedRow(leads: seq<Lead>, campaigns: seq<Campaign>, lastId: nat, assignments: seq<Assignment>, faults: Faults, i: nat)
    requires CampaignsValid(campaigns, lastId) && i < |campaigns|
    ensures var v := Visited(campaigns, faults);
      && (campaigns[i].id in FinishedIds(leads, assignments, v, faults) <==>
          campaigns[i] in v && Finishes(leads, assignments, campaigns[i], faults))
      && (campaigns[i] in v ==> campaigns[i].status == Active)
  {
    var v := Visited(campaigns, faults);
    var finished := FinishedIds(leads, assignments, v, faults);
    VisitedSpec(campaigns, lastId, faults);
    if campaigns[i].id in finished {
      var k := FinishedIdsSource(leads, assignments, v, faults, campaigns[i].id);
      SameIdSameCampaign(campaigns, lastId, i, v[k]);
    }
    if campaigns[i] in v && Finishes(leads, assignments, campaigns[i], faults) {
      var k :| 0 <= k < |v| && v[k] == campaigns[i];
      FinishedIdsComplete(leads, assignments, v, faults, k);
    }
  }

  /**
   * A campaign_leads row changed by a tick was READY, had a tentative send
   * date no later than `now`, belongs to a visited campaign whose fetch
   * succeeded, joins an existing lead, and its outcome write did not fail;
   * it now holds the transport's verdict: SENT exactly on delivery.
   */
  lemma {:induction false} TickAssignmentsSound(leads: seq<Lead>, campaigns: seq<Campaign>, assignments: seq<Assignment>,
                                                 now: nat, transport: Key -> TransportResult, faults: Faults, j: nat)
    requires KeysDistinct(assignments)
    requires j < |assignments|
    requires TickAssignments(leads, campaigns, assignments, now, transport, faults)[j] != assignments[j]
    ensures var a := assignments[j];
            var after := TickAssignments(leads, campaigns, assignments, now, transport, faults)[j];
      && a.status == Ready
      && a.tentativeSendDate.Some? && a.tentativeSendDate.value <= now
      && HasId(leads, a.leadId)
      && KeyOf(a) !in faults.writeFails
      && a.campaignId !in faults.leadQueryFails
      && (exists c :: c in Visited(campaigns, faults) && c.id == a.campaignId)
      && after == Record(a, transport(KeyOf(a)), now)
      && (after.status == Sent <==> transport(KeyOf(a)).Delivered?)
  {
    var v := Visited(campaigns, faults);
    var a := assignments[j];
    var i, r := SentKeysSource(leads, assignments, v, faults, now, KeyOf(a));
    var j' := ReadyRowsSource(leads, assignments, v[i].id, r);
    assert KeyOf(assignments[j']) == KeyOf(a);
    assert j' == j;
    assert v[i] in v;
  }

  /**
   * Conversely, a READY row of a visited campaign whose fetch succeeds, with
   * an existing lead and a tentative send date no later than `now`, gets the
   * transport's verdict unless its write fails — provided the campaign has
   * no more READY rows than one fetch returns.
   */
  lemma TickAssignmentsComplete(leads: seq<Lead>, campaigns: seq<Campaign>, assignments: seq<Assignment>,
                                now: nat, transport: Key -> TransportResult, faults: Faults, j: nat, k: nat)
    requires k < |Visited(campaigns, faults)|
    requires j < |assignments|
    requires var c := Visited(campaigns, faults)[k];
      && c.id !in faults.leadQueryFails
      && assignments[j].campaignId == c.id
      && ReadyCount(leads, assignments, c.id) <= ReadyPageSize
    requires assignments[j].status == Ready && HasId(leads, assignments[j].leadId)
    requires assignments[j].tentativeSendDate.Some? && assignments[j].tentativeSendDate.value <= now
    requires KeyOf(assignments[j]) !in faults.writeFails
    ensures TickAssignments(leads, campaigns, assignments, now, transport, faults)[j] ==
            Record(assignments[j], transport(KeyOf(assignments[j])), now)
  {
    var v := Visited(campaigns, faults);
    ReadyRowsComplete(leads, assignments, v[k].id, j);
    SentKeysComplete(leads, assignments, v, faults, now, k, RowOf(leads, assignments[j]));
  }

  /** A failed listing changes nothing. */
  lemma TickListingFault(leads: seq<Lead>, campaigns: seq<Campaign>, assignments: seq<Assignment>,
                         now: nat, transport: Key -> TransportResult, faults: Faults)
    requires faults.campaignQueryFails
    ensures TickCampaigns(leads, campaigns, assignments, faults) == campaigns
    ensures TickAssignments(leads, campaigns, assignments, now, transport, faults) == assignments
  {
    AfterNothing(campaigns, assignments, transport, now);
  }

  /** A failed READY fetch leaves that campaign and all of its rows as they were. */
  lemma TickFetchFault(leads: seq<Lead>, campaigns: seq<Campaign>, assignments: seq<Assignment>,
                       now: nat, transport: Key -> TransportResult, faults: Faults, cid: int)
    requires cid in faults.leadQueryFails
    ensures var after := TickCampaigns(leads, campaigns, assignments, faults);
      forall i :: 0 <= i < |campaigns| && campaigns[i].id == cid ==> after[i] == campaigns[i]
    ensures var after := TickAssignments(leads, campaigns, assignments, now, transport, faults);
      forall j :: 0 <= j < |assignments| && assignments[j].campaignId == cid ==> after[j] == assignments[j]
  {
    var v := Visited(campaigns, faults);
    forall i | 0 <= i < |campaigns| && campaigns[i].id == cid
      ensures campaigns[i].id !in FinishedIds(leads, assignments, v, faults)
    {
      if campaigns[i].id in FinishedIds(leads, assignments, v, faults) {
        var k := FinishedIdsSource(leads, assignments, v, faults, campaigns[i].id);
      }
    }
    forall j | 0 <= j < |assignments| && assignments[j].campaignId == cid
      ensures KeyOf(assignments[j]) !in SentKeys(leads, assignments, v, faults, now)
    {
      if KeyOf(assignments[j]) in SentKeys(leads, assignments, v, faults, now) {
        var k, r := SentKeysSource(leads, assignments, v, faults, now, KeyOf(assignments[j]));
      }
    }
  }

  /** One campaign contributes at most one message per fetched row, so at most 1000. */
  lemma CampaignSendsBound(leads: seq<Lead>, assignments: seq<Assignment>, c: Campaign, faults: Faults, now: nat)
    ensures |CampaignSends(leads, assignments, c, faults, now)| <= ReadyPageSize
  {
    if c.id !in faults.leadQueryFails {
      var rows := ReadyRows(leads, assignments, c.id);
      ReadyRowsSpec(leads, assignments, c.id);
      var key := (r: CampaignLeadRow) => (c.id, r.id);
      var due := DueKeys(c.id, rows, now);
      var all := KeySet(rows, key);
      forall x | x in due ensures x in all {
        var r :| r in rows && Due(r, now) && x == (c.id, r.id);
        var t :| 0 <= t < |rows| && rows[t] == r;
        assert key(rows[t]) == x;
      }
      SubsetCard(due, all);
      KeySetCard(rows, key);
    }
  }

  lemma {:induction false} SubsetCard<K>(a: set<K>, b: set<K>)
    requires a <= b
    ensures |a| <= |b|
  {
    if a != {} {
      var x :| x in a;
      SubsetCard(a - {x}, b - {x});
    }
  }

  /** A tick sends at most 1000 messages per visited campaign, so at most 20000. */
  lemma {:induction false} SentKeysBound(leads: seq<Lead>, assignments: seq<Assignment>, visited: seq<Campaign>, faults: Faults, now: nat)
    ensures |SentKeys(leads, assignments, visited, faults, now)| <= ReadyPageSize * |visited|
  {
    if |visited| > 0 {
      var n := |visited| - 1;
      SentKeysBound(leads, assignments, visited[..n], faults, now);
      CampaignSendsBound(leads, assignments, visited[n], faults, now);
    }
  }

  lemma TickSendsBound(leads: seq<Lead>, campaigns: seq<Campaign>, lastId: nat, assignments: seq<Assignment>, faults: Faults, now: nat)
    requires CampaignsValid(campaigns, lastId)
    ensures |SentKeys(leads, assignments, Visited(campaigns, faults), faults, now)| <= ReadyPageSize * VisitLimit
  {
    VisitedSpec(campaigns, lastId, faults);
    SentKeysBound(leads, assignments, Visited(campaigns, faults), faults, now);
  }

  // ---------------------------------------------------------------------
  // The tick
  // ---------------------------------------------------------------------

  /**
   * The interval callback: one pass over the active campaigns. `transport`
   * gives the verdict on the message for each pair; `faults` says which store
   * operations fail (a failed listing or fetch ends that part of the tick
   * with no write; a failed outcome write leaves that row as it was).
   */
  method Tick(store: CampaignStore, leads: LeadTable, template: string, now: nat,
              transport: Key -> TransportResult, faults: Faults)
    requires store.Valid()
    modifies store
    ensures store.Valid() && store.lastId == old(store.lastId)
    ensures store.campaigns == TickCampaigns(leads.rows, old(store.campaigns), old(store.assignments), faults)
    ensures store.assignments == TickAssignments(leads.rows, old(store.campaigns), old(store.assignments), now, transport, faults)
  {
    ghost var campaigns0, assignments0 := store.campaigns, store.assignments;
    AfterNothing(campaigns0, assignments0, transport, now);
    if faults.campaignQueryFails {
      return;
    }
    var visited := AllCampaigns(store.campaigns, ActiveQuery()).campaigns;
    AllCampaignsDistinct(campaigns0, store.lastId, ActiveQuery());
    var n := 0;
    while n < |visited|
      invariant 0 <= n <= |visited|
      invariant store.Valid() && store.lastId == old(store.lastId)
      invariant store.campaigns == AfterFinish(campaigns0, FinishedIds(leads.rows, assignments0, visited[..n], faults))
      invariant store.assignments ==
                AfterSends(assignments0, SentKeys(leads.rows, assignments0, visited[..n], faults, now) - faults.writeFails, transport, now)
    {
      ReadyRowsUnchanged(leads.rows, assignments0, visited, n, faults, now, transport);
      ProcessCampaign(store, leads, template, visited[n], now, transport, faults, campaigns0, assignments0,
                      FinishedIds(leads.rows, assignments0, visited[..n], faults),
                      SentKeys(leads.rows, assignments0, visited[..n], faults, now));
      assert visited[..n + 1][..n] == visited[..n];
      n := n + 1;
    }
    assert visited[..n] == visited;
  }

  /**
   * The callback for one visited campaign: fetch its READY rows; with none,
   * set it to FINISHED; otherwise mail the due ones. A failed fetch writes
   * nothing.
   */
  method ProcessCampaign(store: CampaignStore, leads: LeadTable, template: string, c: Campaign, now: nat,
                         transport: Key -> TransportResult, faults: Faults,
                         ghost campaigns0: seq<Campaign>, ghost assignments0: seq<Assignment>,
                         ghost finished: set<int>, ghost sent: set<Key>)
    requires store.Valid()
    requires store.campaigns == AfterFinish(campaigns0, finished)
    requires store.assignments == AfterSends(assignments0, sent - faults.writeFails, transport, now)
    requires ReadyRows(leads.rows, store.assignments, c.id) == ReadyRows(leads.rows, assignments0, c.id)
    modifies store
    ensures store.Valid() && store.lastId == old(store.lastId)
    ensures store.campaigns ==
            AfterFinish(campaigns0, finished + (if Finishes(leads.rows, assignments0, c, faults) then {c.id} else {}))
    ensures store.assignments ==
            AfterSends(assignments0, (sent + CampaignSends(leads.rows, assignments0, c, faults, now)) - faults.writeFails, transport, now)
  {
    CampaignOutcome(leads.rows, assignments0, c, faults, now, finished, sent);
    if c.id in faults.leadQueryFails {
      return;
    }
    var rows := ReadyRows(leads.rows, store.assignments, c.id);
    if |rows| == 0 {
      FinishCampaign(store, c.id, campaigns0, finished);
    } else {
      ReadyRowsOfCampaign(leads.rows, store.assignments, c.id);
      SendDue(store, template, c.id, rows, now, transport, faults.writeFails, assignments0, sent);
    }
  }

  /** What one visited campaign adds to the finished ids and to the mailed pairs, by the outcome of its fetch. */
  lemma CampaignOutcome(leads: seq<Lead>, assignments: seq<Assignment>, c: Campaign, faults: Faults, now: nat,
                        finished: set<int>, sent: set<Key>)
    ensures var f := finished + (if Finishes(leads, assignments, c, faults) then {c.id} else {});
            var s := sent + CampaignSends(leads, assignments, c, faults, now);
            var rows := ReadyRows(leads, assignments, c.id);
      && (c.id in faults.leadQueryFails ==> f == finished && s == sent)
      && (c.id !in faults.leadQueryFails && rows == [] ==> f == finished + {c.id} && s == sent)
      && (c.id !in faults.leadQueryFails && rows != [] ==> f == finished && s == sent + DueKeys(c.id, rows, now))
  {
    var rows := ReadyRows(leads, assignments, c.id);
    if c.id !in faults.leadQueryFails && rows == [] {
      assert DueKeys(c.id, rows, now) == {};
    }
  }

  /** Sets a campaign without READY rows to FINISHED; the error of that write is ignored. */
  method FinishCampaign(store: CampaignStore, cid: int, ghost campaigns0: seq<Campaign>, ghost finished: set<int>)
    requires store.Valid()
    requires store.campaigns == AfterFinish(campaigns0, finished)
    modifies store
    ensures store.Valid() && store.lastId == old(store.lastId) && store.assignments == old(store.assignments)
    ensures store.campaigns == AfterFinish(campaigns0, finished + {cid})
  {
    AfterFinishStep(campaigns0, finished, cid);
    var _ := store.UpdateCampaignStatus(cid, "FINISHED");
  }

  /**
   * The `forEach` over one campaign's fetched rows: each due row is mailed
   * and its outcome recorded, others are skipped.
   */
  method SendDue(store: CampaignStore, template: string, cid: int, rows: seq<CampaignLeadRow>, now: nat,
                 transport: Key -> TransportResult, writeFails: set<Key>,
                 ghost base: seq<Assignment>, ghost sent: set<Key>)
    requires store.Valid()
    requires forall r :: r in rows ==> r.campaignId == cid
    requires store.assignments == AfterSends(base, sent - writeFails, transport, now)
    modifies store
    ensures store.Valid() && store.campaigns == old(store.campaigns) && store.lastId == old(store.lastId)
    ensures store.assignments == AfterSends(base, (sent + DueKeys(cid, rows, now)) - writeFails, transport, now)
  {
    assert DueKeys(cid, rows[..0], now) == {};
    var k := 0;
    while k < |rows|
      invariant 0 <= k <= |rows|
      invariant store.Valid() && store.campaigns == old(store.campaigns) && store.lastId == old(store.lastId)
      invariant store.assignments == AfterSends(base, (sent + DueKeys(cid, rows[..k], now)) - writeFails, transport, now)
    {
      var row := rows[k];
      WrittenSnoc(cid, rows, k, now, sent, writeFails);
      assert row in rows;
      if row.tentativeSendDate.Some? && row.tentativeSendDate.value <= now {
        var key := (cid, row.id);
        if key !in writeFails {
          AfterSendsStep(base, (sent + DueKeys(cid, rows[..k], now)) - writeFails, key, transport, now);
        }
        var mail, result := SendCampaignLeadEmail(store, template, row, transport(key), key in writeFails, now);
      }
      k := k + 1;
    }
    assert rows[..k] == rows;
  }
}
