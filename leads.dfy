/**
 * The lead store: a table of prospective contacts, unique by name, with an
 * upsert that normalises the area, a filtered and optionally paged listing,
 * the list of distinct areas, and deletion by id.
 *
 * The table is a sequence in rowid order. `id` is declared
 * `INTEGER PRIMARY KEY AUTOINCREMENT`, so it is the rowid: rows appear in
 * increasing id order and a new row takes one more than the largest id the
 * table has ever issued (`lastId`), even after deletions.
 */
module Leads {
  import opened Common
  import opened Strings
  import opened Sequences

  datatype Lead = Lead(
    id: int,
    name: string,
    address: Option<string>,
    phone: Option<string>,
    mobile: Option<string>,
    email: Option<string>,
    contactPerson: Option<string>,
    area: string,
    isSurveyLead: bool,
    createdAt: nat,
    updatedAt: nat,
    details: string)   // serialised JSON, opaque here

  /** The lead object a caller passes to `addLead`. */
  datatype LeadInput = LeadInput(
    name: string,
    address: Option<string>,
    phone: Option<string>,
    mobile: Option<string>,
    email: Option<string>,
    contactPerson: Option<string>,
    area: Option<string>,
    isSurveyLead: bool,
    details: Option<string>)   // the serialised `details` object, None when falsy

  const DefaultArea: string := "N/A"
  const EmptyDetails: string := "{}"

  /** The table invariant: ids positive, below the sequence counter, increasing in row order; names unique. */
  ghost predicate TableValid(rows: seq<Lead>, lastId: nat) {
    && (forall i :: 0 <= i < |rows| ==> 0 < rows[i].id <= lastId)
    && (forall i, j :: 0 <= i < j < |rows| ==> rows[i].id < rows[j].id)
    && (forall i, j :: 0 <= i < j < |rows| ==> rows[i].name != rows[j].name)
  }

  /**
   * The area the store keeps: a truthy area is trimmed and upper-cased, a
   * falsy one becomes "N/A", and so does one that trims to nothing (the
   * insert and update statements bind `lead.area || 'N/A'`).
   */
  function NormalizeArea(area: Option<string>): string {
    var a := if Truthy(area) then ToUpper(Trim(area.value)) else DefaultArea;
    if a == "" then DefaultArea else a
  }

  /** What the stored area is, case by case. */
  lemma NormalizeAreaCases(area: Option<string>)
    ensures !Truthy(area) ==> NormalizeArea(area) == DefaultArea
    ensures Truthy(area) && AllWhitespace(area.value) ==> NormalizeArea(area) == DefaultArea
    ensures Truthy(area) && !AllWhitespace(area.value) ==> NormalizeArea(area) == ToUpper(Trim(area.value))
  {
    if Truthy(area) { TrimEmptyIff(area.value); }
  }

  /** A stored area is never empty, has no surrounding whitespace and no lower-case ASCII letter. */
  lemma NormalizeAreaShape(area: Option<string>)
    ensures var a := NormalizeArea(area);
            && a != ""
            && Trimmed(a)
            && forall i :: 0 <= i < |a| ==> !IsLowerAscii(a[i])
  {
    if Truthy(area) {
      var t := Trim(area.value);
      TrimTrimmed(area.value);
      ToUpperSpec(t);
      ToUpperKeepsWhitespace(t);
    }
  }

  /** Normalising an already stored area changes nothing. */
  lemma NormalizeAreaIdempotent(area: Option<string>)
    ensures NormalizeArea(Some(NormalizeArea(area))) == NormalizeArea(area)
  {
    var a := NormalizeArea(area);
    NormalizeAreaShape(area);
    TrimFixedPoint(a);
    ToUpperSpec(a);
    assert ToUpper(a) == a;
  }

  function StoredDetails(details: Option<string>): string {
    details.GetOr(EmptyDetails)
  }

  /** The index of the row with this name, if any (`SELECT id FROM leads WHERE name = ?`). */
  function IndexOfName(rows: seq<Lead>, name: string): (r: Option<nat>)
    ensures r.Some? ==> r.value < |rows| && rows[r.value].name == name
    ensures r.None? ==> forall i :: 0 <= i < |rows| ==> rows[i].name != name
  {
    if |rows| == 0 then None
    else if rows[|rows| - 1].name == name then Some(|rows| - 1)
    else IndexOfName(rows[..|rows| - 1], name)
  }

  /** The row an update writes: every column but id, name and created_at is taken from the input. */
  function Overwrite(row: Lead, input: LeadInput, now: nat): Lead {
    row.(address := input.address, phone := input.phone, mobile := input.mobile,
         email := input.email, contactPerson := input.contactPerson,
         area := NormalizeArea(input.area), isSurveyLead := input.isSurveyLead,
         updatedAt := now, details := StoredDetails(input.details))
  }

  /** The row an insert writes; created_at and updated_at are both the current time. */
  function NewLead(id: int, input: LeadInput, now: nat): Lead {
    Lead(id, input.name, input.address, input.phone, input.mobile, input.email,
         input.contactPerson, NormalizeArea(input.area), input.isSurveyLead, now, now,
         StoredDetails(input.details))
  }

  datatype UpsertResult = UpsertResult(rows: seq<Lead>, lastId: nat, id: int)

  /** `addLead`: update the row with the same name, or insert a new row with a fresh id. */
  function Upsert(rows: seq<Lead>, lastId: nat, input: LeadInput, now: nat): UpsertResult {
    match IndexOfName(rows, input.name)
    case Some(i) => UpsertResult(rows[i := Overwrite(rows[i], input, now)], lastId, rows[i].id)
    case None => UpsertResult(rows + [NewLead(lastId + 1, input, now)], lastId + 1, lastId + 1)
  }

  /** The upsert keeps the table invariant, so names stay unique. */
  lemma UpsertValid(rows: seq<Lead>, lastId: nat, input: LeadInput, now: nat)
    requires TableValid(rows, lastId)
    ensures var u := Upsert(rows, lastId, input, now); TableValid(u.rows, u.lastId)
  {
    var u := Upsert(rows, lastId, input, now);
    match IndexOfName(rows, input.name)
    case Some(k) =>
      forall i | 0 <= i < |rows| ensures u.rows[i].id == rows[i].id && u.rows[i].name == rows[i].name {
        if i == k { assert u.rows[i] == Overwrite(rows[k], input, now); }
      }
    case None =>
      var n := NewLead(lastId + 1, input, now);
      assert u.rows == rows + [n];
      forall i, j | 0 <= i < j < |u.rows|
        ensures u.rows[i].id < u.rows[j].id && u.rows[i].name != u.rows[j].name
      {
        assert u.rows[i] == rows[i];
        if j < |rows| { assert u.rows[j] == rows[j]; }
      }
  }

  /** Afterwards exactly one row carries the name, and it is the row whose id is returned. */
  lemma UpsertNameUnique(rows: seq<Lead>, lastId: nat, input: LeadInput, now: nat)
    requires TableValid(rows, lastId)
    ensures var u := Upsert(rows, lastId, input, now);
            && (exists i :: 0 <= i < |u.rows| && u.rows[i].name == input.name)
            && forall i :: 0 <= i < |u.rows| ==> (u.rows[i].name == input.name <==> u.rows[i].id == u.id)
  {
    var u := Upsert(rows, lastId, input, now);
    match IndexOfName(rows, input.name)
    case Some(k) =>
      assert u.rows[k].name == input.name;
      forall i | 0 <= i < |u.rows| ensures u.rows[i].name == input.name <==> u.rows[i].id == u.id {
        if i < k { assert rows[i].id < rows[k].id; }
        if i > k { assert rows[k].id < rows[i].id; }
      }
    case None =>
      assert u.rows[|rows|].name == input.name;
  }

  /** With a row of that name: same id, same row count, created_at kept, the other columns from the input. */
  lemma UpsertExisting(rows: seq<Lead>, lastId: nat, input: LeadInput, now: nat, k: nat)
    requires TableValid(rows, lastId)
    requires k < |rows| && rows[k].name == input.name
    ensures var u := Upsert(rows, lastId, input, now);
            && u.id == rows[k].id && u.lastId == lastId && |u.rows| == |rows|
            && u.rows[k].createdAt == rows[k].createdAt && u.rows[k].updatedAt == now
            && u.rows[k] == Overwrite(rows[k], input, now)
            && forall i :: 0 <= i < |rows| && i != k ==> u.rows[i] == rows[i]
  {
    var i :| IndexOfName(rows, input.name) == Some(i);
    assert i == k;
  }

  /** Without a row of that name: a row with the next id is appended, created_at = updated_at = now. */
  lemma UpsertNew(rows: seq<Lead>, lastId: nat, input: LeadInput, now: nat)
    requires forall i :: 0 <= i < |rows| ==> rows[i].name != input.name
    ensures var u := Upsert(rows, lastId, input, now);
            && u.id == lastId + 1 && u.lastId == lastId + 1
            && u.rows == rows + [NewLead(lastId + 1, input, now)]
            && u.rows[|rows|].createdAt == now && u.rows[|rows|].updatedAt == now
  {
  }

  /**
   * The row behind the returned id holds the input's name and the columns
   * `addLead` writes from it: the normalised area, the survey flag and the
   * serialised details.
   */
  lemma UpsertStored(rows: seq<Lead>, lastId: nat, input: LeadInput, now: nat)
    requires TableValid(rows, lastId)
    ensures var u := Upsert(rows, lastId, input, now);
            forall i :: 0 <= i < |u.rows| && u.rows[i].id == u.id ==>
              && u.rows[i].name == input.name
              && u.rows[i].area == NormalizeArea(input.area)
              && u.rows[i].isSurveyLead == input.isSurveyLead
              && u.rows[i].details == StoredDetails(input.details)
  {
    var u := Upsert(rows, lastId, input, now);
    match IndexOfName(rows, input.name)
    case Some(k) =>
      forall i | 0 <= i < |rows| && i != k ensures u.rows[i].id != u.id {
        if i < k { assert rows[i].id < rows[k].id; } else { assert rows[k].id < rows[i].id; }
      }
    case None =>
      forall i | 0 <= i < |rows| ensures u.rows[i].id != u.id {
        assert rows[i].id <= lastId;
      }
  }

  /** Adding the same lead twice at the same time leaves the table as adding it once. */
  lemma UpsertTwice(rows: seq<Lead>, lastId: nat, input: LeadInput, now: nat)
    requires TableValid(rows, lastId)
    ensures var u := Upsert(rows, lastId, input, now);
            Upsert(u.rows, u.lastId, input, now) == u
  {
    var u := Upsert(rows, lastId, input, now);
    match IndexOfName(rows, input.name)
    case Some(k) =>
      var o := Overwrite(rows[k], input, now);
      assert u.rows == rows[k := o] && u.rows[k] == o;
      UpsertValid(rows, lastId, input, now);
      UpsertExisting(u.rows, u.lastId, input, now, k);
      assert Overwrite(o, input, now) == o;
      assert u.rows[k := o] == u.rows;
    case None =>
      var n := NewLead(lastId + 1, input, now);
      assert u.rows == rows + [n] && u.rows[|rows|] == n;
      assert IndexOfName(u.rows, input.name) == Some(|rows|);
      assert Overwrite(n, input, now) == n;
      assert u.rows[|rows| := n] == u.rows;
  }

  predicate HasId(rows: seq<Lead>, id: int) {
    exists i :: 0 <= i < |rows| && rows[i].id == id
  }

  /** `DELETE FROM leads WHERE id = ?`. */
  function RemoveId(rows: seq<Lead>, id: int): (r: seq<Lead>)
    ensures forall l :: l in r <==> l in rows && l.id != id
    ensures |r| <= |rows|
  {
    if |rows| == 0 then []
    else if rows[0].id == id then RemoveId(rows[1..], id)
    else [rows[0]] + RemoveId(rows[1..], id)
  }

  lemma {:induction false} RemoveIdAbsent(rows: seq<Lead>, id: int)
    requires !HasId(rows, id)
    ensures RemoveId(rows, id) == rows
  {
    if |rows| > 0 {
      assert !HasId(rows[1..], id) by {
        forall i | 0 <= i < |rows[1..]| ensures rows[1..][i].id != id { assert rows[i + 1].id != id; }
      }
      RemoveIdAbsent(rows[1..], id);
    }
  }

  lemma TailValid(rows: seq<Lead>, lastId: nat)
    requires TableValid(rows, lastId) && |rows| > 0
    ensures TableValid(rows[1..], lastId)
    ensures forall i :: 0 <= i < |rows[1..]| ==> rows[0].id < rows[1..][i].id && rows[0].name != rows[1..][i].name
  {
    forall i | 0 <= i < |rows[1..]|
      ensures rows[0].id < rows[1..][i].id && rows[0].name != rows[1..][i].name
    {
      assert rows[1..][i] == rows[i + 1];
    }
  }

  lemma HasIdCons(rows: seq<Lead>, id: int)
    requires |rows| > 0
    ensures HasId(rows, id) <==> rows[0].id == id || HasId(rows[1..], id)
  {
    if HasId(rows, id) && rows[0].id != id {
      var i :| 0 <= i < |rows| && rows[i].id == id;
      assert rows[1..][i - 1].id == id;
    }
    if HasId(rows[1..], id) {
      var i :| 0 <= i < |rows[1..]| && rows[1..][i].id == id;
      assert rows[i + 1].id == id;
    }
  }

  /** Deleting removes one row exactly when a row has that id. */
  lemma {:induction false} RemoveIdCount(rows: seq<Lead>, lastId: nat, id: int)
    requires TableValid(rows, lastId)
    ensures |RemoveId(rows, id)| == if HasId(rows, id) then |rows| - 1 else |rows|
  {
    if |rows| > 0 {
      var tail := rows[1..];
      TailValid(rows, lastId);
      HasIdCons(rows, id);
      RemoveIdCount(tail, lastId, id);
      if rows[0].id == id {
        assert !HasId(tail, id);
        RemoveIdAbsent(tail, id);
      }
    }
  }

  /** Deleting keeps the table invariant (the others stay in order, so ids still increase). */
  lemma {:induction false} RemoveIdValid(rows: seq<Lead>, lastId: nat, id: int)
    requires TableValid(rows, lastId)
    ensures TableValid(RemoveId(rows, id), lastId)
  {
    if |rows| > 0 {
      var tail := rows[1..];
      TailValid(rows, lastId);
      RemoveIdValid(tail, lastId, id);
      if rows[0].id != id {
        var r := RemoveId(tail, id);
        forall j | 0 <= j < |r| ensures rows[0].id < r[j].id && rows[0].name != r[j].name {
          assert r[j] in tail;
        }
      }
    }
  }

  /** The filter object of `getAllLeads`; string filters apply only when truthy. */
  datatype LeadFilter = LeadFilter(
    phone: Option<string>,
    email: Option<string>,
    area: Option<string>,
    emailNotNull: bool,
    phoneNotNull: bool,
    mobileNotNull: bool,
    search: Option<string>,
    page: Option<int>,        // None unless a number was passed
    pageSize: Option<int>,    // None unless a number was passed
    isSurveyLead: Option<bool>)  // None unless a boolean was passed

  function NoFilter(): LeadFilter {
    LeadFilter(None, None, None, false, false, false, None, None, None, None)
  }

  function Unpaged(f: LeadFilter): LeadFilter {
    f.(page := None, pageSize := None)
  }

  /** The WHERE clause of `getAllLeads`: every supplied filter must hold. */
  predicate Matches(f: LeadFilter, l: Lead) {
    && (Truthy(f.area) ==> l.area == f.area.value)
    && (Truthy(f.phone) ==> l.phone == f.phone)
    && (Truthy(f.email) ==> l.email == f.email)
    && (f.isSurveyLead.Some? ==> l.isSurveyLead == f.isSurveyLead.value)
    && (f.mobileNotNull ==> Truthy(l.mobile))
    && (f.emailNotNull ==> Truthy(l.email))
    && (f.phoneNotNull ==> Truthy(l.phone))
    && (Truthy(f.search) ==>
          || Contains(l.name, f.search.value)
          || (l.email.Some? && Contains(l.email.value, f.search.value))
          || (l.contactPerson.Some? && Contains(l.contactPerson.value, f.search.value)))
  }

  /** The rows satisfying the filter, in table order. */
  function MatchingLeads(rows: seq<Lead>, f: LeadFilter): (r: seq<Lead>)
    ensures forall l :: l in r <==> l in rows && Matches(f, l)
    ensures |r| <= |rows|
  {
    if |rows| == 0 then []
    else if Matches(f, rows[0]) then [rows[0]] + MatchingLeads(rows[1..], f)
    else MatchingLeads(rows[1..], f)
  }

  function UpdatedAt(l: Lead): int { l.updatedAt }

  datatype LeadPage = LeadPage(leads: seq<Lead>, total: nat)

  /** `getAllLeads`: matching rows newest-updated first, paged only when page and page size are numbers. */
  function AllLeads(rows: seq<Lead>, f: LeadFilter): LeadPage {
    var matching := MatchingLeads(rows, f);
    var ordered := SortDesc(matching, UpdatedAt);
    var page :=
      if f.page.Some? && f.pageSize.Some?
      then Window(ordered, f.pageSize.value, PageOffset(f.page.value, f.pageSize.value))
      else ordered;
    LeadPage(page, |matching|)
  }

  /** Where the listing starts in the ordered matches. */
  function PageStart(f: LeadFilter, n: nat): nat {
    if f.page.Some? && f.pageSize.Some? then Clamp(PageOffset(f.page.value, f.pageSize.value), n) else 0
  }

  /** The listing of a query is a contiguous run of its ordered matches. */
  lemma AllLeadsWindow(rows: seq<Lead>, f: LeadFilter)
    ensures var ordered := SortDesc(MatchingLeads(rows, f), UpdatedAt);
            var p := AllLeads(rows, f);
            var lo := PageStart(f, |ordered|);
            && lo + |p.leads| <= |ordered|
            && p.leads == ordered[lo..lo + |p.leads|]
            && multiset(p.leads) <= multiset(ordered)
  {
    var ordered := SortDesc(MatchingLeads(rows, f), UpdatedAt);
    var p := AllLeads(rows, f);
    if f.page.Some? && f.pageSize.Some? {
      var w := Window(ordered, f.pageSize.value, PageOffset(f.page.value, f.pageSize.value));
      assert p.leads == w;
    } else {
      assert p.leads == ordered;
      assert ordered == ordered[0..|ordered|];
    }
  }

  /** Every listed lead comes from the table and matches every filter. */
  lemma AllLeadsMatch(rows: seq<Lead>, f: LeadFilter)
    ensures forall l :: l in AllLeads(rows, f).leads ==> l in rows && Matches(f, l)
  {
    var p := AllLeads(rows, f);
    AllLeadsWindow(rows, f);
    SortDescMembers(MatchingLeads(rows, f), UpdatedAt);
    forall l | l in p.leads ensures l in rows && Matches(f, l) {
      assert l in multiset(p.leads);
    }
  }

  /** The listing is newest-updated first. */
  lemma AllLeadsOrdered(rows: seq<Lead>, f: LeadFilter)
    ensures SortedDesc(AllLeads(rows, f).leads, UpdatedAt)
  {
    var ordered := SortDesc(MatchingLeads(rows, f), UpdatedAt);
    var w := AllLeads(rows, f).leads;
    AllLeadsWindow(rows, f);
    var lo := PageStart(f, |ordered|);
    SortedDescSlice(ordered, UpdatedAt, lo, lo + |w|);
  }

  /** `total` counts every match, whatever the page. */
  lemma AllLeadsTotal(rows: seq<Lead>, f: LeadFilter)
    ensures AllLeads(rows, f).total == |MatchingLeads(rows, f)|
    ensures AllLeads(rows, f).total == AllLeads(rows, Unpaged(f)).total
  {
    assert forall l :: Matches(f, l) == Matches(Unpaged(f), l);
    assert MatchingLeads(rows, f) == MatchingLeads(rows, Unpaged(f)) by {
      MatchingLeadsIgnoresPaging(rows, f);
    }
  }

  lemma {:induction false} MatchingLeadsIgnoresPaging(rows: seq<Lead>, f: LeadFilter)
    ensures MatchingLeads(rows, f) == MatchingLeads(rows, Unpaged(f))
  {
    if |rows| > 0 { MatchingLeadsIgnoresPaging(rows[1..], f); }
  }

  /** Without paging the listing holds every matching row exactly once; with paging at most page-size rows. */
  lemma AllLeadsComplete(rows: seq<Lead>, f: LeadFilter)
    ensures var p := AllLeads(rows, f);
            && (f.page.None? || f.pageSize.None? ==>
                  multiset(p.leads) == multiset(MatchingLeads(rows, f)) && |p.leads| == p.total)
            && (f.page.Some? && f.pageSize.Some? && f.pageSize.value >= 0 ==> |p.leads| <= f.pageSize.value)
  {
  }

  /** Strictly ascending in code-point order: sorted and free of duplicates. */
  predicate StrictlyAscending(s: seq<string>) {
    forall i, j :: 0 <= i < j < |s| ==> LexLess(s[i], s[j])
  }

  /** Inserts an area into a strictly ascending list unless it is already there. */
  function InsertArea(x: string, s: seq<string>): (r: seq<string>)
    requires StrictlyAscending(s)
    ensures StrictlyAscending(r)
    ensures forall a :: a in r <==> a == x || a in s
  {
    if |s| == 0 then [x]
    else if x == s[0] then s
    else if LexLess(x, s[0]) then
      InsertAreaFront(x, s);
      [x] + s
    else
      LexTotal(x, s[0]);
      var t := InsertArea(x, s[1..]);
      InsertAreaBehind(x, s, t);
      [s[0]] + t
  }

  lemma InsertAreaFront(x: string, s: seq<string>)
    requires StrictlyAscending(s) && |s| > 0 && LexLess(x, s[0])
    ensures StrictlyAscending([x] + s)
  {
    forall j | 0 < j < |s| ensures LexLess(x, s[j]) { LexTransitive(x, s[0], s[j]); }
  }

  lemma InsertAreaBehind(x: string, s: seq<string>, t: seq<string>)
    requires StrictlyAscending(s) && |s| > 0 && LexLess(s[0], x)
    requires StrictlyAscending(t) && forall a :: a in t <==> a == x || a in s[1..]
    ensures StrictlyAscending([s[0]] + t)
  {
    forall j | 0 <= j < |t| ensures LexLess(s[0], t[j]) {
      assert t[j] in t;
      if t[j] != x {
        var k :| 0 <= k < |s[1..]| && s[1..][k] == t[j];
        assert s[k + 1] == t[j];
      }
    }
  }

  /** Some row has this area. */
  predicate HasArea(rows: seq<Lead>, a: string) {
    exists i :: 0 <= i < |rows| && rows[i].area == a
  }

  lemma HasAreaCons(rows: seq<Lead>)
    requires |rows| > 0
    ensures forall a :: HasArea(rows, a) <==> rows[0].area == a || HasArea(rows[1..], a)
  {
    forall a ensures HasArea(rows, a) <==> rows[0].area == a || HasArea(rows[1..], a) {
      if HasArea(rows, a) && rows[0].area != a {
        var i :| 0 <= i < |rows| && rows[i].area == a;
        assert rows[1..][i - 1].area == a;
      }
      if HasArea(rows[1..], a) {
        var i :| 0 <= i < |rows[1..]| && rows[1..][i].area == a;
        assert rows[i + 1].area == a;
      }
    }
  }

  /**
   * `getAllAreas`: the distinct non-empty areas, ascending in SQLite's
   * BINARY order; an area is listed exactly when some row has it.
   */
  function AllAreas(rows: seq<Lead>): (areas: seq<string>)
    ensures StrictlyAscending(areas)
    ensures forall a :: a in areas <==> a != "" && HasArea(rows, a)
  {
    if |rows| == 0 then []
    else
      var rest := AllAreas(rows[1..]);
      HasAreaCons(rows);
      if rows[0].area == "" then rest else InsertArea(rows[0].area, rest)
  }

  /** The leads table, updated in place by `addLead` and `deleteLead`. */
  class LeadTable {
    var rows: seq<Lead>
    var lastId: nat

    ghost predicate Valid()
      reads this
    {
      TableValid(rows, lastId)
    }

    constructor ()
      ensures Valid() && rows == [] && lastId == 0
    {
      rows := [];
      lastId := 0;
    }

    /** `addLead`: upsert by name; returns the id of the written row. */
    method AddLead(input: LeadInput, now: nat) returns (id: int)
      requires Valid()
      modifies this
      ensures Valid()
      ensures var u := Upsert(old(rows), old(lastId), input, now);
              rows == u.rows && lastId == u.lastId && id == u.id
    {
      UpsertValid(rows, lastId, input, now);
      var k := IndexOfName(rows, input.name);
      if k.Some? {
        id := rows[k.value].id;
        rows := rows[k.value := Overwrite(rows[k.value], input, now)];
      } else {
        lastId := lastId + 1;
        id := lastId;
        rows := rows + [NewLead(id, input, now)];
      }
    }

    /** `deleteLead`: removes the row with that id; `deleted` tells whether one existed. */
    method DeleteLead(id: int) returns (deleted: bool)
      requires Valid()
      modifies this
      ensures Valid() && lastId == old(lastId)
      ensures rows == RemoveId(old(rows), id)
      ensures deleted == HasId(old(rows), id)
      ensures |rows| == if deleted then |old(rows)| - 1 else |old(rows)|
    {
      RemoveIdCount(rows, lastId, id);
      RemoveIdValid(rows, lastId, id);
      deleted := HasId(rows, id);
      rows := RemoveId(rows, id);
    }
  }
}
