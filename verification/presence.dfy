/**
 Kolada probing (kolada/client.py, kolada/parsing.py): paginated answers, requests batched to 25
 values per filter, and the years and municipalities for which any observation exists.
 */
module Presence {
  import opened Common

  const MAX_FILTER_VALUES := 25

  // ---- Entries ----------------------------------------------------------------------------------

  /** One gender's reading: whether it has a value and whether it is marked deleted. */
  datatype Reading = NotAnObject | Reading(hasValue: bool, deleted: bool)

  /** One entry of an answer; fields that are missing or of a wrong type are `None`. */
  datatype Entry = Entry(kpi: Option<string>, period: Option<int>, id: Option<string>, readings: Option<seq<Reading>>)

  predicate Live(r: Reading) { r.Reading? && r.hasValue && !r.deleted }

  /** The entry counts: it names a period and an entity, and some reading has a value. */
  predicate Counts(e: Entry) {
    e.period.Some? && e.id.Some? && e.readings.Some? && exists r :: r in e.readings.value && Live(r)
  }

  function YearsIn(entries: seq<Entry>): set<int> {
    set e | e in entries && Counts(e) :: e.period.value
  }

  function IdsIn(entries: seq<Entry>): set<string> {
    set e | e in entries && Counts(e) :: e.id.value
  }

  /** `any(...)` over the readings of an entry. */
  method AnyLive(readings: seq<Reading>) returns (any: bool)
    ensures any <==> exists r :: r in readings && Live(r)
  {
    var i := 0;
    while i < |readings|
      invariant 0 <= i <= |readings|
      invariant forall r :: r in readings[..i] ==> !Live(r)
    {
      if Live(readings[i]) {
        return true;
      }
      i := i + 1;
    }
    any := false;
  }

  method ExtractPresence(entries: seq<Entry>) returns (years: set<int>, ids: set<string>)
    ensures years == YearsIn(entries) && ids == IdsIn(entries)
  {
    years, ids := {}, {};
    var i := 0;
    while i < |entries|
      invariant 0 <= i <= |entries|
      invariant years == YearsIn(entries[..i]) && ids == IdsIn(entries[..i])
    {
      var e := entries[i];
      assert entries[..i + 1] == entries[..i] + [e];
      PresenceDistributes(entries[..i], [e]);
      PresenceOfOne(e);
      if e.period.Some? && e.id.Some? && e.readings.Some? {
        var any := AnyLive(e.readings.value);
        if any {
          years, ids := years + {e.period.value}, ids + {e.id.value};
        }
      }
      i := i + 1;
    }
    assert entries[..i] == entries;
  }

  lemma PresenceOfOne(e: Entry)
    ensures YearsIn([e]) == if Counts(e) then {e.period.value} else {}
    ensures IdsIn([e]) == if Counts(e) then {e.id.value} else {}
  {
    if Counts(e) {
      assert e in [e];
      assert e.period.value in YearsIn([e]) && e.id.value in IdsIn([e]);
    }
  }

  /** What is present in two answers together is what is present in either. */
  lemma PresenceDistributes(a: seq<Entry>, b: seq<Entry>)
    ensures YearsIn(a + b) == YearsIn(a) + YearsIn(b)
    ensures IdsIn(a + b) == IdsIn(a) + IdsIn(b)
  {
    assert forall e :: e in a + b <==> e in a || e in b;
  }

  // ---- Pagination -------------------------------------------------------------------------------

  datatype Link = NoLink | BadLink | Link(href: string)

  /** An answered page: anything malformed, or a list of entries and the link to the next page. */
  datatype Page = Malformed | Page(values: seq<Entry>, link: Link)

  /** The upstream: the pages it answers; a url without a page is a failed request. */
  type Pages = map<string, Page>

  datatype Failure = Cycle | BadPage | NoAnswer

  /** `urljoin` */
  type Join = (string, string) -> string

  predicate Usable(pages: Pages, url: string) {
    url in pages && pages[url].Page? && !pages[url].link.BadLink?
  }

  /** The url of the following page, "" at the last one. */
  function NextUrl(join: Join, pages: Pages, url: string): string
    requires Usable(pages, url)
  {
    match pages[url].link
    case NoLink => ""
    case Link(href) => join(url, href)
  }

  /** Starting at `url` and following every link, one reads the pages `walked` and arrives at `next`. */
  ghost predicate Walked(join: Join, pages: Pages, url: string, walked: seq<string>, next: string)
    decreases |walked|
  {
    if walked == [] then next == url
    else
      && url != "" && walked[0] == url && Usable(pages, url)
      && Walked(join, pages, NextUrl(join, pages, url), walked[1..], next)
  }

  /** A complete list of pages ends at a page without a link. */
  ghost predicate Chain(join: Join, pages: Pages, url: string, chain: seq<string>) {
    Walked(join, pages, url, chain, "")
  }

  /** The values of all pages of a list, in order. */
  ghost function Values(pages: Pages, chain: seq<string>): seq<Entry>
    requires forall u :: u in chain ==> Usable(pages, u)
  {
    if chain == [] then []
    else
      var last := chain[|chain| - 1];
      assert last in chain && Usable(pages, last);
      Values(pages, chain[..|chain| - 1]) + pages[last].values
  }

  /** Two walks from one url read the same pages as long as both go on. */
  lemma {:induction false} WalksAgree(join: Join, pages: Pages, url: string, walked: seq<string>, next: string,
                                      chain: seq<string>)
    requires Walked(join, pages, url, walked, next) && Chain(join, pages, url, chain)
    ensures |walked| <= |chain| && chain[..|walked|] == walked && Chain(join, pages, next, chain[|walked|..])
    decreases |walked|
  {
    if walked != [] {
      WalksAgree(join, pages, NextUrl(join, pages, url), walked[1..], next, chain[1..]);
      assert chain[1..][|walked| - 1..] == chain[|walked|..];
      assert chain[..|walked|] == [chain[0]] + chain[1..][..|walked| - 1];
    }
  }

  lemma {:induction false} WalkGoesOn(join: Join, pages: Pages, url: string, walked: seq<string>, next: string)
    requires Walked(join, pages, url, walked, next) && next != "" && Usable(pages, next)
    ensures Walked(join, pages, url, walked + [next], NextUrl(join, pages, next))
    decreases |walked|
  {
    if walked != [] {
      WalkGoesOn(join, pages, NextUrl(join, pages, url), walked[1..], next);
      assert (walked + [next])[1..] == walked[1..] + [next];
    }
  }

  /** A walk up to any of its pages. */
  lemma {:induction false} WalkUpTo(join: Join, pages: Pages, url: string, walked: seq<string>, next: string, i: nat)
    requires Walked(join, pages, url, walked, next) && i < |walked|
    ensures Walked(join, pages, url, walked[..i], walked[i])
    decreases |walked|
  {
    if i > 0 {
      WalkUpTo(join, pages, NextUrl(join, pages, url), walked[1..], next, i - 1);
      assert walked[1..][..i - 1] == walked[..i][1..];
    }
  }

  /** A page read before is never reached again on the way to the end: complete lists have no cycle. */
  lemma RevisitedNeverEnds(join: Join, pages: Pages, url: string, walked: seq<string>, next: string, chain: seq<string>)
    requires Walked(join, pages, url, walked, next) && next in walked
    ensures !Chain(join, pages, url, chain)
  {
    if Chain(join, pages, url, chain) {
      var i :| 0 <= i < |walked| && walked[i] == next;
      WalkUpTo(join, pages, url, walked, next, i);
      WalksAgree(join, pages, url, walked[..i], next, chain);
      WalksAgree(join, pages, url, walked, next, chain);
      WalksAgree(join, pages, next, chain[i..], "", chain[|walked|..]);
    }
  }

  lemma UnusableNeverEnds(join: Join, pages: Pages, url: string, walked: seq<string>, next: string, chain: seq<string>)
    requires Walked(join, pages, url, walked, next) && next != "" && !Usable(pages, next)
    ensures !Chain(join, pages, url, chain)
  {
    if Chain(join, pages, url, chain) {
      WalksAgree(join, pages, url, walked, next, chain);
    }
  }

  /** The pages of a list are usable and these are their values. */
  ghost predicate Listed(pages: Pages, chain: seq<string>, values: seq<Entry>) {
    (forall u :: u in chain ==> Usable(pages, u)) && values == Values(pages, chain)
  }

  lemma ListedGoesOn(pages: Pages, chain: seq<string>, values: seq<Entry>, next: string)
    requires Listed(pages, chain, values) && Usable(pages, next)
    ensures Listed(pages, chain + [next], values + pages[next].values)
  {
    assert (chain + [next])[..|chain|] == chain;
  }

  /** `get_paginated_values`: all pages of the list, or a failure exactly when there is no complete list. */
  method GetPaginatedValues(join: Join, pages: Pages, url: string) returns (r: Result<seq<Entry>, Failure>)
    ensures r.Ok? ==> exists chain :: Chain(join, pages, url, chain) && Listed(pages, chain, r.value)
    ensures r.Err? ==> forall chain :: !Chain(join, pages, url, chain)
  {
    hide Listed;
    var values: seq<Entry> := [];
    var seen: set<string> := {};
    ghost var walked: seq<string> := [];
    assert Listed(pages, walked, values) by { NothingListed(pages); }
    var next := url;
    while next != ""
      invariant seen == Elements(walked) && seen <= pages.Keys
      invariant Walked(join, pages, url, walked, next)
      invariant Listed(pages, walked, values)
      decreases |pages.Keys - seen|
    {
      if next in seen {
        forall chain ensures !Chain(join, pages, url, chain) {
          RevisitedNeverEnds(join, pages, url, walked, next, chain);
        }
        return Err(Cycle);
      }
      if !Usable(pages, next) {
        forall chain ensures !Chain(join, pages, url, chain) {
          UnusableNeverEnds(join, pages, url, walked, next, chain);
        }
        return Err(if next in pages then BadPage else NoAnswer);
      }
      ListedGoesOn(pages, walked, values, next);
      WalkGoesOn(join, pages, url, walked, next);
      ElementsAppend(walked, next);
      assert pages.Keys - seen == (pages.Keys - (seen + {next})) + {next};
      seen := seen + {next};
      values := values + pages[next].values;
      walked := walked + [next];
      next := NextUrl(join, pages, next);
    }
    assert Chain(join, pages, url, walked);
    r := Ok(values);
  }

  lemma NothingListed(pages: Pages)
    ensures Listed(pages, [], [])
  {
  }

  // ---- Batches ----------------------------------------------------------------------------------

  /** `[values[i : i + limit] for i in range(0, len(values), limit)]` */
  function BatchValues<T>(values: seq<T>, limit: nat): (batches: seq<seq<T>>)
    requires limit >= 1
  {
    if values == [] then []
    else [values[..Min(limit, |values|)]] + BatchValues(values[Min(limit, |values|)..], limit)
  }

  /** Every municipality batch with every year batch, municipalities outermost. */
  function Products<M, Y>(rows: seq<seq<M>>, columns: seq<seq<Y>>): seq<(seq<M>, seq<Y>)> {
    if rows == [] then [] else RowProducts(rows[0], columns) + Products(rows[1..], columns)
  }

  function RowProducts<M, Y>(row: seq<M>, columns: seq<seq<Y>>): seq<(seq<M>, seq<Y>)> {
    if columns == [] then [] else [(row, columns[0])] + RowProducts(row, columns[1..])
  }

  function BuildDataRequestBatches<M, Y>(municipalities: seq<M>, years: seq<Y>): seq<(seq<M>, seq<Y>)> {
    Products(BatchValues(municipalities, MAX_FILTER_VALUES), BatchValues(years, MAX_FILTER_VALUES))
  }

  lemma {:induction false} BatchesWithinLimit<T>(values: seq<T>, limit: nat)
    requires limit >= 1
    ensures forall b :: b in BatchValues(values, limit) ==> 1 <= |b| <= limit
    decreases |values|
  {
    if values != [] {
      BatchesWithinLimit(values[Min(limit, |values|)..], limit);
    }
  }

  lemma {:induction false} ProductsPair<M, Y>(rows: seq<seq<M>>, columns: seq<seq<Y>>, b: (seq<M>, seq<Y>))
    requires b in Products(rows, columns)
    ensures b.0 in rows && b.1 in columns
  {
    if b in RowProducts(rows[0], columns) {
      RowProductsPair(rows[0], columns, b);
    } else {
      ProductsPair(rows[1..], columns, b);
    }
  }

  lemma {:induction false} RowProductsPair<M, Y>(row: seq<M>, columns: seq<seq<Y>>, b: (seq<M>, seq<Y>))
    requires b in RowProducts(row, columns)
    ensures b.0 == row && b.1 in columns
  {
    if b != (row, columns[0]) {
      RowProductsPair(row, columns[1..], b);
    }
  }

  /** No request exceeds 25 values in either filter, and none is empty. */
  lemma RequestsWithinLimit<M, Y>(municipalities: seq<M>, years: seq<Y>, b: (seq<M>, seq<Y>))
    requires b in BuildDataRequestBatches(municipalities, years)
    ensures 1 <= |b.0| <= 25 && 1 <= |b.1| <= 25
  {
    ProductsPair(BatchValues(municipalities, MAX_FILTER_VALUES), BatchValues(years, MAX_FILTER_VALUES), b);
    BatchesWithinLimit(municipalities, MAX_FILTER_VALUES);
    BatchesWithinLimit(years, MAX_FILTER_VALUES);
  }

  /** How often a row makes the pair `p` with some columns, and how often a rectangle holds it. */
  ghost function InRow<M, Y>(m: M, years: seq<Y>, p: (M, Y)): nat {
    if years == [] then 0 else (if (m, years[0]) == p then 1 else 0) + InRow(m, years[1..], p)
  }

  ghost function InRectangle<M, Y>(municipalities: seq<M>, years: seq<Y>, p: (M, Y)): nat {
    if municipalities == [] then 0 else InRow(municipalities[0], years, p) + InRectangle(municipalities[1..], years, p)
  }

  /** How often all requests together ask for `p`. */
  ghost function Requested<M, Y>(batches: seq<(seq<M>, seq<Y>)>, p: (M, Y)): nat {
    if batches == [] then 0 else InRectangle(batches[0].0, batches[0].1, p) + Requested(batches[1..], p)
  }

  lemma {:induction false} RequestedAppend<M, Y>(a: seq<(seq<M>, seq<Y>)>, b: seq<(seq<M>, seq<Y>)>, p: (M, Y))
    ensures Requested(a + b, p) == Requested(a, p) + Requested(b, p)
  {
    if a == [] {
      assert a + b == b;
    } else {
      RequestedAppend(a[1..], b, p);
      assert (a + b)[1..] == a[1..] + b;
    }
  }

  lemma {:induction false} InRowAppend<M, Y>(m: M, a: seq<Y>, b: seq<Y>, p: (M, Y))
    ensures InRow(m, a + b, p) == InRow(m, a, p) + InRow(m, b, p)
  {
    if a == [] {
      assert a + b == b;
    } else {
      InRowAppend(m, a[1..], b, p);
      assert (a + b)[1..] == a[1..] + b;
    }
  }

  lemma {:induction false} MoreYears<M, Y>(municipalities: seq<M>, a: seq<Y>, b: seq<Y>, p: (M, Y))
    ensures InRectangle(municipalities, a + b, p)
              == InRectangle(municipalities, a, p) + InRectangle(municipalities, b, p)
  {
    if municipalities != [] {
      MoreYears(municipalities[1..], a, b, p);
      InRowAppend(municipalities[0], a, b, p);
    }
  }

  lemma {:induction false} MoreMunicipalities<M, Y>(a: seq<M>, b: seq<M>, years: seq<Y>, p: (M, Y))
    ensures InRectangle(a + b, years, p) == InRectangle(a, years, p) + InRectangle(b, years, p)
  {
    if a == [] {
      assert a + b == b;
    } else {
      MoreMunicipalities(a[1..], b, years, p);
      assert (a + b)[1..] == a[1..] + b;
    }
  }

  lemma {:induction false} NoYears<M, Y>(municipalities: seq<M>, p: (M, Y))
    ensures InRectangle<M, Y>(municipalities, [], p) == 0
  {
    if municipalities != [] {
      NoYears<M, Y>(municipalities[1..], p);
    }
  }

  lemma {:induction false} RowCovered<M, Y>(row: seq<M>, years: seq<Y>, limit: nat, p: (M, Y))
    requires limit >= 1
    ensures Requested(RowProducts(row, BatchValues(years, limit)), p) == InRectangle(row, years, p)
    decreases |years|
  {
    if years == [] {
      NoYears<M, Y>(row, p);
    } else {
      var n := Min(limit, |years|);
      RowCovered(row, years[n..], limit, p);
      MoreYears(row, years[..n], years[n..], p);
      assert years == years[..n] + years[n..];
      var first := RowProducts(row, BatchValues(years, limit));
      assert BatchValues(years, limit)[1..] == BatchValues(years[n..], limit);
      assert first[1..] == RowProducts(row, BatchValues(years[n..], limit));
    }
  }

  lemma {:induction false} AllCovered<M, Y>(municipalities: seq<M>, years: seq<Y>, limit: nat, p: (M, Y))
    requires limit >= 1
    ensures Requested(Products(BatchValues(municipalities, limit), BatchValues(years, limit)), p)
         == InRectangle(municipalities, years, p)
    decreases |municipalities|
  {
    if municipalities != [] {
      var n := Min(limit, |municipalities|);
      var rows, columns := BatchValues(municipalities, limit), BatchValues(years, limit);
      AllCovered(municipalities[n..], years, limit, p);
      RowCovered(municipalities[..n], years, limit, p);
      MoreMunicipalities(municipalities[..n], municipalities[n..], years, p);
      assert municipalities == municipalities[..n] + municipalities[n..];
      assert rows[1..] == BatchValues(municipalities[n..], limit);
      RequestedAppend(RowProducts(rows[0], columns), Products(rows[1..], columns), p);
    }
  }

  /** The requests ask for every pair of the rectangle exactly as often as it occurs there. */
  lemma RequestsCoverOnce<M, Y>(municipalities: seq<M>, years: seq<Y>, p: (M, Y))
    ensures Requested(BuildDataRequestBatches(municipalities, years), p) == InRectangle(municipalities, years, p)
  {
    AllCovered(municipalities, years, MAX_FILTER_VALUES, p);
  }

  lemma {:induction false} InRowIff<M, Y>(m: M, years: seq<Y>, p: (M, Y))
    ensures InRow(m, years, p) > 0 <==> p.0 == m && p.1 in years
  {
    if years != [] {
      InRowIff(m, years[1..], p);
    }
  }

  lemma {:induction false} InRectangleIff<M, Y>(municipalities: seq<M>, years: seq<Y>, p: (M, Y))
    ensures InRectangle(municipalities, years, p) > 0 <==> p.0 in municipalities && p.1 in years
  {
    if municipalities != [] {
      InRectangleIff(municipalities[1..], years, p);
      InRowIff(municipalities[0], years, p);
    }
  }

  lemma {:induction false} RequestedIff<M, Y>(batches: seq<(seq<M>, seq<Y>)>, p: (M, Y))
    ensures Requested(batches, p) > 0 <==> exists b :: b in batches && p.0 in b.0 && p.1 in b.1
  {
    if batches != [] {
      RequestedIff(batches[1..], p);
      InRectangleIff(batches[0].0, batches[0].1, p);
      assert batches == [batches[0]] + batches[1..];
    }
  }

  /** A pair is asked for by some request exactly when it lies in the rectangle. */
  lemma SomeRequestAsks<M, Y>(municipalities: seq<M>, years: seq<Y>, m: M, y: Y)
    ensures (exists b :: b in BuildDataRequestBatches(municipalities, years) && m in b.0 && y in b.1)
        <==> m in municipalities && y in years
  {
    RequestsCoverOnce(municipalities, years, (m, y));
    RequestedIff(BuildDataRequestBatches(municipalities, years), (m, y));
    InRectangleIff(municipalities, years, (m, y));
  }

  // ---- The probe --------------------------------------------------------------------------------

  /** `_data_url` */
  type DataUrl = (seq<string>, seq<int>) -> string

  predicate Inside(e: Entry, municipalities: seq<string>, years: seq<int>) {
    e.period.Some? && e.id.Some? && e.period.value in years && e.id.value in municipalities
  }

  /**
   The upstream's promise about some requests: each one whose list of pages can be read to the end
   brings exactly the live observations inside its rectangle.
   */
  ghost predicate Honest(join: Join, pages: Pages, urlOf: DataUrl, batches: seq<(seq<string>, seq<int>)>,
                         data: seq<Entry>) {
    forall b, chain, values ::
      b in batches && Chain(join, pages, urlOf(b.0, b.1), chain) && Listed(pages, chain, values) ==>
        Brings(values, data, b.0, b.1)
  }

  ghost predicate Brings(values: seq<Entry>, data: seq<Entry>, municipalities: seq<string>, years: seq<int>) {
    forall e :: Counts(e) ==> (e in values <==> e in data && Inside(e, municipalities, years))
  }

  /** The years and municipalities with any live observation in the rectangle, read off directly. */
  function YearsWithData(data: seq<Entry>, municipalities: seq<string>, years: seq<int>): set<int> {
    set e | e in data && Counts(e) && Inside(e, municipalities, years) :: e.period.value
  }

  function MunicipalitiesWithData(data: seq<Entry>, municipalities: seq<string>, years: seq<int>): set<string> {
    set e | e in data && Counts(e) && Inside(e, municipalities, years) :: e.id.value
  }

  lemma BroughtPresence(values: seq<Entry>, data: seq<Entry>, municipalities: seq<string>, years: seq<int>)
    requires Brings(values, data, municipalities, years)
    ensures YearsIn(values) == YearsWithData(data, municipalities, years)
    ensures IdsIn(values) == MunicipalitiesWithData(data, municipalities, years)
  {
    hide Counts, Inside;
  }

  ghost function YearsOver(data: seq<Entry>, batches: seq<(seq<string>, seq<int>)>): set<int> {
    if batches == [] then {}
    else YearsOver(data, batches[..|batches| - 1])
         + YearsWithData(data, batches[|batches| - 1].0, batches[|batches| - 1].1)
  }

  ghost function MunicipalitiesOver(data: seq<Entry>, batches: seq<(seq<string>, seq<int>)>): set<string> {
    if batches == [] then {}
    else MunicipalitiesOver(data, batches[..|batches| - 1])
         + MunicipalitiesWithData(data, batches[|batches| - 1].0, batches[|batches| - 1].1)
  }

  ghost predicate InsideSome(e: Entry, batches: seq<(seq<string>, seq<int>)>) {
    exists b :: b in batches && Inside(e, b.0, b.1)
  }

  lemma InsideSomeSplit(e: Entry, batches: seq<(seq<string>, seq<int>)>)
    requires batches != []
    ensures InsideSome(e, batches) <==>
              InsideSome(e, batches[..|batches| - 1]) || Inside(e, batches[|batches| - 1].0, batches[|batches| - 1].1)
  {
    hide Inside;
    assert batches == batches[..|batches| - 1] + [batches[|batches| - 1]];
  }

  lemma {:induction false} OverIff(data: seq<Entry>, batches: seq<(seq<string>, seq<int>)>)
    ensures YearsOver(data, batches) == set e | e in data && Counts(e) && InsideSome(e, batches) :: e.period.value
    ensures MunicipalitiesOver(data, batches) == set e | e in data && Counts(e) && InsideSome(e, batches) :: e.id.value
  {
    hide Counts, Inside, InsideSome;
    if batches == [] {
      forall e ensures !InsideSome(e, batches) { InsideNone(e); }
    } else {
      OverIff(data, batches[..|batches| - 1]);
      forall e ensures InsideSome(e, batches) <==>
                InsideSome(e, batches[..|batches| - 1]) || Inside(e, batches[|batches| - 1].0, batches[|batches| - 1].1)
      {
        InsideSomeSplit(e, batches);
      }
    }
  }

  lemma InsideNone(e: Entry)
    ensures !InsideSome(e, [])
  {
  }

  lemma InsideSomeRequest(e: Entry, municipalities: seq<string>, years: seq<int>)
    ensures InsideSome(e, BuildDataRequestBatches(municipalities, years)) <==> Inside(e, municipalities, years)
  {
    var batches := BuildDataRequestBatches(municipalities, years);
    if e.period.Some? && e.id.Some? {
      SomeRequestAsks(municipalities, years, e.id.value, e.period.value);
      assert InsideSome(e, batches) <==> exists b :: b in batches && e.id.value in b.0 && e.period.value in b.1;
    }
  }

  /** Presence found request by request is presence in the whole rectangle. */
  lemma OverAllRequests(data: seq<Entry>, municipalities: seq<string>, years: seq<int>)
    ensures YearsOver(data, BuildDataRequestBatches(municipalities, years))
              == YearsWithData(data, municipalities, years)
    ensures MunicipalitiesOver(data, BuildDataRequestBatches(municipalities, years))
         == MunicipalitiesWithData(data, municipalities, years)
  {
    var batches := BuildDataRequestBatches(municipalities, years);
    OverIff(data, batches);
    hide Counts, Inside, InsideSome, BuildDataRequestBatches, YearsOver, MunicipalitiesOver;
    forall e ensures InsideSome(e, batches) <==> Inside(e, municipalities, years) {
      InsideSomeRequest(e, municipalities, years);
    }
  }

  /** The pages of one request can be read to the end. */
  ghost predicate Readable(join: Join, pages: Pages, url: string) {
    exists chain :: Chain(join, pages, url, chain)
  }

  lemma AnswerPresence(join: Join, pages: Pages, urlOf: DataUrl, batches: seq<(seq<string>, seq<int>)>,
                       b: (seq<string>, seq<int>), values: seq<Entry>, data: seq<Entry>)
    requires b in batches && Honest(join, pages, urlOf, batches, data)
    requires exists chain :: Chain(join, pages, urlOf(b.0, b.1), chain) && Listed(pages, chain, values)
    ensures YearsIn(values) == YearsWithData(data, b.0, b.1) && IdsIn(values) == MunicipalitiesWithData(data, b.0, b.1)
  {
    hide Chain, Listed, Brings;
    BroughtPresence(values, data, b.0, b.1);
  }

  /**
   `fetch_year_and_municipality_presence`: if the upstream answers the requests made here honestly,
   the result is the direct one; it fails exactly when some request cannot be read to the end.
   */
  method FetchPresence(join: Join, pages: Pages, urlOf: DataUrl, municipalities: seq<string>, years: seq<int>,
                       ghost data: seq<Entry>)
    returns (r: Result<(set<int>, set<string>), Failure>)
    ensures r.Ok? <==>
              forall b :: b in BuildDataRequestBatches(municipalities, years) ==> Readable(join, pages, urlOf(b.0, b.1))
    ensures r.Ok? && Honest(join, pages, urlOf, BuildDataRequestBatches(municipalities, years), data) ==>
              r.value == (YearsWithData(data, municipalities, years),
                          MunicipalitiesWithData(data, municipalities, years))
  {
    hide Chain, Honest, YearsWithData, MunicipalitiesWithData, YearsIn, IdsIn, Listed;
    var batches := BuildDataRequestBatches(municipalities, years);
    OverAllRequests(data, municipalities, years);
    if municipalities == [] || years == [] {
      NothingToAsk(municipalities, years);
      return Ok(({}, {}));
    }
    hide BuildDataRequestBatches;
    var yearsFound: set<int>, municipalitiesFound: set<string> := {}, {};
    var k := 0;
    while k < |batches|
      invariant 0 <= k <= |batches|
      invariant forall b :: b in batches[..k] ==> Readable(join, pages, urlOf(b.0, b.1))
      invariant Honest(join, pages, urlOf, batches, data) ==>
                  yearsFound == YearsOver(data, batches[..k])
                      && municipalitiesFound == MunicipalitiesOver(data, batches[..k])
    {
      var b := batches[k];
      assert b in batches;
      var answer := GetPaginatedValues(join, pages, urlOf(b.0, b.1));
      if answer.Err? {
        return Err(answer.error);
      }
      var someYears, someIds := ExtractPresence(answer.value);
      if Honest(join, pages, urlOf, batches, data) {
        AnswerPresence(join, pages, urlOf, batches, b, answer.value, data);
      }
      assert batches[..k + 1] == batches[..k] + [b];
      yearsFound, municipalitiesFound := yearsFound + someYears, municipalitiesFound + someIds;
      k := k + 1;
    }
    assert batches[..k] == batches;
    r := Ok((yearsFound, municipalitiesFound));
  }

  lemma {:induction false} NoColumns<M, Y>(rows: seq<seq<M>>)
    ensures Products<M, Y>(rows, []) == []
  {
    if rows != [] {
      NoColumns<M, Y>(rows[1..]);
    }
  }

  lemma NothingToAsk(municipalities: seq<string>, years: seq<int>)
    requires municipalities == [] || years == []
    ensures BuildDataRequestBatches(municipalities, years) == []
  {
    if years == [] {
      NoColumns<string, int>(BatchValues(municipalities, MAX_FILTER_VALUES));
    }
  }

  // ---- The promise can be kept ------------------------------------------------------------------

  function Decimal(n: nat): string {
    if n < 10 then ["0123456789"[n]] else Decimal(n / 10) + ["0123456789"[n % 10]]
  }

  /** `str(year)` */
  function YearText(y: int): string { if y < 0 then "-" + Decimal(-y) else Decimal(y) }

  function YearTexts(years: seq<int>): seq<string> {
    seq(|years|, i requires 0 <= i < |years| => YearText(years[i]))
  }

  /** `",".join(parts)` */
  function Commas(parts: seq<string>): string {
    if parts == [] then "" else if |parts| == 1 then parts[0] else parts[0] + [','] + Commas(parts[1..])
  }

  /** `_data_url`, `prefix` being all of the url up to the municipalities. */
  function UrlFor(prefix: string, municipalities: seq<string>, years: seq<int>): string {
    prefix + (Commas(municipalities) + ['/'] + ("year/" + Commas(YearTexts(years))))
  }

  /** An id that is no separator of the url. */
  predicate Plain(id: string) { ',' !in id && '/' !in id }

  predicate AllPlain(ids: seq<string>) { forall i :: 0 <= i < |ids| ==> Plain(ids[i]) }

  /** A text is split at its first separator in one way only. */
  lemma SplitOnce(c: char, x: string, r: string, y: string, q: string)
    requires c !in x && c !in y && x + [c] + r == y + [c] + q
    ensures x == y && r == q
  {
    var s := x + [c] + r;
    assert s[|x|] == c && s[|y|] == c;
    assert forall i :: 0 <= i < |x| ==> s[i] == x[i] && x[i] in x;
    assert forall i :: 0 <= i < |y| ==> s[i] == y[i] && y[i] in y;
    assert |x| == |y|;
    assert s[..|x|] == x && s[..|y|] == y;
    assert s[|x| + 1..] == r && s[|y| + 1..] == q;
  }

  lemma {:induction false} DecimalDigits(n: nat)
    ensures Decimal(n) != [] && '-' !in Decimal(n) && Plain(Decimal(n))
  {
    if n >= 10 {
      DecimalDigits(n / 10);
    }
  }

  lemma {:induction false} DecimalInjective(m: nat, n: nat)
    requires Decimal(m) == Decimal(n)
    ensures m == n
    decreases m
  {
    DecimalDigits(m / 10);
    DecimalDigits(n / 10);
    if m >= 10 && n >= 10 {
      var a, b := Decimal(m), Decimal(n);
      assert a[..|a| - 1] == Decimal(m / 10) && b[..|b| - 1] == Decimal(n / 10);
      DecimalInjective(m / 10, n / 10);
      SameDigit(a[|a| - 1], m % 10, n % 10);
    } else if m < 10 && n < 10 {
      SameDigit(Decimal(m)[0], m, n);
    }
  }

  lemma SameDigit(c: char, m: nat, n: nat)
    requires m < 10 && n < 10 && "0123456789"[m] == c == "0123456789"[n]
    ensures m == n
  {
  }

  lemma SignShows(x: int, y: int)
    requires x < 0 <= y
    ensures YearText(x) != YearText(y)
  {
    DecimalDigits(y);
    assert YearText(x)[0] == '-';
  }

  lemma YearTextInjective(x: int, y: int)
    requires YearText(x) == YearText(y)
    ensures x == y
  {
    hide Decimal;
    if x < 0 && y < 0 {
      assert YearText(x)[1..] == Decimal(-x) && YearText(y)[1..] == Decimal(-y);
      DecimalInjective(-x, -y);
    } else if x >= 0 && y >= 0 {
      DecimalInjective(x, y);
    } else {
      SignShows(Min(x, y), Max(x, y));
    }
  }

  lemma {:induction false} CommasNoSlash(parts: seq<string>)
    requires AllPlain(parts)
    ensures '/' !in Commas(parts)
  {
    if |parts| > 1 {
      CommasNoSlash(parts[1..]);
    }
  }

  lemma CommaShows(parts: seq<string>)
    requires AllPlain(parts) && parts != []
    ensures ',' in Commas(parts) <==> |parts| > 1
  {
    assert Plain(parts[0]);
    if |parts| > 1 {
      assert Commas(parts)[|parts[0]|] == ',';
    }
  }

  lemma {:induction false} CommasInjective(a: seq<string>, b: seq<string>)
    requires AllPlain(a) && AllPlain(b) && a != [] && b != [] && Commas(a) == Commas(b)
    ensures a == b
  {
    CommaShows(a);
    CommaShows(b);
    assert Plain(a[0]) && Plain(b[0]);
    if |a| > 1 && |b| > 1 {
      SplitOnce(',', a[0], Commas(a[1..]), b[0], Commas(b[1..]));
      CommasInjective(a[1..], b[1..]);
      assert a == [a[0]] + a[1..] && b == [b[0]] + b[1..];
    }
  }

  lemma YearTextsPlain(years: seq<int>)
    ensures AllPlain(YearTexts(years))
  {
    forall i | 0 <= i < |years| ensures Plain(YearTexts(years)[i]) {
      DecimalDigits(if years[i] < 0 then -years[i] else years[i]);
    }
  }

  lemma YearTextsInjective(a: seq<int>, b: seq<int>)
    requires YearTexts(a) == YearTexts(b)
    ensures a == b
  {
    assert |YearTexts(a)| == |a| && |YearTexts(b)| == |b|;
    forall i | 0 <= i < |a| ensures a[i] == b[i] {
      assert YearTexts(a)[i] == YearTexts(b)[i];
      YearTextInjective(a[i], b[i]);
    }
  }

  /** Different requests have different urls as long as no id contains a separator. */
  lemma UrlsDiffer(prefix: string, b: (seq<string>, seq<int>), d: (seq<string>, seq<int>))
    requires AllPlain(b.0) && AllPlain(d.0) && b.0 != [] && b.1 != [] && d.0 != [] && d.1 != []
    requires UrlFor(prefix, b.0, b.1) == UrlFor(prefix, d.0, d.1)
    ensures b == d
  {
    var x, y := Commas(b.0), Commas(d.0);
    var r, q := "year/" + Commas(YearTexts(b.1)), "year/" + Commas(YearTexts(d.1));
    assert x + ['/'] + r == UrlFor(prefix, b.0, b.1)[|prefix|..];
    assert y + ['/'] + q == UrlFor(prefix, d.0, d.1)[|prefix|..];
    CommasNoSlash(b.0);
    CommasNoSlash(d.0);
    SplitOnce('/', x, r, y, q);
    CommasInjective(b.0, d.0);
    assert r[5..] == Commas(YearTexts(b.1)) && q[5..] == Commas(YearTexts(d.1));
    YearTextsPlain(b.1);
    YearTextsPlain(d.1);
    CommasInjective(YearTexts(b.1), YearTexts(d.1));
    YearTextsInjective(b.1, d.1);
  }

  function Within(data: seq<Entry>, municipalities: seq<string>, years: seq<int>): (r: seq<Entry>)
    ensures forall e :: e in r <==> e in data && Inside(e, municipalities, years)
  {
    if data == [] then []
    else (if Inside(data[0], municipalities, years) then [data[0]] else []) + Within(data[1..], municipalities, years)
  }

  /** An upstream that answers each request with one page of what lies inside its rectangle. */
  function PagesFor(prefix: string, batches: seq<(seq<string>, seq<int>)>, data: seq<Entry>): Pages {
    if batches == [] then map[]
    else
      var b := batches[|batches| - 1];
      PagesFor(prefix, batches[..|batches| - 1], data)[UrlFor(prefix, b.0, b.1) := Page(Within(data, b.0, b.1), NoLink)]
  }

  ghost predicate Proper(batches: seq<(seq<string>, seq<int>)>) {
    forall b :: b in batches ==> b.0 != [] && b.1 != [] && AllPlain(b.0)
  }

  lemma {:induction false} PageOf(prefix: string, batches: seq<(seq<string>, seq<int>)>, data: seq<Entry>,
                                  b: (seq<string>, seq<int>))
    requires Proper(batches) && b in batches
    ensures var pages, url := PagesFor(prefix, batches, data), UrlFor(prefix, b.0, b.1);
            url in pages && pages[url] == Page(Within(data, b.0, b.1), NoLink)
  {
    var front, last := batches[..|batches| - 1], batches[|batches| - 1];
    assert batches == front + [last];
    if UrlFor(prefix, b.0, b.1) == UrlFor(prefix, last.0, last.1) {
      UrlsDiffer(prefix, b, last);
    } else {
      PageOf(prefix, front, data, b);
    }
    hide UrlFor, Within;
  }

  /** A page without a link is a complete list on its own, and the only one from its url. */
  lemma OnePage(join: Join, pages: Pages, url: string, chain: seq<string>)
    requires url != "" && url in pages && pages[url].Page? && pages[url].link.NoLink?
    ensures Chain(join, pages, url, chain) <==> chain == [url]
    ensures Values(pages, [url]) == pages[url].values
  {
    assert [url][1..] == [] && [url][..0] == [];
    assert [] + pages[url].values == pages[url].values;
    assert Walked(join, pages, NextUrl(join, pages, url), [url][1..], "");
    assert Chain(join, pages, url, [url]);
    if Chain(join, pages, url, chain) {
      assert Walked(join, pages, "", chain[1..], "");
      assert chain[1..] == [];
      assert chain == [chain[0]] + chain[1..];
    }
  }

  lemma ProperRequests(municipalities: seq<string>, years: seq<int>)
    requires AllPlain(municipalities)
    ensures Proper(BuildDataRequestBatches(municipalities, years))
  {
    var batches := BuildDataRequestBatches(municipalities, years);
    forall b | b in batches ensures b.0 != [] && b.1 != [] && AllPlain(b.0) {
      RequestsWithinLimit(municipalities, years, b);
      forall i | 0 <= i < |b.0| ensures Plain(b.0[i]) {
        assert b.0[i] in b.0 && b.1[0] in b.1;
        SomeRequestAsks(municipalities, years, b.0[i], b.1[0]);
        assert b.0[i] in municipalities;
      }
    }
  }

  /**
   For the urls the client builds, the promise can be kept: whatever the municipalities, the years
   and the data, some upstream answers all requests to the end and honestly.
   */
  lemma HonestUpstream(join: Join, prefix: string, municipalities: seq<string>, years: seq<int>, data: seq<Entry>)
    returns (pages: Pages)
    requires AllPlain(municipalities)
    ensures var urlOf := (ms, ys) => UrlFor(prefix, ms, ys);
            var batches := BuildDataRequestBatches(municipalities, years);
            && Honest(join, pages, urlOf, batches, data)
            && forall b :: b in batches ==> Readable(join, pages, urlOf(b.0, b.1))
  {
    var batches := BuildDataRequestBatches(municipalities, years);
    ProperRequests(municipalities, years);
    hide BuildDataRequestBatches, Proper;
    pages := PagesFor(prefix, batches, data);
    forall b | b in batches ensures Answers(join, pages, prefix, b, data) {
      PageOf(prefix, batches, data, b);
      OnePageAnswers(join, pages, prefix, b, data);
    }
    hide UrlFor, Chain, Listed, Brings;
  }

  /** The request is answered to the end, and honestly. */
  ghost predicate Answers(join: Join, pages: Pages, prefix: string, b: (seq<string>, seq<int>), data: seq<Entry>) {
    var url := UrlFor(prefix, b.0, b.1);
    && Readable(join, pages, url)
    && forall chain, values :: Chain(join, pages, url, chain) && Listed(pages, chain, values) ==>
        Brings(values, data, b.0, b.1)
  }

  lemma OnePageAnswers(join: Join, pages: Pages, prefix: string, b: (seq<string>, seq<int>), data: seq<Entry>)
    requires var url := UrlFor(prefix, b.0, b.1);
             url in pages && pages[url] == Page(Within(data, b.0, b.1), NoLink)
    ensures Answers(join, pages, prefix, b, data)
  {
    var url := UrlFor(prefix, b.0, b.1);
    assert url != "" by { assert '/' in url; }
    hide UrlFor, Chain;
    OnePage(join, pages, url, [url]);
    forall chain, values | Chain(join, pages, url, chain) && Listed(pages, chain, values)
      ensures Brings(values, data, b.0, b.1)
    {
      OnePage(join, pages, url, chain);
    }
  }

  // ---- What the probe reads, plainly ------------------------------------------------------------

  /** Entry `i` has the period and the id, and its reading `j` has a value and is not deleted. */
  predicate Observed(entries: seq<Entry>, i: nat, j: nat, year: int, id: string) {
    && i < |entries| && entries[i].period == Some(year) && entries[i].id == Some(id)
    && entries[i].readings.Some? && j < |entries[i].readings.value|
    && entries[i].readings.value[j] == Reading(true, false)
  }

  /** A year or an id is present exactly if some entry observes it. */
  lemma PresentExactly(entries: seq<Entry>, year: int, id: string)
    ensures year in YearsIn(entries) <==> exists i: nat, j: nat, x :: Observed(entries, i, j, year, x)
    ensures id in IdsIn(entries) <==> exists i: nat, j: nat, y :: Observed(entries, i, j, y, id)
  {
    forall e | e in entries && Counts(e)
      ensures exists i: nat, j: nat :: Observed(entries, i, j, e.period.value, e.id.value)
    {
      CountsObserved(entries, e);
    }
    forall i: nat, j: nat, y, x | Observed(entries, i, j, y, x) ensures Counts(entries[i]) && entries[i] in entries {
      assert entries[i].readings.value[j] in entries[i].readings.value;
    }
  }

  lemma CountsObserved(entries: seq<Entry>, e: Entry)
    requires e in entries && Counts(e)
    ensures exists i: nat, j: nat :: Observed(entries, i, j, e.period.value, e.id.value)
  {
    var i :| 0 <= i < |entries| && entries[i] == e;
    var r :| r in e.readings.value && Live(r);
    var j :| 0 <= j < |e.readings.value| && e.readings.value[j] == r;
    assert Observed(entries, i, j, e.period.value, e.id.value);
  }

  /** The direct definition: what the data observes at a year and a municipality that were both asked for. */
  lemma DirectlyPresent(data: seq<Entry>, municipalities: seq<string>, years: seq<int>, year: int, id: string)
    ensures year in YearsWithData(data, municipalities, years) <==>
              year in years && exists i: nat, j: nat, x :: x in municipalities && Observed(data, i, j, year, x)
    ensures id in MunicipalitiesWithData(data, municipalities, years) <==>
              id in municipalities && exists i: nat, j: nat, y :: y in years && Observed(data, i, j, y, id)
  {
    forall e | e in data && Counts(e)
      ensures exists i: nat, j: nat :: Observed(data, i, j, e.period.value, e.id.value)
    {
      CountsObserved(data, e);
    }
    forall i: nat, j: nat, y, x | Observed(data, i, j, y, x) ensures Counts(data[i]) && data[i] in data {
      assert data[i].readings.value[j] in data[i].readings.value;
    }
  }

  /** A page whose link, taken relative to its own url, leads to `next`; without a link to nothing. */
  predicate LeadsTo(join: Join, pages: Pages, url: string, next: string) {
    && url in pages && pages[url].Page?
    && match pages[url].link
       case NoLink => next == ""
       case BadLink => false
       case Link(href) => next == join(url, href)
  }

  /** Page `i` of the list leads to the following one, and the last to nothing. */
  predicate StepAt(join: Join, pages: Pages, chain: seq<string>, i: nat)
    requires i < |chain|
  {
    chain[i] != "" && LeadsTo(join, pages, chain[i], if i < |chain| - 1 then chain[i + 1] else "")
  }

  /** A complete list of pages starts at the url and follows every link to its end. */
  lemma {:induction false} ChainStepByStep(join: Join, pages: Pages, url: string, chain: seq<string>)
    ensures Chain(join, pages, url, chain) <==>
      && (if chain == [] then url == "" else chain[0] == url)
      && forall i :: 0 <= i < |chain| ==> StepAt(join, pages, chain, i)
    decreases |chain|
  {
    if chain != [] && Usable(pages, url) {
      var rest := chain[1..];
      ChainStepByStep(join, pages, NextUrl(join, pages, url), rest);
      assert chain[0] == url ==>
          (StepAt(join, pages, chain, 0)
           <==> url != "" && NextUrl(join, pages, url) == if rest == [] then "" else rest[0]);
      forall i | 0 <= i < |rest|
        ensures StepAt(join, pages, rest, i) <==> StepAt(join, pages, chain, i + 1)
      {
        assert chain[i + 1] == rest[i];
      }
      if forall i :: 0 <= i < |rest| ==> StepAt(join, pages, rest, i) {
        forall i | 1 <= i < |chain| ensures StepAt(join, pages, chain, i) {
          assert StepAt(join, pages, rest, i - 1);
        }
      }
      if forall i :: 0 <= i < |chain| ==> StepAt(join, pages, chain, i) {
        forall i | 0 <= i < |rest| ensures StepAt(join, pages, rest, i) {
          assert StepAt(join, pages, chain, i + 1);
        }
      }
    } else if chain != [] {
      assert StepAt(join, pages, chain, 0) && chain[0] == url ==> Usable(pages, url);
    }
  }

  /** The values of a list stand in the order of its pages. */
  lemma {:induction false} ValuesInOrder(pages: Pages, chain: seq<string>, i: nat, k: nat)
    requires forall u :: u in chain ==> Usable(pages, u)
    requires i < |chain| && Usable(pages, chain[i]) && k < |pages[chain[i]].values|
    ensures (forall u :: u in chain[..i] ==> Usable(pages, u))
    ensures var before := |Values(pages, chain[..i])|;
      before + k < |Values(pages, chain)| && Values(pages, chain)[before + k] == pages[chain[i]].values[k]
  {
    var n := |chain| - 1;
    if i < n {
      assert chain[..n][..i] == chain[..i];
      ValuesInOrder(pages, chain[..n], i, k);
    }
  }

  // ---- Which requests are made, plainly ---------------------------------------------------------

  /** How many batches of 25 hold `n` values. */
  function BatchCount(n: nat): nat { (n + 24) / 25 }

  predicate IsBatch<T(==)>(values: seq<T>, i: nat, batch: seq<T>) {
    25 * i < |values| && batch == values[25 * i..Min(25 * (i + 1), |values|)]
  }

  lemma {:induction false} BatchesPlainly<T>(values: seq<T>)
    ensures |BatchValues(values, 25)| == BatchCount(|values|)
    ensures forall i :: 0 <= i < BatchCount(|values|) ==> IsBatch(values, i, BatchValues(values, 25)[i])
    decreases |values|
  {
    if |values| > 25 {
      var rest := values[25..];
      BatchesPlainly(rest);
      forall i | 0 <= i < BatchCount(|values|) ensures IsBatch(values, i, BatchValues(values, 25)[i]) {
        if i > 0 {
          assert IsBatch(rest, i - 1, BatchValues(rest, 25)[i - 1]);
        }
      }
    } else if values != [] {
      assert values[..|values|] == values && values[|values|..] == [];
      assert BatchValues(values, 25) == [values] + BatchValues(values[|values|..], 25);
    }
  }

  lemma {:induction false} RowAt<M, Y>(row: seq<M>, columns: seq<seq<Y>>)
    ensures |RowProducts(row, columns)| == |columns|
    ensures forall c :: 0 <= c < |columns| ==> RowProducts(row, columns)[c] == (row, columns[c])
  {
    if columns != [] {
      RowAt(row, columns[1..]);
    }
  }

  lemma {:induction false} ProductAt<M, Y>(rows: seq<seq<M>>, columns: seq<seq<Y>>, r: nat, c: nat)
    requires r < |rows| && c < |columns|
    ensures |Products(rows, columns)| == |rows| * |columns|
    ensures 0 <= r * |columns| + c < |rows| * |columns|
    ensures Products(rows, columns)[r * |columns| + c] == (rows[r], columns[c])
  {
    ProductSize(rows, columns);
    RowAt(rows[0], columns);
    if r > 0 {
      ProductAt(rows[1..], columns, r - 1, c);
      assert r * |columns| + c == |columns| + ((r - 1) * |columns| + c);
    }
    InGrid(|rows|, |columns|, r, c);
  }

  lemma InGrid(m: nat, n: nat, r: nat, c: nat)
    requires r < m && c < n
    ensures 0 <= r * n + c < m * n
  {
    assert (r + 1) * n <= m * n;
  }

  lemma {:induction false} ProductSize<M, Y>(rows: seq<seq<M>>, columns: seq<seq<Y>>)
    ensures |Products(rows, columns)| == |rows| * |columns|
  {
    if rows != [] {
      RowAt(rows[0], columns);
      ProductSize(rows[1..], columns);
      assert |rows| * |columns| == |columns| + (|rows| - 1) * |columns|;
    }
  }

  /**
   The requests made are one for each 25 municipalities, or fewer at the end, and each 25 years, or fewer at
   the end: as few as the limit allows, and municipality batch by municipality batch.
   */
  lemma RequestsExactly<M, Y>(municipalities: seq<M>, years: seq<Y>, r: nat, c: nat)
    ensures |BuildDataRequestBatches(municipalities, years)| == BatchCount(|municipalities|) * BatchCount(|years|)
    ensures r < BatchCount(|municipalities|) && c < BatchCount(|years|) ==>
      var at := r * BatchCount(|years|) + c; var requests := BuildDataRequestBatches(municipalities, years);
      && 0 <= at < |requests|
      && IsBatch(municipalities, r, requests[at].0) && IsBatch(years, c, requests[at].1)
  {
    var rows, columns := BatchValues(municipalities, 25), BatchValues(years, 25);
    BatchesPlainly(municipalities);
    BatchesPlainly(years);
    ProductSize(rows, columns);
    if r < |rows| && c < |columns| {
      ProductAt(rows, columns, r, c);
    }
    hide BatchValues, Products, IsBatch;
  }
}
