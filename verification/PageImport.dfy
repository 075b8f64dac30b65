/** The page store: batched import of pages from WACZ files, and re-import that keeps review data. */
module PageImport {
  import opened Options

  type PageId = nat
  type CrawlId = nat
  type Url = int

  /** Review data of a page. Values are opaque; an empty set of QA results counts as none. */
  datatype Review = Review(
    qa: Option<nat>, approved: Option<nat>, notes: Option<nat>, userid: Option<nat>, modified: Option<int>)

  const NO_REVIEW := Review(None, None, None, None, None)

  datatype Page = Page(crawl: CrawlId, url: Url, ts: int, isFile: bool, isError: bool, review: Review)

  type Pages = map<PageId, Page>

  /** One line of a page list. id is present when it is a valid UUID; html is about the MIME type, which
      counts as HTML when it is missing. */
  datatype Record = Record(
    id: Option<PageId>,
    url: Option<Url>,
    loadState: Option<int>,
    status: Option<int>,
    html: bool,
    titled: bool,
    ts: Option<int>)

  /** What the environment supplies for one record if it is needed: a random id and the current time. */
  datatype Draw = Draw(uuid: PageId, now: int)

  datatype Entry = Entry(id: PageId, page: Page)

  datatype Counts = Counts(pages: nat, uniquePages: nat, filePages: int, errorPages: int)

  const NO_COUNTS := Counts(0, 0, 0, 0)

  // ------------------------------------------------------------------------------------------
  // Specification of the import
  // ------------------------------------------------------------------------------------------

  function EffectiveStatus(r: Record): Option<int> {
    if (r.status == None || r.status == Some(0)) && r.loadState != None && r.loadState != Some(0)
    then Some(200)
    else r.status
  }

  predicate IsFile(r: Record) {
    r.loadState == Some(2) && (!r.html || (!r.titled && EffectiveStatus(r) == Some(200)))
  }

  function ToEntry(r: Record, crawl: CrawlId, draw: Draw, newUuid: bool): Entry
    requires r.url.Some?
  {
    Entry(if r.id.Some? && !newUuid then r.id.value else draw.uuid,
          Page(crawl, r.url.value, if r.ts.Some? then r.ts.value else draw.now,
               IsFile(r), r.loadState == Some(0), NO_REVIEW))
  }

  /** The records that have a URL, as pages of the crawl, in order. */
  function Entries(crawl: CrawlId, records: seq<Record>, draws: seq<Draw>, newUuid: bool): (es: seq<Entry>)
    requires |records| <= |draws|
    ensures forall i | 0 <= i < |es| :: es[i].page.crawl == crawl && es[i].page.review == NO_REVIEW
  {
    if records == [] then []
    else
      var n := |records| - 1;
      var before := Entries(crawl, records[..n], draws, newUuid);
      if records[n].url.None? then before else before + [ToEntry(records[n], crawl, draws[n], newUuid)]
  }

  /** An insert that leaves pages with an id that is taken alone. */
  function Inserted(pages: Pages, es: seq<Entry>): Pages {
    if es == [] then pages
    else
      var before := Inserted(pages, es[..|es| - 1]);
      var e := es[|es| - 1];
      if e.id in before then before else before[e.id := e.page]
  }

  predicate HasDuplicate(pages: Pages, es: seq<Entry>) {
    exists i | 0 <= i < |es| :: es[i].id in Inserted(pages, es[..i])
  }

  ghost function PagesOf(pages: Pages, crawl: CrawlId): set<PageId> {
    set id | id in pages && pages[id].crawl == crawl
  }

  ghost function Recount(pages: Pages, crawl: CrawlId): Counts {
    Counts(|PagesOf(pages, crawl)|, |UrlsOf(pages, crawl)|, |FilesOf(pages, crawl)|, |ErrorsOf(pages, crawl)|)
  }

  ghost function UrlsOf(pages: Pages, crawl: CrawlId): set<Url> {
    set id | id in PagesOf(pages, crawl) :: pages[id].url
  }

  ghost function FilesOf(pages: Pages, crawl: CrawlId): set<PageId> {
    set id | id in PagesOf(pages, crawl) && pages[id].isFile
  }

  ghost function ErrorsOf(pages: Pages, crawl: CrawlId): set<PageId> {
    set id | id in PagesOf(pages, crawl) && pages[id].isError
  }

  function FileCount(es: seq<Entry>): nat {
    if es == [] then 0 else FileCount(es[..|es| - 1]) + if es[|es| - 1].page.isFile then 1 else 0
  }

  function ErrorCount(es: seq<Entry>): nat {
    if es == [] then 0 else ErrorCount(es[..|es| - 1]) + if es[|es| - 1].page.isError then 1 else 0
  }

  function CountsOf(counts: map<CrawlId, Counts>, crawl: CrawlId): Counts {
    if crawl in counts then counts[crawl] else NO_COUNTS
  }

  /** The interim counters of a batch that went in whole. */
  function Incremented(counts: map<CrawlId, Counts>, crawl: CrawlId, es: seq<Entry>): map<CrawlId, Counts> {
    var c := CountsOf(counts, crawl);
    if FileCount(es) == 0 && ErrorCount(es) == 0 then counts
    else counts[crawl := c.(filePages := c.filePages + FileCount(es), errorPages := c.errorPages + ErrorCount(es))]
  }

  // ------------------------------------------------------------------------------------------
  // How far an import gets
  // ------------------------------------------------------------------------------------------

  /** How many of the first n records have gone into the store, and how many entries are in the buffer. */
  function Progress(records: seq<Record>, batchSize: nat, n: nat): (p: (nat, nat))
    requires n <= |records|
    ensures p.0 <= n
  {
    if n == 0 then (0, 0)
    else
      var (flushed, buffered) := Progress(records, batchSize, n - 1);
      if records[n - 1].url.None? then (flushed, buffered)
      else if buffered > batchSize then (n - 1, 1)
      else (flushed, buffered + 1)
  }

  /** Where an import raises: the stream instead of yielding a record, possibly after the last one, or the
      conversion of a record that has a URL, which comes after a full buffer has been flushed for it. */
  datatype Raise = NoRaise | Reading(at: nat) | Converting(at: nat)

  predicate Possible(r: Raise, records: seq<Record>) {
    match r
    case NoRaise => true
    case Reading(at) => at <= |records|
    case Converting(at) => at < |records| && records[at].url.Some?
  }

  /** How many records have been gone through when it raises. */
  function Handled(r: Raise, records: seq<Record>): (n: nat)
    requires Possible(r, records)
    ensures n <= |records|
  {
    match r
    case NoRaise => |records|
    case Reading(at) => at
    case Converting(at) => at + 1
  }

  /** The records whose pages are in the store after an import; one that gets to the end inserts them all. */
  function Reached(records: seq<Record>, batchSize: nat, r: Raise): (n: nat)
    requires Possible(r, records)
    ensures n <= |records|
  {
    if r == NoRaise then |records| else Progress(records, batchSize, Handled(r, records)).0
  }

  /** The entries of the records from one position to another. */
  function Batch(crawl: CrawlId, records: seq<Record>, draws: seq<Draw>, newUuid: bool, from: nat, to: nat): seq<Entry>
    requires from <= to <= |records| <= |draws|
  {
    var k, es := |Entries(crawl, records[..from], draws, newUuid)|, Entries(crawl, records[..to], draws, newUuid);
    if k <= |es| then es[k..] else []
  }

  /** The interim counters after n records: each batch counts, unless it has a duplicate in it. */
  function Interim(pages: Pages, counts: map<CrawlId, Counts>, crawl: CrawlId, records: seq<Record>, draws: seq<Draw>,
                   newUuid: bool, batchSize: nat, n: nat): map<CrawlId, Counts>
    requires n <= |records| <= |draws|
  {
    if n == 0 then counts
    else
      var before := Interim(pages, counts, crawl, records, draws, newUuid, batchSize, n - 1);
      var (flushed, buffered) := Progress(records, batchSize, n - 1);
      if records[n - 1].url.None? || buffered <= batchSize then before
      else
        var batch := Batch(crawl, records, draws, newUuid, flushed, n - 1);
        if HasDuplicate(Inserted(pages, Entries(crawl, records[..flushed], draws, newUuid)), batch) then before
        else Incremented(before, crawl, batch)
  }

  /** Every entry's id is taken. */
  predicate NoneNew(pages: Pages, es: seq<Entry>) {
    forall i | 0 <= i < |es| :: es[i].id in pages
  }

  /** Only the counters of one crawl have changed. */
  predicate OthersKept(before: map<CrawlId, Counts>, after: map<CrawlId, Counts>, crawl: CrawlId) {
    && before.Keys <= after.Keys <= before.Keys + {crawl}
    && forall c | c in before && c != crawl :: after[c] == before[c]
  }

  lemma OthersAreKept(before: map<CrawlId, Counts>, after: map<CrawlId, Counts>, crawl: CrawlId)
    requires OthersKept(before, after, crawl)
    ensures forall c | c in before && c != crawl :: c in after && after[c] == before[c]
  {
  }

  lemma KeptByNothing(counts: map<CrawlId, Counts>, crawl: CrawlId)
    ensures OthersKept(counts, counts, crawl)
  {
  }

  lemma KeptByIncrements(before: map<CrawlId, Counts>, after: map<CrawlId, Counts>, crawl: CrawlId, es: seq<Entry>)
    requires OthersKept(before, after, crawl)
    ensures OthersKept(before, Incremented(after, crawl, es), crawl)
  {
  }

  lemma KeptByRecount(before: map<CrawlId, Counts>, after: map<CrawlId, Counts>, crawl: CrawlId, c: Counts)
    requires OthersKept(before, after, crawl)
    ensures OthersKept(before, after[crawl := c], crawl)
  {
  }

  lemma InsertedNone(pages: Pages)
    ensures Inserted(pages, []) == pages
  {
  }

  lemma InsertedOneMore(pages: Pages, es: seq<Entry>, i: nat)
    requires i < |es|
    ensures var before := Inserted(pages, es[..i]);
            Inserted(pages, es[..i + 1]) == if es[i].id in before then before else before[es[i].id := es[i].page]
  {
    assert es[..i + 1][..i] == es[..i];
  }

  lemma NoEntries(crawl: CrawlId, records: seq<Record>, draws: seq<Draw>, newUuid: bool)
    requires |records| <= |draws|
    ensures Entries(crawl, records[..0], draws, newUuid) == []
  {
  }

  lemma EntriesOfOneMore(crawl: CrawlId, records: seq<Record>, draws: seq<Draw>, newUuid: bool, i: nat)
    requires i < |records| <= |draws|
    ensures Entries(crawl, records[..i + 1], draws, newUuid)
            == if records[i].url.None? then Entries(crawl, records[..i], draws, newUuid)
               else Entries(crawl, records[..i], draws, newUuid) + [ToEntry(records[i], crawl, draws[i], newUuid)]
  {
    assert records[..i + 1][..i] == records[..i];
  }

  lemma NothingReadYet(pages: Pages, counts: map<CrawlId, Counts>, crawl: CrawlId, records: seq<Record>,
                       draws: seq<Draw>, newUuid: bool, batchSize: nat)
    requires |records| <= |draws|
    ensures Progress(records, batchSize, 0) == (0, 0)
    ensures Interim(pages, counts, crawl, records, draws, newUuid, batchSize, 0) == counts
  {
  }

  lemma OneMoreRead(pages: Pages, counts: map<CrawlId, Counts>, crawl: CrawlId, records: seq<Record>,
                    draws: seq<Draw>, newUuid: bool, batchSize: nat, i: nat)
    requires i < |records| <= |draws|
    ensures var (flushed, buffered) := Progress(records, batchSize, i);
            var before := Interim(pages, counts, crawl, records, draws, newUuid, batchSize, i);
            var after := Interim(pages, counts, crawl, records, draws, newUuid, batchSize, i + 1);
            var progress := Progress(records, batchSize, i + 1);
            if records[i].url.None? then progress == (flushed, buffered) && after == before
            else if buffered <= batchSize then progress == (flushed, buffered + 1) && after == before
            else
              var stored := Inserted(pages, Entries(crawl, records[..flushed], draws, newUuid));
              var batch := Batch(crawl, records, draws, newUuid, flushed, i);
              && progress == (i, 1)
              && after == if HasDuplicate(stored, batch) then before else Incremented(before, crawl, batch)
  {
  }

  lemma BatchIsBuffer(crawl: CrawlId, records: seq<Record>, draws: seq<Draw>, newUuid: bool,
                      from: nat, to: nat, buffer: seq<Entry>)
    requires from <= to <= |records| <= |draws|
    requires Entries(crawl, records[..to], draws, newUuid) == Entries(crawl, records[..from], draws, newUuid) + buffer
    ensures Batch(crawl, records, draws, newUuid, from, to) == buffer
  {
  }

  lemma {:induction false} InsertedInTwo(pages: Pages, a: seq<Entry>, b: seq<Entry>)
    ensures Inserted(Inserted(pages, a), b) == Inserted(pages, a + b)
    decreases |b|
  {
    if b == [] {
      assert a + b == a;
    } else {
      var n := |b| - 1;
      InsertedInTwo(pages, a, b[..n]);
      assert (a + b)[..|a + b| - 1] == a + b[..n];
    }
  }

  lemma {:induction false} InsertedIds(pages: Pages, es: seq<Entry>, id: PageId)
    ensures var t := Inserted(pages, es);
            && (id in t <==> id in pages || exists i | 0 <= i < |es| :: es[i].id == id)
            && (id in pages ==> t[id] == pages[id])
    decreases |es|
  {
    if es != [] {
      var n := |es| - 1;
      InsertedIds(pages, es[..n], id);
      assert forall i | 0 <= i < n :: es[..n][i] == es[i];
    }
  }

  /** Position i holds the first record with its id. */
  predicate IsFirst(es: seq<Entry>, i: nat)
    requires i < |es|
  {
    forall j | 0 <= j < i :: es[j].id != es[i].id
  }

  lemma {:induction false} FirstEntryStays(pages: Pages, es: seq<Entry>, i: nat)
    requires i < |es| && IsFirst(es, i) && es[i].id !in pages
    ensures es[i].id in Inserted(pages, es) && Inserted(pages, es)[es[i].id] == es[i].page
    decreases |es|
  {
    var n := |es| - 1;
    if i < n {
      FirstEntryStays(pages, es[..n], i);
    } else {
      InsertedIds(pages, es[..n], es[i].id);
    }
  }

  /** What an import leaves: the pages that were there, untouched, and for each new id the first record
      that carries it. */
  lemma FirstRecordWins(pages: Pages, es: seq<Entry>, id: PageId)
    ensures var t := Inserted(pages, es);
            && (id in t <==> id in pages || exists i | 0 <= i < |es| :: es[i].id == id)
            && (id in pages ==> t[id] == pages[id])
            && (forall i | 0 <= i < |es| && IsFirst(es, i) && es[i].id == id && id !in pages :: t[id] == es[i].page)
  {
    hide Inserted, IsFirst;
    InsertedIds(pages, es, id);
    forall i | 0 <= i < |es| && IsFirst(es, i) && es[i].id == id && id !in pages
      ensures Inserted(pages, es)[id] == es[i].page
    {
      FirstEntryStays(pages, es, i);
    }
  }

  // ------------------------------------------------------------------------------------------
  // What records become
  // ------------------------------------------------------------------------------------------

  /** The id a record gets: its own if it has one and the crawl is no upload, a random one otherwise. */
  function IdFor(r: Record, draw: Draw, newUuid: bool): PageId {
    match r.id
    case Some(id) => if newUuid then draw.uuid else id
    case None => draw.uuid
  }

  /** A page load that failed. */
  predicate LoadFailed(r: Record) {
    r.loadState.Some? && r.loadState.value == 0
  }

  /** A load that went no further than state 2, of something that is not HTML or that answered well, or without a
      status, and has no title. */
  predicate LoadedFile(r: Record) {
    && r.loadState.Some? && r.loadState.value == 2
    && (r.html ==> !r.titled && (r.status.Some? ==> r.status.value == 200 || r.status.value == 0))
  }

  /** The page that a record becomes. No page is both a file page and an error page. */
  ghost predicate Becomes(r: Record, draw: Draw, crawl: CrawlId, p: Page) {
    && r.url == Some(p.url) && p.crawl == crawl && p.review == NO_REVIEW
    && p.ts == (match r.ts case Some(ts) => ts case None => draw.now)
    && (p.isError <==> LoadFailed(r)) && (p.isFile <==> LoadedFile(r)) && !(p.isError && p.isFile)
  }

  /** The records that bring a page: they have a URL, their id is not taken, and no earlier one has it. */
  ghost function Bringing(pages: Pages, records: seq<Record>, draws: seq<Draw>, newUuid: bool): (b: set<nat>)
    requires |records| <= |draws|
    ensures forall i | i in b :: i < |records|
  {
    set i: nat | i < |records| && IsBringing(pages, records, draws, newUuid, i)
  }

  ghost predicate IsBringing(pages: Pages, records: seq<Record>, draws: seq<Draw>, newUuid: bool, i: nat)
    requires i < |records| <= |draws|
  {
    && records[i].url.Some? && IdFor(records[i], draws[i], newUuid) !in pages
    && forall j | 0 <= j < i && records[j].url.Some? ::
         IdFor(records[j], draws[j], newUuid) != IdFor(records[i], draws[i], newUuid)
  }

  lemma EntryOfRecord(r: Record, crawl: CrawlId, draw: Draw, newUuid: bool)
    requires r.url.Some?
    ensures var e := ToEntry(r, crawl, draw, newUuid);
            e.id == IdFor(r, draw, newUuid) && Becomes(r, draw, crawl, e.page)
  {
  }

  /** The page with an id is there from before, or comes from the one record that brings it. */
  ghost predicate ComesFrom(pages: Pages, t: Pages, crawl: CrawlId, records: seq<Record>, draws: seq<Draw>,
                            newUuid: bool, id: PageId)
    requires |records| <= |draws|
  {
    && (id in pages ==> id in t && t[id] == pages[id])
    && (id !in pages && id in t ==> exists i: nat | i < |records| ::
          && IsBringing(pages, records, draws, newUuid, i)
          && IdFor(records[i], draws[i], newUuid) == id && Becomes(records[i], draws[i], crawl, t[id]))
    && (id !in t ==> forall i | 0 <= i < |records| && records[i].url.Some? ::
          IdFor(records[i], draws[i], newUuid) != id)
  }

  /** What an import of any records leaves under any id. */
  lemma {:induction false} ImportedPages(pages: Pages, crawl: CrawlId, records: seq<Record>, draws: seq<Draw>,
                                         newUuid: bool, id: PageId)
    requires |records| <= |draws|
    ensures var t := Inserted(pages, Entries(crawl, records, draws, newUuid));
            ComesFrom(pages, t, crawl, records, draws, newUuid, id)
    decreases |records|
  {
    if records == [] {
      InsertedNone(pages);
    } else {
      hide ToEntry, IdFor, Becomes;
      var n := |records| - 1;
      ImportedPages(pages, crawl, records[..n], draws, newUuid, id);
      InsertedOneRecord(pages, crawl, records, draws, newUuid);
      var t := Inserted(pages, Entries(crawl, records[..n], draws, newUuid));
      ComesFromOneMore(pages, t, crawl, records, draws, newUuid, id);
    }
  }

  lemma InsertedOneRecord(pages: Pages, crawl: CrawlId, records: seq<Record>, draws: seq<Draw>, newUuid: bool)
    requires 0 < |records| <= |draws|
    ensures var n := |records| - 1;
            var r, before := records[n], Inserted(pages, Entries(crawl, records[..n], draws, newUuid));
            Inserted(pages, Entries(crawl, records, draws, newUuid)) ==
              if r.url.None? || IdFor(r, draws[n], newUuid) in before then before
              else before[IdFor(r, draws[n], newUuid) := ToEntry(r, crawl, draws[n], newUuid).page]
  {
    var n := |records| - 1;
    var before := Entries(crawl, records[..n], draws, newUuid);
    if records[n].url.Some? {
      EntryOfRecord(records[n], crawl, draws[n], newUuid);
      var e := ToEntry(records[n], crawl, draws[n], newUuid);
      hide ToEntry, IdFor;
      assert (before + [e])[..|before|] == before;
    }
  }

  lemma ComesFromOneMore(pages: Pages, t: Pages, crawl: CrawlId, records: seq<Record>, draws: seq<Draw>,
                         newUuid: bool, id: PageId)
    requires 0 < |records| <= |draws|
    requires ComesFrom(pages, t, crawl, records[..|records| - 1], draws, newUuid, id)
    ensures var n := |records| - 1;
            var r, own := records[n], IdFor(records[n], draws[n], newUuid);
            var t' := if r.url.None? || own in t then t else t[own := ToEntry(r, crawl, draws[n], newUuid).page];
            ComesFrom(pages, t', crawl, records, draws, newUuid, id)
  {
    var n := |records| - 1;
    if records[n].url.Some? {
      EntryOfRecord(records[n], crawl, draws[n], newUuid);
    }
    hide ToEntry, IdFor, Becomes;
    var front := records[..n];
    assert forall i | 0 <= i < n :: front[i] == records[i];
    assert forall i: nat | i < n ::
      IsBringing(pages, front, draws, newUuid, i) == IsBringing(pages, records, draws, newUuid, i);
  }

  /** A record that brings a page is the one its page comes from. */
  lemma BroughtPage(pages: Pages, crawl: CrawlId, records: seq<Record>, draws: seq<Draw>, newUuid: bool, i: nat)
    requires i < |records| <= |draws| && IsBringing(pages, records, draws, newUuid, i)
    ensures var id, t := IdFor(records[i], draws[i], newUuid),
                         Inserted(pages, Entries(crawl, records, draws, newUuid));
            id in t && Becomes(records[i], draws[i], crawl, t[id])
  {
    hide Inserted, Entries, IdFor, Becomes;
    var id := IdFor(records[i], draws[i], newUuid);
    ImportedPages(pages, crawl, records, draws, newUuid, id);
    var t := Inserted(pages, Entries(crawl, records, draws, newUuid));
    var j: nat :| j < |records| && IsBringing(pages, records, draws, newUuid, j)
      && IdFor(records[j], draws[j], newUuid) == id && Becomes(records[j], draws[j], crawl, t[id]);
    assert i == j;
  }

  /** Different records with different ids make up as many ids. */
  lemma {:induction false} AsManyIds(positions: set<nat>, ids: seq<PageId>)
    requires forall i | i in positions :: i < |ids|
    requires forall i, j | i in positions && j in positions && i != j :: ids[i] != ids[j]
    ensures |set i | i in positions :: ids[i]| == |positions|
    decreases |positions|
  {
    var all := set i | i in positions :: ids[i];
    if positions == {} {
      assert all == {};
    } else {
      var k :| k in positions;
      AsManyIds(positions - {k}, ids);
      var rest := set i | i in positions - {k} :: ids[i];
      assert ids[k] !in rest && all == rest + {ids[k]};
    }
  }

  ghost function IdsFor(records: seq<Record>, draws: seq<Draw>, newUuid: bool): (ids: seq<PageId>)
    requires |records| <= |draws|
    ensures |ids| == |records| && forall i | 0 <= i < |ids| :: ids[i] == IdFor(records[i], draws[i], newUuid)
  {
    seq(|records|, i requires 0 <= i < |records| => IdFor(records[i], draws[i], newUuid))
  }

  /** Of some of the records that bring pages, the pages are as many. */
  lemma AsManyPages(pages: Pages, records: seq<Record>, draws: seq<Draw>, newUuid: bool, positions: set<nat>)
    requires |records| <= |draws| && positions <= Bringing(pages, records, draws, newUuid)
    ensures |set i | i in positions :: IdsFor(records, draws, newUuid)[i]| == |positions|
  {
    hide IdFor, IdsFor;
    var ids := IdsFor(records, draws, newUuid);
    forall i, j | i in positions && j in positions && i != j ensures ids[i] != ids[j] {
      assert IsBringing(pages, records, draws, newUuid, i) && IsBringing(pages, records, draws, newUuid, j);
    }
    AsManyIds(positions, ids);
  }

  ghost function BringingErrors(pages: Pages, records: seq<Record>, draws: seq<Draw>, newUuid: bool): set<nat>
    requires |records| <= |draws|
  {
    set i | i in Bringing(pages, records, draws, newUuid) && LoadFailed(records[i])
  }

  ghost function BringingFiles(pages: Pages, records: seq<Record>, draws: seq<Draw>, newUuid: bool): set<nat>
    requires |records| <= |draws|
  {
    set i | i in Bringing(pages, records, draws, newUuid) && LoadedFile(records[i])
  }

  ghost function BroughtUrls(pages: Pages, records: seq<Record>, draws: seq<Draw>, newUuid: bool): set<Url>
    requires |records| <= |draws|
  {
    set i | i in Bringing(pages, records, draws, newUuid) && records[i].url.Some? :: records[i].url.value
  }

  lemma PagesAreBrought(pages: Pages, crawl: CrawlId, records: seq<Record>, draws: seq<Draw>, newUuid: bool)
    requires |records| <= |draws| && forall id | id in pages :: pages[id].crawl != crawl
    ensures var t := Inserted(pages, Entries(crawl, records, draws, newUuid));
            var ids := IdsFor(records, draws, newUuid);
            && PagesOf(t, crawl) == (set i | i in Bringing(pages, records, draws, newUuid) :: ids[i])
            && forall i | i in Bringing(pages, records, draws, newUuid) ::
                 ids[i] in t && Becomes(records[i], draws[i], crawl, t[ids[i]])
  {
    hide Inserted, Entries, IdFor, IdsFor, Becomes, IsBringing;
    var t, ids := Inserted(pages, Entries(crawl, records, draws, newUuid)), IdsFor(records, draws, newUuid);
    var bringing := Bringing(pages, records, draws, newUuid);
    forall i | i in bringing ensures ids[i] in t && Becomes(records[i], draws[i], crawl, t[ids[i]]) {
      BroughtPage(pages, crawl, records, draws, newUuid, i);
    }
    forall i | i in bringing ensures t[ids[i]].crawl == crawl {
      CrawlOf(records[i], draws[i], crawl, t[ids[i]]);
    }
    forall id | id in PagesOf(t, crawl) ensures exists i :: i in bringing && ids[i] == id {
      ImportedPages(pages, crawl, records, draws, newUuid, id);
      var i: nat :| i < |records| && IsBringing(pages, records, draws, newUuid, i)
        && IdFor(records[i], draws[i], newUuid) == id;
      assert i in bringing;
    }
  }

  lemma CrawlOf(r: Record, draw: Draw, crawl: CrawlId, p: Page)
    requires Becomes(r, draw, crawl, p)
    ensures p.crawl == crawl
  {
  }

  /** The four counters after an import into a crawl without pages: the pages are as many as the records that bring
      one, the URLs are theirs, error pages are as many as those that failed to load, and file pages as those that
      loaded a file. */
  lemma CountersOfAnImport(pages: Pages, crawl: CrawlId, records: seq<Record>, draws: seq<Draw>, newUuid: bool)
    requires |records| <= |draws| && forall id | id in pages :: pages[id].crawl != crawl
    ensures var c := Recount(Inserted(pages, Entries(crawl, records, draws, newUuid)), crawl);
            && c.pages == |Bringing(pages, records, draws, newUuid)|
            && c.uniquePages == |BroughtUrls(pages, records, draws, newUuid)|
            && c.filePages == |BringingFiles(pages, records, draws, newUuid)|
            && c.errorPages == |BringingErrors(pages, records, draws, newUuid)|
  {
    hide Inserted, Entries, IdFor, IdsFor, IsBringing, LoadFailed, LoadedFile, PagesOf, Bringing;
    var t, ids := Inserted(pages, Entries(crawl, records, draws, newUuid)), IdsFor(records, draws, newUuid);
    var bringing := Bringing(pages, records, draws, newUuid);
    PagesAreBrought(pages, crawl, records, draws, newUuid);
    AsManyPages(pages, records, draws, newUuid, bringing);
    AsManyPages(pages, records, draws, newUuid, BringingFiles(pages, records, draws, newUuid));
    AsManyPages(pages, records, draws, newUuid, BringingErrors(pages, records, draws, newUuid));
    assert FilesOf(t, crawl) == set i | i in BringingFiles(pages, records, draws, newUuid) :: ids[i];
    assert ErrorsOf(t, crawl) == set i | i in BringingErrors(pages, records, draws, newUuid) :: ids[i];
    assert UrlsOf(t, crawl) == BroughtUrls(pages, records, draws, newUuid);
  }

  // Interim counters.

  lemma {:induction false} FilesAreCounted(es: seq<Entry>)
    ensures FileCount(es) == |set i: nat | i < |es| && es[i].page.isFile|
    decreases |es|
  {
    var files := set i: nat | i < |es| && es[i].page.isFile;
    if es == [] {
      assert files == {};
    } else {
      var front := es[..|es| - 1];
      FilesAreCounted(front);
      var before := set i: nat | i < |front| && front[i].page.isFile;
      assert files == before + (if es[|front|].page.isFile then {|front|} else {});
    }
  }

  lemma {:induction false} ErrorsAreCounted(es: seq<Entry>)
    ensures ErrorCount(es) == |set i: nat | i < |es| && es[i].page.isError|
    decreases |es|
  {
    var errors := set i: nat | i < |es| && es[i].page.isError;
    if es == [] {
      assert errors == {};
    } else {
      var front := es[..|es| - 1];
      ErrorsAreCounted(front);
      var before := set i: nat | i < |front| && front[i].page.isError;
      assert errors == before + (if es[|front|].page.isError then {|front|} else {});
    }
  }

  /** A batch moves the crawl's file and error counters by the numbers of its file and error pages, and nothing else. */
  lemma InterimCountersMove(counts: map<CrawlId, Counts>, crawl: CrawlId, es: seq<Entry>)
    ensures var before := if crawl in counts then counts[crawl] else Counts(0, 0, 0, 0);
            var t := Incremented(counts, crawl, es);
            var files := set i: nat | i < |es| && es[i].page.isFile;
            var errors := set i: nat | i < |es| && es[i].page.isError;
            && (files != {} || errors != {} ==>
                  t == counts[crawl := before.(filePages := before.filePages + |files|,
                                               errorPages := before.errorPages + |errors|)])
            && (files == {} && errors == {} ==> t == counts)
  {
    FilesAreCounted(es);
    ErrorsAreCounted(es);
    hide FileCount, ErrorCount;
  }

  // How far an import that raises has got.

  function UrlRecords(records: seq<Record>, from: nat, to: nat): nat
    requires from <= to <= |records|
  {
    if from == to then 0 else UrlRecords(records, from, to - 1) + if records[to - 1].url.Some? then 1 else 0
  }

  lemma {:induction false} BufferedRecords(records: seq<Record>, batchSize: nat, n: nat)
    requires n <= |records|
    ensures var p := Progress(records, batchSize, n); p.1 == UrlRecords(records, p.0, n) && p.1 <= batchSize + 1
    ensures var p := Progress(records, batchSize, n); p.0 > 0 ==> records[p.0].url.Some?
    decreases n
  {
    if n > 0 {
      BufferedRecords(records, batchSize, n - 1);
      assert UrlRecords(records, n - 1, n) == if records[n - 1].url.Some? then 1 else 0;
    }
  }

  lemma ReachedIs(records: seq<Record>, batchSize: nat, at: nat)
    requires at <= |records|
    ensures Reached(records, batchSize, NoRaise) == |records|
    ensures Reached(records, batchSize, Reading(at)) == Progress(records, batchSize, at).0
    ensures at < |records| && records[at].url.Some? ==>
      Reached(records, batchSize, Converting(at)) == Progress(records, batchSize, at + 1).0
  {
    hide Progress;
  }

  lemma ProgressOfOneMore(records: seq<Record>, batchSize: nat, at: nat)
    requires at < |records| && records[at].url.Some?
    ensures var p := Progress(records, batchSize, at);
            Progress(records, batchSize, at + 1).0 == if p.1 > batchSize then at else p.0
  {
  }

  /** Where nothing raises all records are reached. Where a stream raises, no more than batchSize + 1 pages are lost;
      where the conversion of a record does, a buffer of more than batchSize pages has gone in, and one that is not
      so full is lost. */
  lemma LostWhenRaising(records: seq<Record>, batchSize: nat, at: nat)
    requires at <= |records|
    ensures Reached(records, batchSize, NoRaise) == |records|
    ensures var read := Reached(records, batchSize, Reading(at));
            && read <= at && UrlRecords(records, read, at) <= batchSize + 1
            && (at < |records| && records[at].url.Some? ==>
                  Reached(records, batchSize, Converting(at))
                  == if UrlRecords(records, read, at) > batchSize then at else read)
  {
    hide Progress, Reached, UrlRecords;
    BufferedRecords(records, batchSize, at);
    ReachedIs(records, batchSize, at);
    if at < |records| && records[at].url.Some? {
      ProgressOfOneMore(records, batchSize, at);
    }
  }

  // ------------------------------------------------------------------------------------------
  // Specification of the re-import
  // ------------------------------------------------------------------------------------------

  function Removed(pages: Pages, crawl: CrawlId): Pages {
    map id | id in pages && pages[id].crawl != crawl :: pages[id]
  }

  /** The review data of the crawl's pages that have any. */
  function Saved(pages: Pages, crawl: CrawlId): map<PageId, Review> {
    map id | id in pages && pages[id].crawl == crawl && pages[id].review != NO_REVIEW :: pages[id].review
  }

  function Over<T>(a: Option<T>, b: Option<T>): Option<T> {
    if a.Some? then a else b
  }

  /** Fields that were saved replace those of the page. */
  function MergedReview(saved: Review, r: Review): Review {
    Review(Over(saved.qa, r.qa), Over(saved.approved, r.approved), Over(saved.notes, r.notes),
           Over(saved.userid, r.userid), Over(saved.modified, r.modified))
  }

  function Merged(pages: Pages, saved: map<PageId, Review>): Pages {
    map id | id in pages ::
      if id in saved then pages[id].(review := MergedReview(saved[id], pages[id].review)) else pages[id]
  }

  /** A re-import of a crawl whose merge goes through. */
  function ReAdded(pages: Pages, crawl: CrawlId, es: seq<Entry>): Pages {
    Merged(Inserted(Removed(pages, crawl), es), Saved(pages, crawl))
  }

  ghost function Ids(es: seq<Entry>): set<PageId> {
    set i | 0 <= i < |es| :: es[i].id
  }

  // ------------------------------------------------------------------------------------------
  // The page store
  // ------------------------------------------------------------------------------------------

  class PageStore {
    var pages: Pages
    var counts: map<CrawlId, Counts>

    constructor ()
      ensures pages == map[] && counts == map[]
    {
      pages, counts := map[], map[];
    }

    /** Unordered insert: duplicates are skipped and reported, everything else goes in. */
    method InsertMany(es: seq<Entry>) returns (duplicate: bool)
      modifies `pages
      ensures pages == Inserted(old(pages), es)
      ensures duplicate <==> HasDuplicate(old(pages), es)
    {
      hide Inserted;
      duplicate := false;
      InsertedNone(pages);
      assert es[..0] == [];
      for i := 0 to |es|
        invariant pages == Inserted(old(pages), es[..i])
        invariant duplicate <==> exists j | 0 <= j < i :: es[j].id in Inserted(old(pages), es[..j])
      {
        InsertedOneMore(old(pages), es, i);
        if es[i].id in pages {
          duplicate := true;
        } else {
          pages := pages[es[i].id := es[i].page];
        }
      }
      assert es[..|es|] == es;
    }

    /** Adds a batch. With a duplicate in it the counters are left alone, because the result of the insert is
        never bound and using it fails; the caller takes that failure for a duplicate. */
    method AddPagesToDb(crawl: CrawlId, es: seq<Entry>)
      modifies this
      ensures pages == Inserted(old(pages), es)
      ensures counts == if HasDuplicate(old(pages), es) then old(counts) else Incremented(old(counts), crawl, es)
    {
      var duplicate := InsertMany(es);
      if !duplicate {
        IncrementFileAndErrorCounts(crawl, es);
      }
    }

    method IncrementFileAndErrorCounts(crawl: CrawlId, es: seq<Entry>)
      modifies `counts
      ensures counts == Incremented(old(counts), crawl, es)
    {
      var files, errors := 0, 0;
      for i := 0 to |es|
        invariant files == FileCount(es[..i]) && errors == ErrorCount(es[..i])
      {
        assert es[..i + 1][..i] == es[..i];
        files := files + if es[i].page.isFile then 1 else 0;
        errors := errors + if es[i].page.isError then 1 else 0;
      }
      assert es[..|es|] == es;
      if files == 0 && errors == 0 {
        return;
      }
      var c := CountsOf(counts, crawl);
      counts := counts[crawl := c.(filePages := c.filePages + files, errorPages := c.errorPages + errors)];
    }

    /** The two counts taken from the page collection, then the two counted page by page. */
    method RecountCrawl(crawl: CrawlId)
      modifies `counts
      ensures counts == old(counts)[crawl := Recount(pages, crawl)]
    {
      var ids := set id | id in pages && pages[id].crawl == crawl;
      var urls := set id | id in ids :: pages[id].url;
      var files, errors := 0, 0;
      var todo := ids;
      ghost var fileIds, errorIds: set<PageId> := {}, {};
      while todo != {}
        invariant todo <= ids
        invariant fileIds == set id | id in ids - todo && pages[id].isFile
        invariant errorIds == set id | id in ids - todo && pages[id].isError
        invariant files == |fileIds| && errors == |errorIds|
        decreases todo
      {
        var id :| id in todo;
        if pages[id].isFile {
          files := files + 1;
          fileIds := fileIds + {id};
        }
        if pages[id].isError {
          errors := errors + 1;
          errorIds := errorIds + {id};
        }
        todo := todo - {id};
      }
      assert ids == PagesOf(pages, crawl) && urls == UrlsOf(pages, crawl);
      assert fileIds == FilesOf(pages, crawl) && errorIds == ErrorsOf(pages, crawl);
      counts := counts[crawl := Counts(|ids|, |urls|, files, errors)];
    }

    /** Reads the stream record by record and inserts in batches. When something raises, what is still in the
        buffer is lost and nothing is recounted. */
    method AddCrawlPagesFromWacz(crawl: CrawlId, records: seq<Record>, draws: seq<Draw>, newUuid: bool,
                                 batchSize: nat, r: Raise)
      returns (ok: bool)
      requires |draws| == |records| && Possible(r, records)
      modifies this
      ensures ok <==> r == NoRaise
      ensures var reached := Reached(records, batchSize, r);
              pages == Inserted(old(pages), Entries(crawl, records[..reached], draws, newUuid))
      ensures ok ==> crawl in counts && counts[crawl] == Recount(pages, crawl)
      ensures !ok ==>
        counts == Interim(old(pages), old(counts), crawl, records, draws, newUuid, batchSize, Handled(r, records))
      ensures OthersKept(old(counts), counts, crawl)
      ensures forall c | c in old(counts) && c != crawl :: c in counts && counts[c] == old(counts)[c]
    {
      hide Recount, ToEntry, Inserted, Entries, Batch, HasDuplicate, Progress, Interim, Incremented, OthersKept;
      var buffer: seq<Entry> := [];
      ghost var flushed := 0;
      NoEntries(crawl, records, draws, newUuid);
      InsertedNone(pages);
      NothingReadYet(pages, counts, crawl, records, draws, newUuid, batchSize);
      KeptByNothing(counts, crawl);
      for i := 0 to |records|
        invariant r != NoRaise ==> i <= r.at
        invariant (flushed, |buffer|) == Progress(records, batchSize, i)
        invariant pages == Inserted(old(pages), Entries(crawl, records[..flushed], draws, newUuid))
        invariant Entries(crawl, records[..i], draws, newUuid)
            == Entries(crawl, records[..flushed], draws, newUuid) + buffer
        invariant counts == Interim(old(pages), old(counts), crawl, records, draws, newUuid, batchSize, i)
        invariant OthersKept(old(counts), counts, crawl)
      {
        if r == Reading(i) {
          OthersAreKept(old(counts), counts, crawl);
          return false;
        }
        EntriesOfOneMore(crawl, records, draws, newUuid, i);
        OneMoreRead(old(pages), old(counts), crawl, records, draws, newUuid, batchSize, i);
        if records[i].url.None? {
          continue;
        }
        if |buffer| > batchSize {
          InsertedInTwo(old(pages), Entries(crawl, records[..flushed], draws, newUuid), buffer);
          BatchIsBuffer(crawl, records, draws, newUuid, flushed, i, buffer);
          KeptByIncrements(old(counts), counts, crawl, buffer);
          AddPagesToDb(crawl, buffer);
          buffer := [];
          flushed := i;
        }
        if r == Converting(i) {
          OthersAreKept(old(counts), counts, crawl);
          return false;
        }
        buffer := buffer + [ToEntry(records[i], crawl, draws[i], newUuid)];
      }
      if r == Reading(|records|) {
        OthersAreKept(old(counts), counts, crawl);
        return false;
      }
      assert records[..|records|] == records;
      InsertedInTwo(old(pages), Entries(crawl, records[..flushed], draws, newUuid), buffer);
      InsertedNone(pages);
      if buffer != [] {
        KeptByIncrements(old(counts), counts, crawl, buffer);
        AddPagesToDb(crawl, buffer);
      }
      KeptByRecount(old(counts), counts, crawl, Recount(pages, crawl));
      RecountCrawl(crawl);
      OthersAreKept(old(counts), counts, crawl);
      return true;
    }

    /** Merges saved review data one page at a time, in any order, and stops at the first page that is gone. */
    method MergeReviews(saved: map<PageId, Review>) returns (ok: bool)
      modifies `pages
      ensures ok <==> saved.Keys <= old(pages).Keys
      ensures ok ==> pages == Merged(old(pages), saved)
      ensures !ok ==> exists part | part < saved.Keys :: pages == Merged(old(pages), saved - (saved.Keys - part))
    {
      var todo := saved.Keys;
      ghost var done: map<PageId, Review> := map[];
      assert pages == Merged(pages, done);
      while todo != {}
        invariant todo <= saved.Keys && done == saved - todo
        invariant pages == Merged(old(pages), done)
        invariant done.Keys <= old(pages).Keys
        decreases todo
      {
        var id :| id in todo;
        if id !in pages {
          assert saved - (saved.Keys - done.Keys) == done && done.Keys < saved.Keys;
          return false;
        }
        pages := pages[id := pages[id].(review := MergedReview(saved[id], pages[id].review))];
        todo := todo - {id};
        done := saved - todo;
      }
      assert done == saved;
      return true;
    }

    /** Saves review data, deletes the crawl's pages, imports them again and merges. Uploads save nothing.
        An import that raises does not end the operation: the merge goes on with what has been imported. */
    method ReAddCrawlPages(crawl: CrawlId, isUpload: bool, records: seq<Record>, draws: seq<Draw>,
                           batchSize: nat, r: Raise)
      returns (ok: bool)
      requires |draws| == |records| && Possible(r, records)
      modifies this
      ensures var es := Entries(crawl, records[..Reached(records, batchSize, r)], draws, isUpload);
              var left, saved := Removed(old(pages), crawl), Saved(old(pages), crawl);
              && (isUpload ==> ok && pages == Inserted(left, es))
              && (!isUpload ==> (ok <==> saved.Keys <= Inserted(left, es).Keys))
              && (!isUpload && ok ==> pages == ReAdded(old(pages), crawl, es))
              && (!ok ==> exists part | part < saved.Keys ::
                    pages == Merged(Inserted(left, es), saved - (saved.Keys - part)))
              && crawl in counts
              && (counts[crawl] == Recount(pages, crawl) <==> r == NoRaise || NoneNew(left, es))
              && (r != NoRaise ==>
                    var reset := old(counts)[crawl := NO_COUNTS];
                    counts == Interim(left, reset, crawl, records, draws, isUpload, batchSize, Handled(r, records)))
      ensures forall c | c in old(counts) && c != crawl :: c in counts && counts[c] == old(counts)[c]
    {
      hide Recount, Inserted, Entries, Interim, Merged, NoneNew;
      var saved: map<PageId, Review> := map[];
      if !isUpload {
        saved := Saved(pages, crawl);
      }
      pages := Removed(pages, crawl);
      counts := counts[crawl := NO_COUNTS];
      ghost var reset := counts;
      var imported := AddCrawlPagesFromWacz(crawl, records, draws, isUpload, batchSize, r);
      assert records[..|records|] == records;
      ghost var reread := pages;
      if !imported {
        FailedImportCounts(old(pages), reset, crawl, records, draws, isUpload, batchSize, Handled(r, records));
      }
      ok := true;
      if !isUpload {
        ok := MergeReviews(saved);
        if ok {
          MergingKeepsCounts(reread, saved, crawl);
        } else {
          ghost var part :| part < saved.Keys && pages == Merged(reread, saved - (saved.Keys - part));
          MergingKeepsCounts(reread, saved - (saved.Keys - part), crawl);
        }
      }
    }
  }

  // ------------------------------------------------------------------------------------------
  // Counters after an import that raised
  // ------------------------------------------------------------------------------------------

  /** The buffer holds what the store does not. */
  lemma {:induction false} BufferIsTheRest(crawl: CrawlId, records: seq<Record>, draws: seq<Draw>, newUuid: bool,
                                           batchSize: nat, n: nat)
    requires n <= |records| <= |draws|
    ensures var (flushed, buffered) := Progress(records, batchSize, n);
            && Entries(crawl, records[..flushed], draws, newUuid) <= Entries(crawl, records[..n], draws, newUuid)
            && |Entries(crawl, records[..n], draws, newUuid)|
               == |Entries(crawl, records[..flushed], draws, newUuid)| + buffered
  {
    if n == 0 {
      NoEntries(crawl, records, draws, newUuid);
    } else {
      hide Entries;
      BufferIsTheRest(crawl, records, draws, newUuid, batchSize, n - 1);
      EntriesOfOneMore(crawl, records, draws, newUuid, n - 1);
    }
  }

  /** The two counters that only a recount sets stay as they were. */
  lemma {:induction false} InterimKeepsPageCounts(pages: Pages, counts: map<CrawlId, Counts>, crawl: CrawlId,
      records: seq<Record>, draws: seq<Draw>, newUuid: bool, batchSize: nat, n: nat)
    requires n <= |records| <= |draws| && crawl in counts
    ensures var after := Interim(pages, counts, crawl, records, draws, newUuid, batchSize, n);
            && crawl in after
            && after[crawl].pages == counts[crawl].pages && after[crawl].uniquePages == counts[crawl].uniquePages
  {
    hide Entries, Inserted, Batch, HasDuplicate, Progress, FileCount, ErrorCount;
    if n > 0 {
      InterimKeepsPageCounts(pages, counts, crawl, records, draws, newUuid, batchSize, n - 1);
    }
  }

  /** If no page goes in, nothing is counted: every batch has a duplicate. */
  lemma {:induction false} NothingNewNothingCounted(pages: Pages, counts: map<CrawlId, Counts>, crawl: CrawlId,
      records: seq<Record>, draws: seq<Draw>, newUuid: bool, batchSize: nat, n: nat)
    requires n <= |records| <= |draws|
    requires NoneNew(pages, Entries(crawl, records[..Progress(records, batchSize, n).0], draws, newUuid))
    ensures Interim(pages, counts, crawl, records, draws, newUuid, batchSize, n) == counts
  {
    hide Entries, Inserted, Incremented, HasDuplicate;
    if n > 0 {
      var (flushed, buffered) := Progress(records, batchSize, n - 1);
      var before := Entries(crawl, records[..flushed], draws, newUuid);
      BufferIsTheRest(crawl, records, draws, newUuid, batchSize, n - 1);
      if records[n - 1].url.Some? && buffered > batchSize {
        var es := Entries(crawl, records[..n - 1], draws, newUuid);
        assert forall i | 0 <= i < |before| :: before[i] == es[i];
        AllTaken(pages, before, es[|before|..]);
      }
      NothingNewNothingCounted(pages, counts, crawl, records, draws, newUuid, batchSize, n - 1);
    }
  }

  lemma AllTaken(pages: Pages, before: seq<Entry>, batch: seq<Entry>)
    requires batch != [] && batch[0].id in pages
    ensures HasDuplicate(Inserted(pages, before), batch)
  {
    FirstRecordWins(pages, before, batch[0].id);
    var t := Inserted(pages, before);
    InsertedNone(t);
    assert batch[..0] == [];
    assert batch[0].id in Inserted(t, batch[..0]);
  }

  /** After an import that raised, the counters of the crawl equal a recount if and only if nothing that was
      read went in: the page counts stay 0 until the next recount. n is how many records were gone through. */
  lemma FailedImportCounts(pages: Pages, reset: map<CrawlId, Counts>, crawl: CrawlId, records: seq<Record>,
                           draws: seq<Draw>, newUuid: bool, batchSize: nat, n: nat)
    requires n <= |records| <= |draws| && crawl in reset && reset[crawl] == NO_COUNTS
    ensures var left := Removed(pages, crawl);
            var es := Entries(crawl, records[..Progress(records, batchSize, n).0], draws, newUuid);
            var counts := Interim(left, reset, crawl, records, draws, newUuid, batchSize, n);
            crawl in counts && (counts[crawl] == Recount(Inserted(left, es), crawl) <==> NoneNew(left, es))
  {
    hide Interim, Progress;
    var left := Removed(pages, crawl);
    var es := Entries(crawl, records[..Progress(records, batchSize, n).0], draws, newUuid);
    InterimKeepsPageCounts(left, reset, crawl, records, draws, newUuid, batchSize, n);
    if NoneNew(left, es) {
      NothingNewNothingCounted(left, reset, crawl, records, draws, newUuid, batchSize, n);
      NoPagesNoCounts(pages, crawl, es);
    } else {
      var i :| 0 <= i < |es| && es[i].id !in left;
      SomePageCounts(pages, crawl, es, i);
    }
  }

  lemma NoPagesNoCounts(pages: Pages, crawl: CrawlId, es: seq<Entry>)
    requires NoneNew(Removed(pages, crawl), es)
    ensures Recount(Inserted(Removed(pages, crawl), es), crawl) == NO_COUNTS
  {
    var t := Inserted(Removed(pages, crawl), es);
    forall id ensures id !in PagesOf(t, crawl) {
      FirstRecordWins(Removed(pages, crawl), es, id);
    }
    assert PagesOf(t, crawl) == {} && UrlsOf(t, crawl) == {} && FilesOf(t, crawl) == {} && ErrorsOf(t, crawl) == {};
  }

  lemma SomePageCounts(pages: Pages, crawl: CrawlId, es: seq<Entry>, i: nat)
    requires i < |es| && es[i].id !in Removed(pages, crawl)
    requires forall k | 0 <= k < |es| :: es[k].page.crawl == crawl && es[k].page.review == NO_REVIEW
    ensures Recount(Inserted(Removed(pages, crawl), es), crawl).pages > 0
  {
    var t := Inserted(Removed(pages, crawl), es);
    FreshPages(pages, crawl, es, es[i].id);
    assert es[i].id in Ids(es);
    assert es[i].id in PagesOf(t, crawl);
  }

  lemma MergingKeepsCounts(pages: Pages, saved: map<PageId, Review>, crawl: CrawlId)
    ensures Recount(Merged(pages, saved), crawl) == Recount(pages, crawl)
  {
    var t := Merged(pages, saved);
    assert PagesOf(t, crawl) == PagesOf(pages, crawl);
    assert FilesOf(t, crawl) == FilesOf(pages, crawl) && ErrorsOf(t, crawl) == ErrorsOf(pages, crawl);
    assert UrlsOf(t, crawl) == UrlsOf(pages, crawl) by {
      assert forall id | id in PagesOf(pages, crawl) :: t[id].url == pages[id].url;
    }
  }

  // ------------------------------------------------------------------------------------------
  // What a re-import keeps
  // ------------------------------------------------------------------------------------------

  lemma FreshPages(pages: Pages, crawl: CrawlId, es: seq<Entry>, id: PageId)
    requires forall i | 0 <= i < |es| :: es[i].page.crawl == crawl && es[i].page.review == NO_REVIEW
    ensures var reread := Inserted(Removed(pages, crawl), es);
            && (id in reread <==> (id in pages && pages[id].crawl != crawl) || id in Ids(es))
            && (id in reread ==> if id in pages && pages[id].crawl != crawl then reread[id] == pages[id]
                                else reread[id].crawl == crawl && reread[id].review == NO_REVIEW)
    decreases |es|
  {
    if es != [] {
      var n := |es| - 1;
      FreshPages(pages, crawl, es[..n], id);
      assert forall i | 0 <= i < n :: es[..n][i] == es[i];
      assert Ids(es) == Ids(es[..n]) + {es[n].id};
    }
  }

  ghost predicate KeepsReview(pages: Pages, t: Pages, crawl: CrawlId, id: PageId)
    requires id in pages
  {
    id in t && t[id].crawl == crawl && t[id].review == pages[id].review
  }

  /** Every page of the crawl that has review data keeps all of it if and only if every one of them is
      among the pages that are imported again; and the merge goes through in exactly those cases. */
  lemma ReviewsKeptIffReimported(pages: Pages, crawl: CrawlId, es: seq<Entry>)
    requires forall i | 0 <= i < |es| :: es[i].page.crawl == crawl && es[i].page.review == NO_REVIEW
    ensures (forall id | id in Saved(pages, crawl) :: KeepsReview(pages, ReAdded(pages, crawl, es), crawl, id))
            <==> Saved(pages, crawl).Keys <= Ids(es)
    ensures Saved(pages, crawl).Keys <= Inserted(Removed(pages, crawl), es).Keys
            <==> Saved(pages, crawl).Keys <= Ids(es)
  {
    forall id | id in Saved(pages, crawl)
      ensures KeepsReview(pages, ReAdded(pages, crawl, es), crawl, id) <==> id in Ids(es)
      ensures id in Inserted(Removed(pages, crawl), es) <==> id in Ids(es)
    {
      FreshPages(pages, crawl, es, id);
    }
  }

  /** Review data of other crawls is never touched, and the crawl's pages become exactly the imported ones. */
  lemma OtherCrawlsUntouched(pages: Pages, crawl: CrawlId, es: seq<Entry>, id: PageId)
    requires forall i | 0 <= i < |es| :: es[i].page.crawl == crawl && es[i].page.review == NO_REVIEW
    requires id in pages && pages[id].crawl != crawl
    ensures var t := ReAdded(pages, crawl, es); id in t && t[id] == pages[id]
  {
    FreshPages(pages, crawl, es, id);
  }

  /** Doing it again: when the reviewed pages are imported both times, a second re-import forgets the
      first. Two imports of the same records differ at most in drawn ids and times, so repeating the
      whole operation changes nothing else. */
  lemma SecondReAddAbsorbsTheFirst(pages: Pages, crawl: CrawlId, es1: seq<Entry>, es2: seq<Entry>)
    requires forall i | 0 <= i < |es1| :: es1[i].page.crawl == crawl && es1[i].page.review == NO_REVIEW
    requires forall i | 0 <= i < |es2| :: es2[i].page.crawl == crawl && es2[i].page.review == NO_REVIEW
    requires Saved(pages, crawl).Keys <= Ids(es1)
    ensures ReAdded(ReAdded(pages, crawl, es1), crawl, es2) == ReAdded(pages, crawl, es2)
  {
    var once := ReAdded(pages, crawl, es1);
    assert Removed(once, crawl) == Removed(pages, crawl) by {
      forall id ensures id in Removed(once, crawl) <==> id in Removed(pages, crawl)
                ensures id in Removed(once, crawl) ==> Removed(once, crawl)[id] == Removed(pages, crawl)[id] {
        FreshPages(pages, crawl, es1, id);
      }
    }
    assert Saved(once, crawl) == Saved(pages, crawl) by {
      forall id ensures id in Saved(once, crawl) <==> id in Saved(pages, crawl)
                ensures id in Saved(once, crawl) ==> Saved(once, crawl)[id] == Saved(pages, crawl)[id] {
        FreshPages(pages, crawl, es1, id);
      }
    }
  }

  /** Merging saved review data replaces those fields of the review that were saved, and nothing else. */
  lemma WhatIsMerged(pages: Pages, saved: map<PageId, Review>, id: PageId)
    requires id in pages
    ensures var t := Merged(pages, saved);
            && t.Keys == pages.Keys && t[id] == pages[id].(review := t[id].review)
            && (id !in saved ==> t[id] == pages[id])
            && (id in saved ==>
                  var mine, before, now := saved[id], pages[id].review, t[id].review;
                  && now.qa == (if mine.qa == None then before.qa else mine.qa)
                  && now.approved == (if mine.approved == None then before.approved else mine.approved)
                  && now.notes == (if mine.notes == None then before.notes else mine.notes)
                  && now.userid == (if mine.userid == None then before.userid else mine.userid)
                  && now.modified == (if mine.modified == None then before.modified else mine.modified))
  {
  }

  // ------------------------------------------------------------------------------------------
  // Repeating a re-import
  // ------------------------------------------------------------------------------------------

  /** Equal except for times. */
  predicate SamePage(a: Page, b: Page) {
    a.(ts := b.ts) == b
  }

  predicate SamePages(a: Pages, b: Pages) {
    a.Keys == b.Keys && forall id | id in a :: SamePage(a[id], b[id])
  }

  predicate SameEntries(a: seq<Entry>, b: seq<Entry>) {
    |a| == |b| && forall i | 0 <= i < |a| :: a[i].id == b[i].id && SamePage(a[i].page, b[i].page)
  }

  /** Reading the same records twice, all of them with a valid id, gives the same pages up to the times that
      the records do not have. */
  lemma {:induction false} SameRecordsSameEntries(crawl: CrawlId, records: seq<Record>, draws1: seq<Draw>,
                                                  draws2: seq<Draw>)
    requires |records| <= |draws1| && |records| <= |draws2|
    requires forall i | 0 <= i < |records| && records[i].url.Some? :: records[i].id.Some?
    ensures SameEntries(Entries(crawl, records, draws1, false), Entries(crawl, records, draws2, false))
    decreases |records|
  {
    if records != [] {
      SameRecordsSameEntries(crawl, records[..|records| - 1], draws1, draws2);
    }
  }

  lemma {:induction false} SameEntriesSamePages(pages: Pages, a: seq<Entry>, b: seq<Entry>)
    requires SameEntries(a, b)
    ensures SamePages(Inserted(pages, a), Inserted(pages, b))
    decreases |a|
  {
    if a != [] {
      var n := |a| - 1;
      SameEntriesSamePages(pages, a[..n], b[..n]);
    }
  }

  /** Re-adding the pages of a crawl twice equals doing it once, up to times, if every record has a valid id
      and all reviewed pages are among the records. */
  lemma TwiceIsOnce(pages: Pages, crawl: CrawlId, records: seq<Record>, draws1: seq<Draw>, draws2: seq<Draw>)
    requires |records| <= |draws1| && |records| <= |draws2|
    requires forall i | 0 <= i < |records| && records[i].url.Some? :: records[i].id.Some?
    requires Saved(pages, crawl).Keys <= Ids(Entries(crawl, records, draws1, false))
    ensures var once := ReAdded(pages, crawl, Entries(crawl, records, draws1, false));
            SamePages(ReAdded(once, crawl, Entries(crawl, records, draws2, false)), once)
  {
    var es1, es2 := Entries(crawl, records, draws1, false), Entries(crawl, records, draws2, false);
    SameRecordsSameEntries(crawl, records, draws2, draws1);
    SameEntriesSamePages(Removed(pages, crawl), es2, es1);
    SecondReAddAbsorbsTheFirst(pages, crawl, es1, es2);
  }
}
