/** The byte counters of an organization: what each operation adds to them, and what a recount would say. */
module StorageBytes {
  import opened ArchivedFiles
  import opened Options
  import opened MapSums

  datatype Id = Id(n: int)

  datatype Resource = Resource(size: nat, hash: int)

  datatype UserFile = UserFile(size: nat, isSeedFile: bool)

  /** indexed says that the collection has an index state. */
  datatype Coll = Coll(thumbnail: Option<nat>, indexed: bool, index: Option<nat>)

  datatype Item = Item(kind: Kind, files: seq<File>)

  datatype Bytes = Bytes(crawls: int, uploads: int, profiles: int, seeds: int, thumbnails: int, indexes: int)

  datatype Field = CrawlBytes | UploadBytes | ProfileBytes | SeedBytes | ThumbnailBytes | IndexBytes

  datatype State = State(
    total: int, stored: Bytes,
    profiles: map<Id, Option<Resource>>, files: map<Id, UserFile>, colls: map<Id, Coll>, items: map<Id, Item>)

  const THUMBNAIL_MAX_SIZE := 2_000_000
  const SEED_FILE_MAX_SIZE := 25_000_000

  const ZERO := Bytes(0, 0, 0, 0, 0, 0)

  /** inUse, busy, gone, stuck and the like are what other components answer: whether something is in use,
      whether a file could be deleted, and the names of the files that could not. */
  datatype Op =
    | CommitProfile(id: Id, resource: Resource, prevSize: nat, committed: bool, replicated: bool)
    | UpdateProfile(id: Id, resource: Resource, replicated: bool)
    | DeleteProfile(id: Id, inUse: bool)
    | AddSeedFile(id: Id, size: nat, valid: bool)
    | DeleteFile(id: Id, inUse: bool)
    | UploadThumbnail(id: Id, size: nat)
    | DeleteThumbnail(id: Id, gone: bool)
    | DeleteCollection(id: Id, gone: bool)
    | SaveIndex(id: Id, file: Option<nat>, dated: bool, ifExists: bool)
    | DeleteIndex(id: Id, busy: bool, gone: bool)
    | DeleteItems(ids: seq<Id>, kind: Kind, stuck: set<int>)
    | DeleteFailedFiles(id: Id, stuck: set<int>)
    | Recalculate

  // ------------------------------------------------------------------------------------------
  // Arithmetic on the six fields
  // ------------------------------------------------------------------------------------------

  function Plus(a: Bytes, b: Bytes): Bytes {
    Bytes(a.crawls + b.crawls, a.uploads + b.uploads, a.profiles + b.profiles,
          a.seeds + b.seeds, a.thumbnails + b.thumbnails, a.indexes + b.indexes)
  }

  function Minus(a: Bytes, b: Bytes): Bytes {
    Bytes(a.crawls - b.crawls, a.uploads - b.uploads, a.profiles - b.profiles,
          a.seeds - b.seeds, a.thumbnails - b.thumbnails, a.indexes - b.indexes)
  }

  function Only(f: Field, n: int): Bytes {
    match f
    case CrawlBytes => ZERO.(crawls := n)
    case UploadBytes => ZERO.(uploads := n)
    case ProfileBytes => ZERO.(profiles := n)
    case SeedBytes => ZERO.(seeds := n)
    case ThumbnailBytes => ZERO.(thumbnails := n)
    case IndexBytes => ZERO.(indexes := n)
  }

  function SumOfFields(b: Bytes): int {
    b.crawls + b.uploads + b.profiles + b.seeds + b.thumbnails + b.indexes
  }

  function FieldOf(kind: Kind): Field {
    if kind == CrawlItem then CrawlBytes else UploadBytes
  }

  // ------------------------------------------------------------------------------------------
  // Recounts
  // ------------------------------------------------------------------------------------------

  function Sizes<V>(m: map<Id, V>, size: V -> int): map<Id, int> {
    map k | k in m :: size(m[k])
  }

  ghost function Sum<V>(m: map<Id, V>, size: V -> int): int {
    Total(Sizes(m, size))
  }

  lemma SumOfPut<V>(m: map<Id, V>, k: Id, v: V, size: V -> int)
    ensures Sum(m[k := v], size) == Sum(m, size) + size(v) - if k in m then size(m[k]) else 0
  {
    assert Sizes(m[k := v], size) == Sizes(m, size)[k := size(v)];
    TotalUpdate(Sizes(m, size), k, size(v));
  }

  lemma SumOfDrop<V>(m: map<Id, V>, k: Id, size: V -> int)
    requires k in m
    ensures Sum(m - {k}, size) == Sum(m, size) - size(m[k])
  {
    assert Sizes(m - {k}, size) == Sizes(m, size) - {k};
    TotalRemove(Sizes(m, size), k);
  }

  function OptionalSize(size: Option<nat>): nat {
    if size.Some? then size.value else 0
  }

  function ProfileSize(r: Option<Resource>): int {
    if r.Some? then r.value.size else 0
  }

  function SeedSize(f: UserFile): int {
    if f.isSeedFile then f.size else 0
  }

  function ThumbnailSize(c: Coll): int {
    OptionalSize(c.thumbnail)
  }

  function IndexSize(c: Coll): int {
    OptionalSize(c.index)
  }

  function KindSize(kind: Kind): Item -> int {
    (i: Item) => if i.kind == kind then SizeUpTo(i.files, |i.files|) else 0
  }

  ghost function Recount(s: State): Bytes {
    Bytes(Sum(s.items, KindSize(CrawlItem)), Sum(s.items, KindSize(UploadItem)), Sum(s.profiles, ProfileSize),
          Sum(s.files, SeedSize), Sum(s.colls, ThumbnailSize), Sum(s.colls, IndexSize))
  }

  /** By how much each counter exceeds the recount. */
  ghost function Drift(s: State): Bytes {
    Minus(s.stored, Recount(s))
  }

  // ------------------------------------------------------------------------------------------
  // What each operation does
  // ------------------------------------------------------------------------------------------

  /** The total and one field move together. */
  function Added(s: State, f: Field, n: int): State {
    s.(total := s.total + n, stored := Plus(s.stored, Only(f, n)))
  }

  /** The bytes of the first n files that could be deleted. */
  function FreedUpTo(files: seq<File>, stuck: set<int>, n: nat): int
    requires n <= |files|
  {
    if n == 0 then 0
    else FreedUpTo(files, stuck, n - 1) + if files[n - 1].name in stuck then 0 else files[n - 1].size
  }

  function Freed(i: Item, stuck: set<int>): int {
    FreedUpTo(i.files, stuck, |i.files|)
  }

  /** The items among the first n of the list that are of the kind and so will be deleted. */
  function Doomed(items: map<Id, Item>, ids: seq<Id>, kind: Kind, n: nat): set<Id>
    requires n <= |ids|
  {
    if n == 0 then {}
    else
      Doomed(items, ids, kind, n - 1)
      + if ids[n - 1] in items && items[ids[n - 1]].kind == kind then {ids[n - 1]} else {}
  }

  function FreedByList(items: map<Id, Item>, ids: seq<Id>, kind: Kind, stuck: set<int>, n: nat): int
    requires n <= |ids|
  {
    if n == 0 then 0
    else FreedByList(items, ids, kind, stuck, n - 1)
         + if ids[n - 1] in items && items[ids[n - 1]].kind == kind then Freed(items[ids[n - 1]], stuck) else 0
  }

  predicate AllPresent(items: map<Id, Item>, ids: seq<Id>) {
    forall k | 0 <= k < |ids| :: ids[k] in items
  }

  predicate Matches(s: State, id: Id, ifExists: bool) {
    id in s.colls && (ifExists ==> s.colls[id].indexed)
  }

  function AfterCommit(s: State, id: Id, resource: Resource, prevSize: nat, committed: bool, replicated: bool): State {
    if !committed then s
    else
      var t := s.(profiles := s.profiles[id := Some(resource)]);
      if replicated then Added(t, ProfileBytes, resource.size - prevSize) else t
  }

  function AfterUpdate(s: State, id: Id, resource: Resource, replicated: bool): State {
    if id !in s.profiles || s.profiles[id].None? then s
    else
      var t := s.(profiles := s.profiles[id := Some(resource)]);
      var prev := s.profiles[id].value;
      if prev.hash == resource.hash || !replicated then t
      else Added(t, ProfileBytes, resource.size - prev.size)
  }

  function AfterDeleteProfile(s: State, id: Id, inUse: bool): State {
    if id !in s.profiles || inUse then s
    else Added(s.(profiles := s.profiles - {id}), ProfileBytes, -ProfileSize(s.profiles[id]))
  }

  function AfterAddSeedFile(s: State, id: Id, size: nat, valid: bool): State {
    if size > SEED_FILE_MAX_SIZE || !valid || id in s.files then s
    else Added(s.(files := s.files[id := UserFile(size, true)]), SeedBytes, size)
  }

  function AfterDeleteFile(s: State, id: Id, inUse: bool): State {
    if id !in s.files || (s.files[id].isSeedFile && inUse) then s
    else Added(s.(files := s.files - {id}), SeedBytes, -SeedSize(s.files[id]))
  }

  function AfterUploadThumbnail(s: State, id: Id, size: nat): State {
    if id !in s.colls || size > THUMBNAIL_MAX_SIZE then s
    else Added(s.(colls := s.colls[id := s.colls[id].(thumbnail := Some(size))]), ThumbnailBytes, size)
  }

  function AfterDeleteThumbnail(s: State, id: Id, gone: bool): State {
    if id !in s.colls || s.colls[id].thumbnail.None? || !gone then s
    else Added(s.(colls := s.colls[id := s.colls[id].(thumbnail := None)]), ThumbnailBytes, -ThumbnailSize(s.colls[id]))
  }

  function AfterDeleteCollection(s: State, id: Id, gone: bool): State {
    if id !in s.colls || s.colls[id].indexed || (s.colls[id].thumbnail.Some? && !gone) then s
    else Added(s.(colls := s.colls - {id}), ThumbnailBytes, -ThumbnailSize(s.colls[id]))
  }

  function AfterSaveIndex(s: State, id: Id, file: Option<nat>, dated: bool, ifExists: bool): State {
    var t :=
      if !Matches(s, id, ifExists) then s
      else
        var index := if dated && file.Some? then file else s.colls[id].index;
        s.(colls := s.colls[id := s.colls[id].(indexed := true, index := index)]);
    if file.None? then t
    else Added(t, IndexBytes, file.value - if Matches(s, id, ifExists) then IndexSize(s.colls[id]) else 0)
  }

  function AfterDeleteIndex(s: State, id: Id, busy: bool, gone: bool): State {
    if id !in s.colls || !s.colls[id].indexed || busy || (s.colls[id].index.Some? && !gone) then s
    else
      var t := s.(colls := s.colls[id := s.colls[id].(indexed := false, index := None)]);
      Added(t, IndexBytes, -IndexSize(s.colls[id]))
  }

  function AfterDeleteItems(s: State, ids: seq<Id>, kind: Kind, stuck: set<int>): State {
    if !AllPresent(s.items, ids) then s
    else Added(s.(items := s.items - Doomed(s.items, ids, kind, |ids|)), FieldOf(kind),
             -FreedByList(s.items, ids, kind, stuck, |ids|))
  }

  function AfterDeleteFailedFiles(s: State, id: Id, stuck: set<int>): State {
    if id !in s.items then s
    else Added(s.(items := s.items[id := s.items[id].(files := [])]), CrawlBytes, -Freed(s.items[id], stuck))
  }

  /** The recount of the indexes is left out, both of its field and of the total. */
  ghost function AfterRecalculate(s: State): State {
    var r := Recount(s).(indexes := 0);
    s.(stored := r.(indexes := s.stored.indexes), total := SumOfFields(r))
  }

  ghost function Step(s: State, op: Op): State {
    match op
    case CommitProfile(id, resource, prevSize, committed, replicated) =>
      AfterCommit(s, id, resource, prevSize, committed, replicated)
    case UpdateProfile(id, resource, replicated) => AfterUpdate(s, id, resource, replicated)
    case DeleteProfile(id, inUse) => AfterDeleteProfile(s, id, inUse)
    case AddSeedFile(id, size, valid) => AfterAddSeedFile(s, id, size, valid)
    case DeleteFile(id, inUse) => AfterDeleteFile(s, id, inUse)
    case UploadThumbnail(id, size) => AfterUploadThumbnail(s, id, size)
    case DeleteThumbnail(id, gone) => AfterDeleteThumbnail(s, id, gone)
    case DeleteCollection(id, gone) => AfterDeleteCollection(s, id, gone)
    case SaveIndex(id, file, dated, ifExists) => AfterSaveIndex(s, id, file, dated, ifExists)
    case DeleteIndex(id, busy, gone) => AfterDeleteIndex(s, id, busy, gone)
    case DeleteItems(ids, kind, stuck) => AfterDeleteItems(s, ids, kind, stuck)
    case DeleteFailedFiles(id, stuck) => AfterDeleteFailedFiles(s, id, stuck)
    case Recalculate => AfterRecalculate(s)
  }

  // ------------------------------------------------------------------------------------------
  // The organization's document and the records its bytes are in
  // ------------------------------------------------------------------------------------------

  datatype Answer =
    | Done | NotFound | CommitFailed | ReplicationFailed | InUse | TooLarge | InvalidSeedFile | DuplicateKey
    | FileDeletionError | IndexExists | NoMatch

  class OrgStorage {
    var bytesStored: int
    var stored: Bytes
    var profiles: map<Id, Option<Resource>>
    var files: map<Id, UserFile>
    var colls: map<Id, Coll>
    var items: map<Id, Item>

    ghost function Now(): State
      reads this
    {
      State(bytesStored, stored, profiles, files, colls, items)
    }

    constructor ()
      ensures Now() == State(0, ZERO, map[], map[], map[], map[])
    {
      bytesStored, stored := 0, ZERO;
      profiles, files, colls, items := map[], map[], map[], map[];
    }

    method IncBytesStored(f: Field, n: int)
      modifies `bytesStored, `stored
      ensures Now() == Added(old(Now()), f, n)
    {
      bytesStored := bytesStored + n;
      stored := Plus(stored, Only(f, n));
    }

    /** prevSize is the size of the profile as the request saw it, 0 for a new one; committed, whether the
        browser delivered the profile; replicated, whether the replicas could be asked for. */
    method DoCommitToProfile(id: Id, resource: Resource, prevSize: nat, committed: bool, replicated: bool)
      returns (answer: Answer)
      modifies `profiles, `bytesStored, `stored
      ensures Now() == AfterCommit(old(Now()), id, resource, prevSize, committed, replicated)
      ensures answer == if committed && replicated then Done else CommitFailed
    {
      if !committed {
        return CommitFailed;
      }
      profiles := profiles[id := Some(resource)];
      if !replicated {
        return CommitFailed;
      }
      IncBytesStored(ProfileBytes, resource.size - prevSize);
      return Done;
    }

    /** When the replicas cannot be asked for, that is raised after the profile is stored. */
    method UpdateProfileFromCrawlUpload(id: Id, resource: Resource, replicated: bool) returns (answer: Answer)
      modifies `profiles, `bytesStored, `stored
      ensures Now() == AfterUpdate(old(Now()), id, resource, replicated)
      ensures answer == if id !in old(profiles) || old(profiles)[id].None? then NotFound
                        else if old(profiles)[id].value.hash == resource.hash || replicated then Done
                        else ReplicationFailed
    {
      if id !in profiles || profiles[id].None? {
        return NotFound;
      }
      var prev := profiles[id].value;
      profiles := profiles[id := Some(resource)];
      if prev.hash == resource.hash {
        return Done;
      }
      if !replicated {
        return ReplicationFailed;
      }
      if resource.size != prev.size {
        IncBytesStored(ProfileBytes, resource.size - prev.size);
      }
      return Done;
    }

    method DeleteProfile(id: Id, inUse: bool) returns (answer: Answer)
      modifies `profiles, `bytesStored, `stored
      ensures Now() == AfterDeleteProfile(old(Now()), id, inUse)
      ensures answer == if id !in old(profiles) then NotFound else if inUse then InUse else Done
    {
      if id !in profiles {
        return NotFound;
      }
      if inUse {
        return InUse;
      }
      if profiles[id].Some? {
        IncBytesStored(ProfileBytes, 0 - profiles[id].value.size);
      }
      profiles := profiles - {id};
      return Done;
    }

    method UploadSeedFile(id: Id, size: nat, valid: bool) returns (answer: Answer)
      modifies `files, `bytesStored, `stored
      ensures Now() == AfterAddSeedFile(old(Now()), id, size, valid)
      ensures answer == if size > SEED_FILE_MAX_SIZE then TooLarge else if !valid then InvalidSeedFile
                        else if id in old(files) then DuplicateKey else Done
    {
      if size > SEED_FILE_MAX_SIZE {
        return TooLarge;
      }
      if !valid {
        return InvalidSeedFile;
      }
      if id in files {
        return DuplicateKey;
      }
      files := files[id := UserFile(size, true)];
      IncBytesStored(SeedBytes, size);
      return Done;
    }

    method DeleteSeedFile(id: Id, inUse: bool) returns (answer: Answer)
      modifies `files, `bytesStored, `stored
      ensures Now() == AfterDeleteFile(old(Now()), id, inUse)
      ensures answer == if id !in old(files) then NotFound
                        else if old(files)[id].isSeedFile && inUse then InUse else Done
    {
      if id !in files {
        return NotFound;
      }
      var file := files[id];
      if file.isSeedFile {
        if inUse {
          return InUse;
        }
      }
      files := files - {id};
      if file.isSeedFile {
        IncBytesStored(SeedBytes, 0 - file.size);
      }
      return Done;
    }

    /** The size of a thumbnail that is replaced is not taken off. */
    method UploadThumbnailStream(id: Id, size: nat) returns (answer: Answer)
      modifies `colls, `bytesStored, `stored
      ensures Now() == AfterUploadThumbnail(old(Now()), id, size)
      ensures answer == if id !in old(colls) then NotFound else if size > THUMBNAIL_MAX_SIZE then TooLarge else Done
    {
      if id !in colls {
        return NotFound;
      }
      if size > THUMBNAIL_MAX_SIZE {
        return TooLarge;
      }
      colls := colls[id := colls[id].(thumbnail := Some(size))];
      IncBytesStored(ThumbnailBytes, size);
      return Done;
    }

    method DeleteThumbnail(id: Id, gone: bool) returns (answer: Answer)
      modifies `colls, `bytesStored, `stored
      ensures Now() == AfterDeleteThumbnail(old(Now()), id, gone)
      ensures answer == if id !in old(colls) || old(colls)[id].thumbnail.None? then NotFound
                        else if !gone then FileDeletionError else Done
    {
      if id !in colls || colls[id].thumbnail.None? {
        return NotFound;
      }
      if !gone {
        return FileDeletionError;
      }
      var size: int := colls[id].thumbnail.value;
      colls := colls[id := colls[id].(thumbnail := None)];
      IncBytesStored(ThumbnailBytes, 0 - size);
      return Done;
    }

    method DeleteCollection(id: Id, gone: bool) returns (answer: Answer)
      modifies `colls, `bytesStored, `stored
      ensures Now() == AfterDeleteCollection(old(Now()), id, gone)
      ensures answer == if id !in old(colls) then NotFound else if old(colls)[id].indexed then IndexExists
                        else if old(colls)[id].thumbnail.Some? && !gone then FileDeletionError else Done
    {
      if id !in colls {
        return NotFound;
      }
      if colls[id].indexed {
        return IndexExists;
      }
      if colls[id].thumbnail.Some? {
        answer := DeleteThumbnail(id, gone);
        if answer != Done {
          return;
        }
        assert colls - {id} == old(colls) - {id};
      }
      colls := colls - {id};
      return Done;
    }

    /** dated says whether a time comes with the file; without it the file is counted but not stored. */
    method UpdateDedupeIndexInfo(id: Id, file: Option<nat>, dated: bool, ifExists: bool) returns (answer: Answer)
      modifies `colls, `bytesStored, `stored
      ensures Now() == AfterSaveIndex(old(Now()), id, file, dated, ifExists)
      ensures answer == if Matches(old(Now()), id, ifExists) then Done else NoMatch
    {
      var prevIndex: Option<nat> := None;
      answer := NoMatch;
      if id in colls && (ifExists ==> colls[id].indexed) {
        answer, prevIndex := Done, colls[id].index;
        colls := colls[id := colls[id].(indexed := true, index := if file.Some? && dated then file else prevIndex)];
      }
      if file.Some? {
        var sizeDiff: int := file.value;
        if prevIndex.Some? {
          sizeDiff := file.value - prevIndex.value;
        }
        IncBytesStored(IndexBytes, sizeDiff);
      }
    }

    /** busy says whether the index is neither idle nor ready and crawls are using it. */
    method DeleteDedupeIndex(id: Id, busy: bool, gone: bool) returns (answer: Answer)
      modifies `colls, `bytesStored, `stored
      ensures Now() == AfterDeleteIndex(old(Now()), id, busy, gone)
      ensures answer == if id !in old(colls) || !old(colls)[id].indexed then NotFound else if busy then InUse
                        else if old(colls)[id].index.Some? && !gone then FileDeletionError else Done
    {
      if id !in colls || !colls[id].indexed {
        return NotFound;
      }
      if busy {
        return InUse;
      }
      if colls[id].index.Some? {
        if !gone {
          return FileDeletionError;
        }
        IncBytesStored(IndexBytes, 0 - colls[id].index.value);
      }
      colls := colls[id := colls[id].(indexed := false, index := None)];
      return Done;
    }

    method DeleteCrawlFiles(item: Item, stuck: set<int>) returns (size: int, failures: seq<int>)
      ensures size == Freed(item, stuck)
      ensures failures == [] <==> NoneStuck(item, stuck)
    {
      size, failures := 0, [];
      for i := 0 to |item.files|
        invariant size == FreedUpTo(item.files, stuck, i)
        invariant failures == [] <==> forall k | 0 <= k < i :: item.files[k].name !in stuck
      {
        if item.files[i].name in stuck {
          failures := failures + [item.files[i].name];
        } else {
          size := size + item.files[i].size;
        }
      }
    }

    /** An item that does not exist ends the loop before anything is written. */
    method DeleteCrawls(ids: seq<Id>, kind: Kind, stuck: set<int>) returns (answer: Answer)
      modifies `items, `bytesStored, `stored
      ensures Now() == AfterDeleteItems(old(Now()), ids, kind, stuck)
      ensures answer == if !AllPresent(old(items), ids) then NotFound
                        else if ListIsStuck(old(items), ids, kind, stuck, |ids|) then FileDeletionError else Done
    {
      var doomed: set<Id>, size, failed := {}, 0, false;
      for i := 0 to |ids|
        invariant Now() == old(Now())
        invariant forall k | 0 <= k < i :: ids[k] in items
        invariant doomed == Doomed(items, ids, kind, i)
        invariant size == FreedByList(items, ids, kind, stuck, i)
        invariant failed == ListIsStuck(items, ids, kind, stuck, i)
      {
        if ids[i] !in items {
          assert !AllPresent(items, ids);
          return NotFound;
        }
        var item := items[ids[i]];
        if item.kind == kind {
          var freed, failures := DeleteCrawlFiles(item, stuck);
          size := size + freed;
          failed := failed || failures != [];
          doomed := doomed + {ids[i]};
        }
      }
      items := items - doomed;
      IncBytesStored(FieldOf(kind), -size);
      return if failed then FileDeletionError else Done;
    }

    /** Whatever kind the item is of, its bytes are taken off those of the crawls. */
    method DeleteFailedCrawlFiles(id: Id, stuck: set<int>) returns (answer: Answer)
      modifies `items, `bytesStored, `stored
      ensures Now() == AfterDeleteFailedFiles(old(Now()), id, stuck)
      ensures answer == if id in old(items) then Done else NotFound
    {
      if id !in items {
        return NotFound;
      }
      var size, _ := DeleteCrawlFiles(items[id], stuck);
      items := items[id := items[id].(files := [])];
      IncBytesStored(CrawlBytes, -size);
      return Done;
    }

    method CalculateCrawlFileStorage() returns (total: int, crawls: int, uploads: int)
      ensures crawls == Sum(items, KindSize(CrawlItem)) && uploads == Sum(items, KindSize(UploadItem))
      ensures total == crawls + uploads
    {
      total, crawls, uploads := 0, 0, 0;
      var left := items;
      while left != map[]
        invariant crawls + Sum(left, KindSize(CrawlItem)) == Sum(items, KindSize(CrawlItem))
        invariant uploads + Sum(left, KindSize(UploadItem)) == Sum(items, KindSize(UploadItem))
        invariant total == crawls + uploads
        decreases |left|
      {
        var id :| id in left;
        SumOfDrop(left, id, KindSize(CrawlItem));
        SumOfDrop(left, id, KindSize(UploadItem));
        ShrinksBy(left, id);
        var size := SizeUpTo(left[id].files, |left[id].files|);
        total := total + size;
        if left[id].kind == CrawlItem {
          crawls := crawls + size;
        }
        if left[id].kind == UploadItem {
          uploads := uploads + size;
        }
        left := left - {id};
      }
    }

    /** The loops that add up profiles, seed files and thumbnails differ only in what they add. */
    method AddUp<V>(m: map<Id, V>, size: V -> int) returns (total: int)
      ensures total == Sum(m, size)
    {
      total := 0;
      var left := m;
      while left != map[]
        invariant total + Sum(left, size) == Sum(m, size)
        decreases |left|
      {
        var id :| id in left;
        SumOfDrop(left, id, size);
        ShrinksBy(left, id);
        total := total + size(left[id]);
        left := left - {id};
      }
    }

    method RecalculateStorage()
      modifies `bytesStored, `stored
      ensures Now() == AfterRecalculate(old(Now()))
    {
      hide Sum;
      var totalCrawlSize, crawlSize, uploadSize := CalculateCrawlFileStorage();
      var profileSize := AddUp(profiles, ProfileSize);
      var seedFileSize := AddUp(files, SeedSize);
      var thumbnailSize := AddUp(colls, ThumbnailSize);
      bytesStored := totalCrawlSize + profileSize + (seedFileSize + thumbnailSize);
      stored := Bytes(crawlSize, uploadSize, profileSize, seedFileSize, thumbnailSize, stored.indexes);
    }
  }

  predicate NoneStuck(i: Item, stuck: set<int>) {
    forall k | 0 <= k < |i.files| :: i.files[k].name !in stuck
  }

  /** Some file of the items to be deleted could not be deleted. */
  predicate ListIsStuck(items: map<Id, Item>, ids: seq<Id>, kind: Kind, stuck: set<int>, n: nat)
    requires n <= |ids|
  {
    exists k | 0 <= k < n :: ids[k] in items && items[ids[k]].kind == kind && !NoneStuck(items[ids[k]], stuck)
  }

  lemma ShrinksBy<V>(m: map<Id, V>, k: Id)
    requires k in m
    ensures |m - {k}| < |m|
  {
    assert (m - {k}).Keys == m.Keys - {k};
    assert |m.Keys - {k}| == |m.Keys| - 1;
  }

  // ------------------------------------------------------------------------------------------
  // What each operation comes to, record by record and counter by counter
  // ------------------------------------------------------------------------------------------

  /** Each counter moves by so many bytes, and the total by all of them. */
  ghost predicate Move(s: State, t: State, crawls: int, uploads: int, profiles: int, seeds: int, thumbnails: int,
                       indexes: int)
  {
    && t.stored.crawls - s.stored.crawls == crawls && t.stored.uploads - s.stored.uploads == uploads
    && t.stored.profiles - s.stored.profiles == profiles && t.stored.seeds - s.stored.seeds == seeds
    && t.stored.thumbnails - s.stored.thumbnails == thumbnails && t.stored.indexes - s.stored.indexes == indexes
    && t.total - s.total == crawls + uploads + profiles + seeds + thumbnails + indexes
  }

  /** Only records of one of the four collections may differ. */
  ghost predicate SameBut(s: State, t: State, profiles: bool, files: bool, colls: bool, items: bool) {
    && (profiles || t.profiles == s.profiles) && (files || t.files == s.files)
    && (colls || t.colls == s.colls) && (items || t.items == s.items)
  }

  /** A commit that goes through stores the profile, and moves its bytes from what the request saw, if its replicas can
      be asked for. */
  lemma WhatACommitDoes(s: State, id: Id, resource: Resource, prevSize: nat, committed: bool, ok: bool)
    ensures var t := Step(s, CommitProfile(id, resource, prevSize, committed, ok));
            && SameBut(s, t, true, false, false, false)
            && t.profiles == (if committed then s.profiles[id := Some(resource)] else s.profiles)
            && Move(s, t, 0, 0, if committed && ok then resource.size - prevSize else 0, 0, 0, 0)
  {
  }

  /** An update needs a profile with a resource, and moves the bytes if the hash is another one. */
  lemma WhatAProfileUpdateDoes(s: State, id: Id, resource: Resource, ok: bool)
    ensures var t := Step(s, UpdateProfile(id, resource, ok));
            && SameBut(s, t, true, false, false, false)
            && if id in s.profiles && s.profiles[id].Some? then
                 var prev := s.profiles[id].value;
                 && t.profiles == s.profiles[id := Some(resource)]
                 && Move(s, t, 0, 0, if prev.hash != resource.hash && ok then resource.size - prev.size else 0, 0, 0, 0)
               else t == s
  {
  }

  /** A profile that is deleted takes its bytes with it, if it has a resource. */
  lemma WhatDeletingAProfileDoes(s: State, id: Id, inUse: bool)
    ensures var t := Step(s, DeleteProfile(id, inUse));
            && SameBut(s, t, true, false, false, false)
            && if id in s.profiles && !inUse then
                 && t.profiles == s.profiles - {id}
                 && Move(s, t, 0, 0, if s.profiles[id].Some? then 0 - s.profiles[id].value.size else 0, 0, 0, 0)
               else t == s
  {
  }

  /** A seed file is taken in if it is valid, no larger than 25 MB, and new. */
  lemma WhatASeedFileDoes(s: State, id: Id, size: nat, valid: bool)
    ensures var t := Step(s, AddSeedFile(id, size, valid));
            && SameBut(s, t, false, true, false, false)
            && if valid && size <= 25000000 && id !in s.files then
                 t.files == s.files[id := UserFile(size, true)] && Move(s, t, 0, 0, 0, size, 0, 0)
               else t == s
  {
  }

  /** A file is deleted unless it is a seed file in use, and takes its bytes with it only if it is a seed file. */
  lemma WhatDeletingAFileDoes(s: State, id: Id, inUse: bool)
    ensures var t := Step(s, DeleteFile(id, inUse));
            && SameBut(s, t, false, true, false, false)
            && if id in s.files && (s.files[id].isSeedFile ==> !inUse) then
                 && t.files == s.files - {id}
                 && Move(s, t, 0, 0, 0, if s.files[id].isSeedFile then 0 - s.files[id].size else 0, 0, 0)
               else t == s
  {
  }

  /** A thumbnail of at most 2 MB is stored and counted, whatever was there. */
  lemma WhatAThumbnailDoes(s: State, id: Id, size: nat)
    ensures var t := Step(s, UploadThumbnail(id, size));
            && SameBut(s, t, false, false, true, false)
            && if id in s.colls && size <= 2000000 then
                 && t.colls == s.colls[id := Coll(Some(size), s.colls[id].indexed, s.colls[id].index)]
                 && Move(s, t, 0, 0, 0, 0, size, 0)
               else t == s
  {
  }

  /** A thumbnail whose file can be deleted goes, with its bytes. */
  lemma WhatDeletingAThumbnailDoes(s: State, id: Id, gone: bool)
    ensures var t := Step(s, DeleteThumbnail(id, gone));
            && SameBut(s, t, false, false, true, false)
            && if id in s.colls && s.colls[id].thumbnail.Some? && gone then
                 && t.colls == s.colls[id := Coll(None, s.colls[id].indexed, s.colls[id].index)]
                 && Move(s, t, 0, 0, 0, 0, 0 - s.colls[id].thumbnail.value, 0)
               else t == s
  {
  }

  /** A collection without an index is deleted with its thumbnail, unless that cannot be deleted. */
  lemma WhatDeletingACollectionDoes(s: State, id: Id, gone: bool)
    ensures var t := Step(s, DeleteCollection(id, gone));
            && SameBut(s, t, false, false, true, false)
            && if id in s.colls && !s.colls[id].indexed && (gone || s.colls[id].thumbnail == None) then
                 var thumbnail := s.colls[id].thumbnail;
                 && t.colls == s.colls - {id}
                 && Move(s, t, 0, 0, 0, 0, if thumbnail.Some? then 0 - thumbnail.value else 0, 0)
               else t == s
  {
  }

  /** A saved index marks the collection as indexed, and a file that comes with a time becomes its index file; its bytes
      count against those of the index that was there, even if no collection matches. */
  lemma WhatAnIndexDoes(s: State, id: Id, file: Option<nat>, dated: bool, ifExists: bool)
    ensures var t := Step(s, SaveIndex(id, file, dated, ifExists));
            var found := id in s.colls && (s.colls[id].indexed || !ifExists);
            var previous: nat := if found && s.colls[id].index.Some? then s.colls[id].index.value else 0;
            && SameBut(s, t, false, false, true, false)
            && Move(s, t, 0, 0, 0, 0, 0, if file.Some? then file.value - previous else 0)
            && if found then
                 var index := if file.Some? && dated then file else s.colls[id].index;
                 t.colls == s.colls[id := Coll(s.colls[id].thumbnail, true, index)]
               else t.colls == s.colls
    ensures Matches(s, id, ifExists) <==> id in s.colls && (s.colls[id].indexed || !ifExists)
  {
  }

  /** An index that is not in use is deleted, unless its file cannot be. */
  lemma WhatDeletingAnIndexDoes(s: State, id: Id, busy: bool, gone: bool)
    ensures var t := Step(s, DeleteIndex(id, busy, gone));
            && SameBut(s, t, false, false, true, false)
            && if id in s.colls && s.colls[id].indexed && !busy && (gone || s.colls[id].index == None) then
                 var index := s.colls[id].index;
                 && t.colls == s.colls[id := Coll(s.colls[id].thumbnail, false, None)]
                 && Move(s, t, 0, 0, 0, 0, 0, if index.Some? then 0 - index.value else 0)
               else t == s
  {
  }

  lemma {:induction false} DoomedAre(items: map<Id, Item>, ids: seq<Id>, kind: Kind, n: nat, id: Id)
    requires n <= |ids|
    ensures id in Doomed(items, ids, kind, n) <==> id in ids[..n] && id in items && items[id].kind == kind
  {
    if n > 0 {
      DoomedAre(items, ids, kind, n - 1, id);
      assert ids[..n] == ids[..n - 1] + [ids[n - 1]];
    }
  }

  /** A list that names only items that are there is deleted, as far as its items are of the kind, and the bytes freed
      are taken off those of the kind; what is freed by the list is freed item by item, and by an item file by file,
      but for the files that are stuck. */
  lemma WhatDeletingItemsDoes(s: State, ids: seq<Id>, kind: Kind, stuck: set<int>, id: Id)
    ensures var t := Step(s, DeleteItems(ids, kind, stuck));
            && SameBut(s, t, false, false, false, true)
            && if forall o | o in ids :: o in s.items then
                 var freed := FreedByList(s.items, ids, kind, stuck, |ids|);
                 && (id in t.items <==> id in s.items && !(id in ids && s.items[id].kind == kind))
                 && (id in t.items ==> t.items[id] == s.items[id])
                 && (if kind.CrawlItem? then Move(s, t, 0 - freed, 0, 0, 0, 0, 0)
                     else Move(s, t, 0, 0 - freed, 0, 0, 0, 0))
               else t == s
  {
    hide Freed, FreedByList, Doomed;
    assert AllPresent(s.items, ids) <==> forall o | o in ids :: o in s.items;
    DoomedAre(s.items, ids, kind, |ids|, id);
    assert ids[..|ids|] == ids;
  }

  /** The files of an item that failed go, and what is freed is taken off the crawls, whatever the item's kind. */
  lemma WhatDeletingFailedFilesDoes(s: State, id: Id, stuck: set<int>)
    ensures var t := Step(s, DeleteFailedFiles(id, stuck));
            && SameBut(s, t, false, false, false, true)
            && if id in s.items then
                 && t.items == s.items[id := Item(s.items[id].kind, [])]
                 && Move(s, t, 0 - Freed(s.items[id], stuck), 0, 0, 0, 0, 0)
               else t == s
  {
    hide Freed;
  }

  /** What is freed of files is what those are long that are not stuck. */
  lemma {:induction false} FreedIsOfTheOthers(files: seq<File>, stuck: set<int>, n: nat)
    requires n <= |files|
    ensures n > 0 ==> FreedUpTo(files, stuck, n) - FreedUpTo(files, stuck, n - 1)
                      == if files[n - 1].name in stuck then 0 else files[n - 1].size
    ensures FreedUpTo(files, stuck, 0) == 0
    ensures (forall k | 0 <= k < |files| :: files[k].name !in stuck) ==>
      FreedUpTo(files, stuck, n) == SizeUpTo(files, n)
    ensures (forall k | 0 <= k < |files| :: files[k].name in stuck) ==> FreedUpTo(files, stuck, n) == 0
  {
    if n > 0 {
      FreedIsOfTheOthers(files, stuck, n - 1);
    }
  }

  /** A deletion reports a failure exactly when some file of some item that goes is stuck. */
  lemma WhichFileIsStuck(items: map<Id, Item>, ids: seq<Id>, kind: Kind, stuck: set<int>)
    ensures ListIsStuck(items, ids, kind, stuck, |ids|) <==>
            exists id, f | id in ids && id in items && items[id].kind == kind && f in items[id].files ::
              f.name in stuck
    ensures AllPresent(items, ids) <==> forall id | id in ids :: id in items
  {
    if ListIsStuck(items, ids, kind, stuck, |ids|) {
      var k :| 0 <= k < |ids| && ids[k] in items && items[ids[k]].kind == kind && !NoneStuck(items[ids[k]], stuck);
      var files := items[ids[k]].files;
      var j :| 0 <= j < |files| && files[j].name in stuck;
      assert files[j] in files && ids[k] in ids;
    }
    if id, f :| id in ids && id in items && items[id].kind == kind && f in items[id].files && f.name in stuck {
      var k :| 0 <= k < |ids| && ids[k] == id;
      var j :| 0 <= j < |items[id].files| && items[id].files[j] == f;
      assert !NoneStuck(items[ids[k]], stuck);
    }
  }

  lemma SumIs<V>(m: map<Id, V>, size: V -> int, sizes: map<Id, int>)
    requires sizes.Keys == m.Keys && forall k | k in m :: sizes[k] == size(m[k])
    ensures Sum(m, size) == Total(sizes)
  {
    assert Sizes(m, size) == sizes;
  }

  /** A recount adds up the sizes of the files of each kind of item, */
  lemma RecountOfItems(s: State, kind: Kind, sizes: map<Id, int>)
    requires sizes.Keys == s.items.Keys
    requires forall k | k in s.items :: sizes[k] == if s.items[k].kind == kind then SizeOf(s.items[k].files) else 0
    ensures Total(sizes) == match kind case CrawlItem => Recount(s).crawls case UploadItem => Recount(s).uploads
  {
    SumIs(s.items, KindSize(kind), sizes);
    hide Sum, Total;
  }

  /** of the profiles that have a resource, */
  lemma RecountOfProfiles(s: State, sizes: map<Id, int>)
    requires sizes.Keys == s.profiles.Keys && forall k | k in s.profiles ::
      sizes[k] == match s.profiles[k] case Some(resource) => resource.size case None => 0
    ensures Total(sizes) == Recount(s).profiles
  {
    SumIs(s.profiles, ProfileSize, sizes);
    hide Sum, Total;
  }

  /** of the files that are seed files, */
  lemma RecountOfSeeds(s: State, sizes: map<Id, int>)
    requires sizes.Keys == s.files.Keys && forall k | k in s.files ::
      sizes[k] == if !s.files[k].isSeedFile then 0 else s.files[k].size
    ensures Total(sizes) == Recount(s).seeds
  {
    SumIs(s.files, SeedSize, sizes);
    hide Sum, Total;
  }

  /** and of the thumbnails and the index files of the collections. */
  lemma RecountOfCollections(s: State, thumbnails: map<Id, int>, indexes: map<Id, int>)
    requires thumbnails.Keys == s.colls.Keys && indexes.Keys == s.colls.Keys
    requires forall k | k in s.colls ::
      thumbnails[k] == match s.colls[k].thumbnail case Some(size) => size case None => 0
    requires forall k | k in s.colls ::
      indexes[k] == match s.colls[k].index case Some(size) => size case None => 0
    ensures Total(thumbnails) == Recount(s).thumbnails && Total(indexes) == Recount(s).indexes
  {
    SumIs(s.colls, ThumbnailSize, thumbnails);
    SumIs(s.colls, IndexSize, indexes);
    hide Sum, Total;
  }

  /** A recalculation changes no record; five counters become those of the recount, that of the indexes stays, and the
      total is the sum of the five. */
  lemma WhatARecalculationDoes(s: State)
    ensures var t, r := Step(s, Recalculate), Recount(s);
            && SameBut(s, t, false, false, false, false)
            && t.stored == Bytes(r.crawls, r.uploads, r.profiles, r.seeds, r.thumbnails, s.stored.indexes)
            && t.total == r.crawls + r.uploads + r.profiles + r.seeds + r.thumbnails
  {
    hide Recount;
  }

  // ------------------------------------------------------------------------------------------
  // When the counters stay true
  // ------------------------------------------------------------------------------------------

  predicate NothingStuck(i: Item, stuck: set<int>) {
    forall k | 0 <= k < |i.files| :: i.files[k].name in stuck ==> i.files[k].size == 0
  }

  predicate NothingStuckInList(items: map<Id, Item>, ids: seq<Id>, kind: Kind, stuck: set<int>) {
    forall k | 0 <= k < |ids| ::
      ids[k] in items && items[ids[k]].kind == kind ==> NothingStuck(items[ids[k]], stuck)
  }

  /** What can be told before an operation: that it will leave the counters as true as they are. */
  ghost predicate Faithful(s: State, op: Op) {
    match op
    case CommitProfile(id, resource, prevSize, committed, replicated) =>
      var size := if id in s.profiles then ProfileSize(s.profiles[id]) else 0;
      committed ==> size == if replicated then prevSize else resource.size
    case UpdateProfile(id, resource, replicated) =>
      id in s.profiles && s.profiles[id].Some? && (s.profiles[id].value.hash == resource.hash || !replicated)
      ==> s.profiles[id].value.size == resource.size
    case UploadThumbnail(id, size) =>
      id in s.colls && size <= THUMBNAIL_MAX_SIZE ==> ThumbnailSize(s.colls[id]) == 0
    case DeleteCollection(id, gone) =>
      id in s.colls && !s.colls[id].indexed && (s.colls[id].thumbnail.Some? ==> gone) ==> IndexSize(s.colls[id]) == 0
    case SaveIndex(id, file, dated, ifExists) =>
      && (!Matches(s, id, ifExists) ==> OptionalSize(file) == 0)
      && (Matches(s, id, ifExists) && file.Some? && !dated ==> IndexSize(s.colls[id]) == file.value)
    case DeleteItems(ids, kind, stuck) => AllPresent(s.items, ids) ==> NothingStuckInList(s.items, ids, kind, stuck)
    case DeleteFailedFiles(id, stuck) =>
      id in s.items ==>
        if s.items[id].kind == CrawlItem then NothingStuck(s.items[id], stuck)
        else SizeUpTo(s.items[id].files, |s.items[id].files|) == 0
    case _ => true
  }

  predicate Distinct(ids: seq<Id>) {
    forall i, j | 0 <= i < j < |ids| :: ids[i] != ids[j]
  }

  predicate ListsNoItemTwice(op: Op) {
    op.DeleteItems? ==> Distinct(op.ids)
  }

  /** The bytes of the first n files that could not be deleted. */
  function StuckUpTo(files: seq<File>, stuck: set<int>, n: nat): int
    requires n <= |files|
  {
    if n == 0 then 0
    else StuckUpTo(files, stuck, n - 1) + if files[n - 1].name in stuck then files[n - 1].size else 0
  }

  function StuckBytes(i: Item, stuck: set<int>): int {
    StuckUpTo(i.files, stuck, |i.files|)
  }

  function StuckInList(items: map<Id, Item>, ids: seq<Id>, kind: Kind, stuck: set<int>, n: nat): int
    requires n <= |ids|
  {
    if n == 0 then 0
    else StuckInList(items, ids, kind, stuck, n - 1)
         + if ids[n - 1] in items && items[ids[n - 1]].kind == kind then StuckBytes(items[ids[n - 1]], stuck) else 0
  }

  function ItemSize(i: Item): int {
    SizeOf(i.files)
  }

  /** What an operation adds to the drift. */
  ghost function Excess(s: State, op: Op): Bytes {
    match op
    case CommitProfile(id, resource, prevSize, committed, replicated) =>
      var size := if id in s.profiles then ProfileSize(s.profiles[id]) else 0;
      if !committed then ZERO else Only(ProfileBytes, size - if replicated then prevSize else resource.size)
    case UpdateProfile(id, resource, replicated) =>
      if id in s.profiles && s.profiles[id].Some? && (s.profiles[id].value.hash == resource.hash || !replicated)
      then Only(ProfileBytes, s.profiles[id].value.size - resource.size)
      else ZERO
    case UploadThumbnail(id, size) =>
      if id in s.colls && size <= THUMBNAIL_MAX_SIZE then Only(ThumbnailBytes, ThumbnailSize(s.colls[id])) else ZERO
    case DeleteCollection(id, gone) =>
      if id in s.colls && !s.colls[id].indexed && (s.colls[id].thumbnail.Some? ==> gone)
      then Only(IndexBytes, IndexSize(s.colls[id]))
      else ZERO
    case SaveIndex(id, file, dated, ifExists) =>
      if !Matches(s, id, ifExists) then Only(IndexBytes, OptionalSize(file))
      else if file.Some? && !dated then Only(IndexBytes, file.value - IndexSize(s.colls[id]))
      else ZERO
    case DeleteItems(ids, kind, stuck) =>
      if AllPresent(s.items, ids) then Only(FieldOf(kind), StuckInList(s.items, ids, kind, stuck, |ids|)) else ZERO
    case DeleteFailedFiles(id, stuck) =>
      if id !in s.items then ZERO
      else if s.items[id].kind == CrawlItem then Only(CrawlBytes, StuckBytes(s.items[id], stuck))
      else Plus(Only(CrawlBytes, -Freed(s.items[id], stuck)), Only(UploadBytes, ItemSize(s.items[id])))
    case Recalculate => Minus(ZERO, Drift(s)).(indexes := 0)
    case _ => ZERO
  }

  // Operation by operation.

  lemma CommitMovesDrift(s: State, id: Id, resource: Resource, prevSize: nat, committed: bool, replicated: bool)
    ensures Drift(AfterCommit(s, id, resource, prevSize, committed, replicated))
            == Plus(Drift(s), Excess(s, CommitProfile(id, resource, prevSize, committed, replicated)))
  {
    hide Sum;
    SumOfPut(s.profiles, id, Some(resource), ProfileSize);
  }

  lemma UpdateMovesDrift(s: State, id: Id, resource: Resource, replicated: bool)
    ensures Drift(AfterUpdate(s, id, resource, replicated))
            == Plus(Drift(s), Excess(s, UpdateProfile(id, resource, replicated)))
  {
    hide Sum;
    SumOfPut(s.profiles, id, Some(resource), ProfileSize);
  }

  lemma DeleteProfileMovesDrift(s: State, id: Id, inUse: bool)
    ensures Drift(AfterDeleteProfile(s, id, inUse)) == Drift(s)
  {
    hide Sum;
    if id in s.profiles {
      SumOfDrop(s.profiles, id, ProfileSize);
    }
  }

  lemma FilesMoveDrift(s: State, id: Id, size: nat, valid: bool, inUse: bool)
    ensures Drift(AfterAddSeedFile(s, id, size, valid)) == Drift(s)
    ensures Drift(AfterDeleteFile(s, id, inUse)) == Drift(s)
  {
    hide Sum;
    SumOfPut(s.files, id, UserFile(size, true), SeedSize);
    if id in s.files {
      SumOfDrop(s.files, id, SeedSize);
    }
  }

  lemma CollPut(s: State, id: Id, c: Coll)
    requires id in s.colls
    ensures Sum(s.colls[id := c], ThumbnailSize)
            == Sum(s.colls, ThumbnailSize) + ThumbnailSize(c) - ThumbnailSize(s.colls[id])
    ensures Sum(s.colls[id := c], IndexSize) == Sum(s.colls, IndexSize) + IndexSize(c) - IndexSize(s.colls[id])
  {
    hide Sum;
    SumOfPut(s.colls, id, c, ThumbnailSize);
    SumOfPut(s.colls, id, c, IndexSize);
  }

  lemma UploadThumbnailMovesDrift(s: State, id: Id, size: nat)
    ensures Drift(AfterUploadThumbnail(s, id, size)) == Plus(Drift(s), Excess(s, UploadThumbnail(id, size)))
  {
    hide Sum;
    if id in s.colls {
      CollPut(s, id, s.colls[id].(thumbnail := Some(size)));
    }
  }

  lemma DeleteThumbnailMovesDrift(s: State, id: Id, gone: bool)
    ensures Drift(AfterDeleteThumbnail(s, id, gone)) == Drift(s)
  {
    hide Sum;
    if id in s.colls {
      CollPut(s, id, s.colls[id].(thumbnail := None));
    }
  }

  lemma DeleteCollectionMovesDrift(s: State, id: Id, gone: bool)
    ensures Drift(AfterDeleteCollection(s, id, gone)) == Plus(Drift(s), Excess(s, DeleteCollection(id, gone)))
  {
    hide Sum;
    if id in s.colls {
      SumOfDrop(s.colls, id, ThumbnailSize);
      SumOfDrop(s.colls, id, IndexSize);
    }
  }

  lemma SaveIndexMovesDrift(s: State, id: Id, file: Option<nat>, dated: bool, ifExists: bool)
    ensures Drift(AfterSaveIndex(s, id, file, dated, ifExists))
            == Plus(Drift(s), Excess(s, SaveIndex(id, file, dated, ifExists)))
  {
    hide Sum;
    if Matches(s, id, ifExists) {
      CollPut(s, id, s.colls[id].(indexed := true, index := if dated && file.Some? then file else s.colls[id].index));
    }
  }

  lemma DeleteIndexMovesDrift(s: State, id: Id, busy: bool, gone: bool)
    ensures Drift(AfterDeleteIndex(s, id, busy, gone)) == Drift(s)
  {
    hide Sum;
    if id in s.colls {
      CollPut(s, id, s.colls[id].(indexed := false, index := None));
    }
  }

  lemma {:induction false} FreedAndStuck(files: seq<File>, stuck: set<int>, n: nat)
    requires n <= |files|
    ensures FreedUpTo(files, stuck, n) + StuckUpTo(files, stuck, n) == SizeUpTo(files, n)
    ensures 0 <= FreedUpTo(files, stuck, n) && 0 <= StuckUpTo(files, stuck, n)
    ensures StuckUpTo(files, stuck, n) == 0 <==> forall k | 0 <= k < n :: files[k].name in stuck ==> files[k].size == 0
  {
    if n > 0 {
      FreedAndStuck(files, stuck, n - 1);
    }
  }

  lemma {:induction false} DoomedAreListed(items: map<Id, Item>, ids: seq<Id>, kind: Kind, n: nat, id: Id)
    requires n <= |ids| && id in Doomed(items, ids, kind, n)
    ensures exists k | 0 <= k < n :: ids[k] == id
  {
    if id in Doomed(items, ids, kind, n - 1) {
      DoomedAreListed(items, ids, kind, n - 1, id);
    }
  }

  /** What the list deletes, counted for items of either kind. */
  lemma {:induction false} SumWithoutDoomed(items: map<Id, Item>, ids: seq<Id>, kind: Kind, stuck: set<int>,
                                            n: nat, counted: Kind)
    requires n <= |ids| && Distinct(ids)
    ensures Sum(items - Doomed(items, ids, kind, n), KindSize(counted))
            == Sum(items, KindSize(counted))
               - if counted != kind then 0
                 else FreedByList(items, ids, kind, stuck, n) + StuckInList(items, ids, kind, stuck, n)
  {
    if n == 0 {
      assert items - {} == items;
    } else {
      var id := ids[n - 1];
      SumWithoutDoomed(items, ids, kind, stuck, n - 1, counted);
      if id in items && items[id].kind == kind {
        var before := items - Doomed(items, ids, kind, n - 1);
        if id in Doomed(items, ids, kind, n - 1) {
          DoomedAreListed(items, ids, kind, n - 1, id);
        }
        assert items - Doomed(items, ids, kind, n) == before - {id};
        SumOfDrop(before, id, KindSize(counted));
        assert KindSize(counted)(before[id]) == if counted == kind then ItemSize(items[id]) else 0;
        FreedAndStuck(items[id].files, stuck, |items[id].files|);
      } else {
        assert Doomed(items, ids, kind, n) == Doomed(items, ids, kind, n - 1);
      }
    }
  }

  lemma DeleteItemsMovesDrift(s: State, ids: seq<Id>, kind: Kind, stuck: set<int>)
    requires Distinct(ids)
    ensures Drift(AfterDeleteItems(s, ids, kind, stuck)) == Plus(Drift(s), Excess(s, DeleteItems(ids, kind, stuck)))
  {
    hide Sum, FreedByList, StuckInList, Doomed;
    SumWithoutDoomed(s.items, ids, kind, stuck, |ids|, CrawlItem);
    SumWithoutDoomed(s.items, ids, kind, stuck, |ids|, UploadItem);
  }

  lemma SizesByKind(i: Item, kind: Kind)
    ensures KindSize(kind)(i) == if i.kind == kind then ItemSize(i) else 0
    ensures KindSize(kind)(i.(files := [])) == 0
  {
  }

  lemma ItemEmptied(s: State, id: Id, kind: Kind)
    requires id in s.items
    ensures Sum(s.items[id := s.items[id].(files := [])], KindSize(kind))
            == Sum(s.items, KindSize(kind)) - if s.items[id].kind == kind then ItemSize(s.items[id]) else 0
  {
    hide Sum, KindSize;
    SumOfPut(s.items, id, s.items[id].(files := []), KindSize(kind));
    SizesByKind(s.items[id], kind);
  }

  lemma DeleteFailedMovesDrift(s: State, id: Id, stuck: set<int>)
    ensures Drift(AfterDeleteFailedFiles(s, id, stuck)) == Plus(Drift(s), Excess(s, DeleteFailedFiles(id, stuck)))
  {
    hide Sum, KindSize, SizeUpTo, FreedUpTo, StuckUpTo;
    if id in s.items {
      ItemEmptied(s, id, CrawlItem);
      ItemEmptied(s, id, UploadItem);
      FreedAndStuck(s.items[id].files, stuck, |s.items[id].files|);
    }
  }

  lemma RecalculateMovesDrift(s: State)
    ensures Drift(AfterRecalculate(s)) == Plus(Drift(s), Excess(s, Recalculate))
  {
    hide Sum;
  }

  lemma PlusNothing(b: Bytes)
    ensures Plus(b, ZERO) == b
  {
  }

  /** The exact drift of every operation. */
  lemma DriftMovesByExcess(s: State, op: Op)
    requires ListsNoItemTwice(op)
    ensures Drift(Step(s, op)) == Plus(Drift(s), Excess(s, op))
  {
    hide Drift, Plus, AfterCommit, AfterUpdate, AfterDeleteProfile, AfterAddSeedFile, AfterDeleteFile,
      AfterUploadThumbnail, AfterDeleteThumbnail, AfterDeleteCollection, AfterSaveIndex, AfterDeleteIndex,
      AfterDeleteItems, AfterDeleteFailedFiles, AfterRecalculate,
      SizeUpTo, FreedUpTo, StuckUpTo, StuckInList, AllPresent, Matches, Distinct;
    PlusNothing(Drift(s));
    match op
    case CommitProfile(id, resource, prevSize, committed, replicated) =>
      CommitMovesDrift(s, id, resource, prevSize, committed, replicated);
    case UpdateProfile(id, resource, replicated) => UpdateMovesDrift(s, id, resource, replicated);
    case DeleteProfile(id, inUse) => DeleteProfileMovesDrift(s, id, inUse);
    case AddSeedFile(id, size, valid) => FilesMoveDrift(s, id, size, valid, true);
    case DeleteFile(id, inUse) => FilesMoveDrift(s, id, 0, true, inUse);
    case UploadThumbnail(id, size) => UploadThumbnailMovesDrift(s, id, size);
    case DeleteThumbnail(id, gone) => DeleteThumbnailMovesDrift(s, id, gone);
    case DeleteCollection(id, gone) => DeleteCollectionMovesDrift(s, id, gone);
    case SaveIndex(id, file, dated, ifExists) => SaveIndexMovesDrift(s, id, file, dated, ifExists);
    case DeleteIndex(id, busy, gone) => DeleteIndexMovesDrift(s, id, busy, gone);
    case DeleteItems(ids, kind, stuck) => DeleteItemsMovesDrift(s, ids, kind, stuck);
    case DeleteFailedFiles(id, stuck) => DeleteFailedMovesDrift(s, id, stuck);
    case Recalculate => RecalculateMovesDrift(s);
  }

  lemma {:induction false} StuckInListIsZeroIff(items: map<Id, Item>, ids: seq<Id>, kind: Kind, stuck: set<int>, n: nat)
    requires n <= |ids|
    ensures 0 <= StuckInList(items, ids, kind, stuck, n)
    ensures StuckInList(items, ids, kind, stuck, n) == 0 <==>
      forall k | 0 <= k < n :: ids[k] in items && items[ids[k]].kind == kind ==> NothingStuck(items[ids[k]], stuck)
  {
    if n > 0 {
      StuckInListIsZeroIff(items, ids, kind, stuck, n - 1);
      if ids[n - 1] in items {
        FreedAndStuck(items[ids[n - 1]].files, stuck, |items[ids[n - 1]].files|);
      }
    }
  }

  /** The counters stay as true as they were exactly when the condition holds that can be told before. */
  lemma FaithfulIff(s: State, op: Op)
    requires ListsNoItemTwice(op) && !op.Recalculate?
    ensures Drift(Step(s, op)) == Drift(s) <==> Faithful(s, op)
  {
    hide Step, Drift, SizeUpTo, Sum, StuckInList, FreedUpTo, StuckUpTo;
    DriftMovesByExcess(s, op);
    assert Drift(Step(s, op)) == Drift(s) <==> Excess(s, op) == ZERO;
    match op
    case DeleteItems(ids, kind, stuck) => StuckInListIsZeroIff(s.items, ids, kind, stuck, |ids|);
    case DeleteFailedFiles(id, stuck) =>
      if id in s.items {
        FreedAndStuck(s.items[id].files, stuck, |s.items[id].files|);
      }
    case _ =>
  }

  // ------------------------------------------------------------------------------------------
  // Whole runs
  // ------------------------------------------------------------------------------------------

  ghost function Run(s: State, ops: seq<Op>): State
    decreases |ops|
  {
    if ops == [] then s else Run(Step(s, ops[0]), ops[1..])
  }

  ghost predicate AllFaithful(s: State, ops: seq<Op>)
    decreases |ops|
  {
    ops == [] ||
    (!ops[0].Recalculate? && ListsNoItemTwice(ops[0]) && Faithful(s, ops[0]) && AllFaithful(Step(s, ops[0]), ops[1..]))
  }

  /** By how much the total falls short of the sum of the six fields. */
  function Gap(s: State): int {
    SumOfFields(s.stored) - s.total
  }

  /** Every operation moves the total with a field; only a recalculation forgets the indexes. */
  lemma TotalMovesWithTheFields(s: State, op: Op)
    ensures Gap(Step(s, op)) == if op.Recalculate? then s.stored.indexes else Gap(s)
  {
    hide Recount, Gap, Added, Doomed, FreedByList, Freed, AllPresent, IndexSize, ThumbnailSize, ProfileSize, SeedSize;
    forall t: State, f, n ensures Gap(Added(t, f, n)) == Gap(t) {
      GapOfAdded(t, f, n);
    }
    forall t: State | t.total == s.total && t.stored == s.stored ensures Gap(t) == Gap(s) {
      GapOfSame(s, t);
    }
    if op.Recalculate? {
      GapOfRecalculated(s);
    }
  }

  lemma GapOfAdded(s: State, f: Field, n: int)
    ensures Gap(Added(s, f, n)) == Gap(s)
  {
  }

  lemma GapOfSame(s: State, t: State)
    requires t.total == s.total && t.stored == s.stored
    ensures Gap(t) == Gap(s)
  {
  }

  lemma GapOfRecalculated(s: State)
    ensures Gap(AfterRecalculate(s)) == s.stored.indexes
  {
    hide Recount;
  }

  ghost predicate Consistent(s: State) {
    Drift(s) == ZERO && Gap(s) == 0
  }

  /** From true counters, operations that are faithful lead to true counters. */
  lemma {:induction false} FaithfulRunsStayConsistent(s: State, ops: seq<Op>)
    requires AllFaithful(s, ops)
    ensures Drift(Run(s, ops)) == Drift(s) && Gap(Run(s, ops)) == Gap(s)
    ensures Consistent(s) ==> Consistent(Run(s, ops))
    decreases |ops|
  {
    hide Step, Drift, Gap, Faithful;
    if ops != [] {
      FaithfulIff(s, ops[0]);
      TotalMovesWithTheFields(s, ops[0]);
      FaithfulRunsStayConsistent(Step(s, ops[0]), ops[1..]);
    }
  }

  /** What can be told before an operation that finds the counters right: that it leaves them right. A
      recalculation does so when no index bytes are counted. */
  ghost predicate KeepsRight(s: State, op: Op) {
    if op.Recalculate? then s.stored.indexes == 0 else Faithful(s, op)
  }

  lemma KeepsRightIff(s: State, op: Op)
    requires Consistent(s) && ListsNoItemTwice(op)
    ensures Consistent(Step(s, op)) <==> KeepsRight(s, op)
  {
    hide Step, Faithful, Drift;
    TotalMovesWithTheFields(s, op);
    if op.Recalculate? {
      RecalculationForgetsIndexes(s);
    } else {
      FaithfulIff(s, op);
    }
  }

  ghost predicate AlwaysConsistent(s: State, ops: seq<Op>)
    decreases |ops|
  {
    Consistent(s) && (ops == [] || AlwaysConsistent(Step(s, ops[0]), ops[1..]))
  }

  ghost predicate AlwaysKeepsRight(s: State, ops: seq<Op>)
    decreases |ops|
  {
    ops == [] || (KeepsRight(s, ops[0]) && AlwaysKeepsRight(Step(s, ops[0]), ops[1..]))
  }

  /** Over any run from right counters, recalculations included: every field equals a recount and the total is
      the sum of the six all along if and only if each operation keeps them right. */
  lemma {:induction false} RightAllAlongIff(s: State, ops: seq<Op>)
    requires Consistent(s) && forall i | 0 <= i < |ops| :: ListsNoItemTwice(ops[i])
    ensures AlwaysConsistent(s, ops) <==> AlwaysKeepsRight(s, ops)
    decreases |ops|
  {
    hide Step, Consistent, KeepsRight, ListsNoItemTwice;
    if ops != [] {
      KeepsRightIff(s, ops[0]);
      if Consistent(Step(s, ops[0])) {
        assert forall i | 0 <= i < |ops| - 1 :: ops[1..][i] == ops[i + 1];
        RightAllAlongIff(Step(s, ops[0]), ops[1..]);
      } else {
        NotConsistentLater(Step(s, ops[0]), ops[1..]);
      }
    }
  }

  lemma NotConsistentLater(s: State, ops: seq<Op>)
    requires !Consistent(s)
    ensures !AlwaysConsistent(s, ops)
  {
  }

  ghost function TotalExcess(s: State, ops: seq<Op>): Bytes
    decreases |ops|
  {
    if ops == [] then ZERO else Plus(Excess(s, ops[0]), TotalExcess(Step(s, ops[0]), ops[1..]))
  }

  /** Over any run the drift is the sum of what the operations added to it. */
  lemma {:induction false} RunDrift(s: State, ops: seq<Op>)
    requires forall i | 0 <= i < |ops| :: ListsNoItemTwice(ops[i])
    ensures Drift(Run(s, ops)) == Plus(Drift(s), TotalExcess(s, ops))
    decreases |ops|
  {
    hide Step, Drift, Excess, ListsNoItemTwice;
    if ops != [] {
      DriftMovesByExcess(s, ops[0]);
      assert forall i | 0 <= i < |ops| - 1 :: ops[1..][i] == ops[i + 1];
      RunDrift(Step(s, ops[0]), ops[1..]);
    }
  }

  /** After a recalculation five fields are right whatever they were, and the total is the sum of the six
      exactly when no index bytes are counted. */
  lemma RecalculationForgetsIndexes(s: State)
    ensures Drift(Step(s, Recalculate)) == ZERO.(indexes := Drift(s).indexes)
    ensures Gap(Step(s, Recalculate)) == 0 <==> s.stored.indexes == 0
  {
    hide Recount;
    DriftMovesByExcess(s, Recalculate);
    TotalMovesWithTheFields(s, Recalculate);
  }
}
