/** Presigned URLs in bulk: cached ones are reused, the rest are grouped by storage and signed. */
module PresignedFiles {
  import opened Options

  type Name = int
  type Storage = int
  type Label = int
  type Url = int

  /** How a storage labels itself, and the URL a storage makes for a name. */
  type Labels = Storage -> Label
  type Signing = (Storage, Name) -> Url

  /** crawl is filled in by the batch; info stands for the fields that are copied to the output. */
  datatype File = File(name: Name, storage: Storage, crawl: int, info: int)

  datatype Cached = Cached(name: Name, url: Url)

  /** What the query returns for one crawl. */
  datatype Result = Result(id: int, files: seq<File>, presigned: seq<Cached>)

  datatype Out = Out(file: File, url: Url)

  /** The files that one request signs; key is the label they are grouped by. */
  datatype Group = Group(storage: Storage, key: Label, files: seq<File>)

  // ------------------------------------------------------------------------------------------
  // Specification
  // ------------------------------------------------------------------------------------------

  /** A crawl's files, marked with the crawl. */
  function Marked(r: Result): (files: seq<File>)
    ensures |files| == |r.files|
    ensures forall k | 0 <= k < |files| :: files[k] == r.files[k].(crawl := r.id)
  {
    seq(|r.files|, k requires 0 <= k < |r.files| => r.files[k].(crawl := r.id))
  }

  /** What the dictionary by file name holds after the first n files: a later file takes the place of an
      earlier one with the same name. */
  function Mapping(files: seq<File>, n: nat): seq<File>
    requires n <= |files|
  {
    if n == 0 then [] else Put(Mapping(files, n - 1), files[n - 1])
  }

  function MappingOf(r: Result): seq<File> {
    Mapping(Marked(r), |Marked(r)|)
  }

  function Position(files: seq<File>, name: Name): (i: nat)
    ensures i <= |files| && (i < |files| ==> files[i].name == name)
    ensures forall k | 0 <= k < i :: files[k].name != name
  {
    if files == [] || files[0].name == name then 0 else 1 + Position(files[1..], name)
  }

  function Put(files: seq<File>, f: File): seq<File> {
    var i := Position(files, f.name);
    if i < |files| then files[i := f] else files + [f]
  }

  predicate UniqueNames(files: seq<File>) {
    forall i, j | 0 <= i < j < |files| :: files[i].name != files[j].name
  }

  predicate HasRow(rows: seq<Cached>, name: Name) {
    exists k | 0 <= k < |rows| :: rows[k].name == name
  }

  /** The first cached row with a name is the one that is used. */
  function FirstUrl(rows: seq<Cached>, name: Name): Url
    requires HasRow(rows, name)
  {
    if rows[0].name == name then rows[0].url else FirstUrl(rows[1..], name)
  }

  /** Of the first n files, those without a cached row, in order. */
  function Pending(files: seq<File>, rows: seq<Cached>, n: nat): seq<File>
    requires n <= |files|
  {
    if n == 0 then []
    else if HasRow(rows, files[n - 1].name) then Pending(files, rows, n - 1)
    else Pending(files, rows, n - 1) + [files[n - 1]]
  }

  /** Of the first n files, the outputs of those with a cached row. */
  ghost function Served(files: seq<File>, rows: seq<Cached>, n: nat): multiset<Out>
    requires n <= |files|
  {
    if n == 0 then multiset{}
    else if HasRow(rows, files[n - 1].name) then
      Served(files, rows, n - 1) + multiset{Out(files[n - 1], FirstUrl(rows, files[n - 1].name))}
    else Served(files, rows, n - 1)
  }

  function RowsOf(r: Result, forceUpdate: bool): seq<Cached> {
    if forceUpdate then [] else r.presigned
  }

  function LeftOf(r: Result, forceUpdate: bool): seq<File> {
    Pending(MappingOf(r), RowsOf(r, forceUpdate), |MappingOf(r)|)
  }

  ghost function ServedOf(r: Result, forceUpdate: bool): multiset<Out> {
    Served(MappingOf(r), RowsOf(r, forceUpdate), |MappingOf(r)|)
  }

  /** All files that have to be signed, crawl by crawl. */
  function ToSign(results: seq<Result>, forceUpdate: bool, n: nat): seq<File>
    requires n <= |results|
  {
    if n == 0 then [] else ToSign(results, forceUpdate, n - 1) + LeftOf(results[n - 1], forceUpdate)
  }

  ghost function AllServed(results: seq<Result>, forceUpdate: bool, n: nat): multiset<Out>
    requires n <= |results|
  {
    if n == 0 then multiset{} else AllServed(results, forceUpdate, n - 1) + ServedOf(results[n - 1], forceUpdate)
  }

  /** The storage of the first of the n files that has the label. */
  function FirstStorage(files: seq<File>, labelOf: Labels, n: nat, l: Label): Option<Storage>
    requires n <= |files|
  {
    if n == 0 then None
    else if FirstStorage(files, labelOf, n - 1, l).Some? then FirstStorage(files, labelOf, n - 1, l)
    else if labelOf(files[n - 1].storage) == l then Some(files[n - 1].storage)
    else None
  }

  /** The storage that signs file i: that of the first file with the same label. */
  function Signer(files: seq<File>, labelOf: Labels, i: nat): Storage
    requires i < |files|
  {
    var first := FirstStorage(files, labelOf, i, labelOf(files[i].storage));
    if first.Some? then first.value else files[i].storage
  }

  ghost function Signed(files: seq<File>, labelOf: Labels, sign: Signing, n: nat): multiset<Out>
    requires n <= |files|
  {
    if n == 0 then multiset{}
    else
      Signed(files, labelOf, sign, n - 1)
      + multiset{Out(files[n - 1], sign(Signer(files, labelOf, n - 1), files[n - 1].name))}
  }

  /** The output of a batch, whatever its order. */
  ghost function Outcome(results: seq<Result>, forceUpdate: bool, labelOf: Labels, sign: Signing)
    : multiset<Out>
  {
    var files := ToSign(results, forceUpdate, |results|);
    AllServed(results, forceUpdate, |results|) + Signed(files, labelOf, sign, |files|)
  }

  // ------------------------------------------------------------------------------------------
  // The batch
  // ------------------------------------------------------------------------------------------

  method BuildMapping(r: Result) returns (mapping: seq<File>)
    ensures mapping == MappingOf(r)
  {
    mapping := [];
    for i := 0 to |r.files|
      invariant mapping == Mapping(Marked(r), i)
    {
      mapping := Put(mapping, r.files[i].(crawl := r.id));
    }
  }

  /** Takes each file out of the mapping the first time a cached row names it. */
  method TakeCached(files: seq<File>, rows: seq<Cached>) returns (left: seq<File>, outs: seq<Out>)
    requires UniqueNames(files)
    ensures left == Pending(files, rows, |files|)
    ensures multiset(outs) == Served(files, rows, |files|)
  {
    left, outs := files, [];
    NothingServed(files, |files|);
    assert rows[..0] == [];
    for k := 0 to |rows|
      invariant left == Pending(files, rows[..k], |files|)
      invariant multiset(outs) == Served(files, rows[..k], |files|)
    {
      var row := rows[k];
      assert rows[..k + 1] == rows[..k] + [row];
      OneMoreRow(files, rows[..k], row);
      var i := Position(left, row.name);
      if i < |left| {
        outs := outs + [Out(left[i], row.url)];
        left := left[..i] + left[i + 1..];
      }
    }
    assert rows[..|rows|] == rows;
  }

  method GroupByStorage(files: seq<File>, labelOf: Labels, ghost sign: Signing)
    returns (groups: seq<Group>)
    ensures GroupsSigned(groups, sign) == Signed(files, labelOf, sign, |files|)
  {
    groups := [];
    for i := 0 to |files|
      invariant AgreeOnSigners(groups, files, labelOf, i)
      invariant GroupsSigned(groups, sign) == Signed(files, labelOf, sign, i)
    {
      NextIsSigned(groups, files, labelOf, sign, i);
      AddedKeepsAgreement(groups, files, labelOf, i);
      groups := AddTo(groups, files[i], labelOf(files[i].storage));
    }
  }

  /** One request; the signer returns one URL for each name, in the order of the names. */
  method SignGroup(g: Group, sign: Signing) returns (outs: seq<Out>)
    ensures multiset(outs) == GroupSigned(g, sign, |g.files|)
  {
    var urls := seq(|g.files|, k requires 0 <= k < |g.files| => sign(g.storage, g.files[k].name));
    outs := [];
    for k := 0 to |g.files|
      invariant multiset(outs) == GroupSigned(g, sign, k)
    {
      outs := outs + [Out(g.files[k], urls[k])];
    }
  }

  method SignGroups(groups: seq<Group>, sign: Signing) returns (outs: seq<Out>)
    ensures multiset(outs) == GroupsSigned(groups, sign)
  {
    outs := [];
    for i := 0 to |groups|
      invariant multiset(outs) + GroupsSigned(groups[i..], sign) == GroupsSigned(groups, sign)
    {
      var signed := SignGroup(groups[i], sign);
      assert groups[i..][1..] == groups[i + 1..];
      outs := outs + signed;
    }
  }

  method BulkPresignedFiles(results: seq<Result>, forceUpdate: bool, labelOf: Labels, sign: Signing)
    returns (resources: seq<Out>)
    ensures multiset(resources) == Outcome(results, forceUpdate, labelOf, sign)
  {
    resources := [];
    var signFiles: seq<File> := [];
    for i := 0 to |results|
      invariant multiset(resources) == AllServed(results, forceUpdate, i)
      invariant signFiles == ToSign(results, forceUpdate, i)
    {
      var mapping := BuildMapping(results[i]);
      MappingIsUnique(Marked(results[i]), |results[i].files|);
      var left, outs := TakeCached(mapping, RowsOf(results[i], forceUpdate));
      resources := resources + outs;
      signFiles := signFiles + left;
    }
    var groups := GroupByStorage(signFiles, labelOf, sign);
    var outs := SignGroups(groups, sign);
    resources := resources + outs;
  }

  // ------------------------------------------------------------------------------------------
  // The mapping and the cached rows
  // ------------------------------------------------------------------------------------------

  lemma PutKeepsUnique(files: seq<File>, f: File)
    requires UniqueNames(files)
    ensures UniqueNames(Put(files, f))
  {
  }

  lemma {:induction false} MappingIsUnique(files: seq<File>, n: nat)
    requires n <= |files|
    ensures UniqueNames(Mapping(files, n))
  {
    if n > 0 {
      MappingIsUnique(files, n - 1);
      PutKeepsUnique(Mapping(files, n - 1), files[n - 1]);
    }
  }

  lemma {:induction false} NothingServed(files: seq<File>, n: nat)
    requires n <= |files|
    ensures Pending(files, [], n) == files[..n] && Served(files, [], n) == multiset{}
  {
    if n > 0 {
      NothingServed(files, n - 1);
    }
  }

  lemma FirstUrlOfOneMore(rows: seq<Cached>, row: Cached, name: Name)
    ensures HasRow(rows + [row], name) <==> HasRow(rows, name) || row.name == name
    ensures HasRow(rows, name) ==> FirstUrl(rows + [row], name) == FirstUrl(rows, name)
    ensures !HasRow(rows, name) && row.name == name ==> FirstUrl(rows + [row], name) == row.url
    decreases |rows|
  {
    var more := rows + [row];
    assert more[|rows|] == row && forall k | 0 <= k < |rows| :: more[k] == rows[k];
    if rows != [] {
      assert more[1..] == rows[1..] + [row];
      if rows[0].name != name {
        FirstUrlOfOneMore(rows[1..], row, name);
        assert HasRow(rows, name) <==> HasRow(rows[1..], name);
      }
    }
  }

  lemma {:induction false} PendingNames(files: seq<File>, rows: seq<Cached>, n: nat)
    requires n <= |files|
    ensures forall i | 0 <= i < |Pending(files, rows, n)| ::
      !HasRow(rows, Pending(files, rows, n)[i].name) && Pending(files, rows, n)[i] in files[..n]
  {
    if n > 0 {
      PendingNames(files, rows, n - 1);
      assert files[..n] == files[..n - 1] + [files[n - 1]];
    }
  }

  /** Takes out what is at a position, if the position exists. */
  function Cut(files: seq<File>, i: nat): seq<File>
    requires i <= |files|
  {
    if i < |files| then files[..i] + files[i + 1..] else files
  }

  lemma PositionInOneMore(files: seq<File>, f: File, name: Name)
    ensures Position(files + [f], name) ==
      if Position(files, name) < |files| then Position(files, name) else if f.name == name then |files| else |files| + 1
  {
    var more := files + [f];
    var p := Position(files, name);
    assert forall k | 0 <= k < |files| :: more[k] == files[k];
    assert more[|files|] == f;
    if p < |files| {
      assert more[p].name == name;
    }
  }

  lemma CutOfOneMore(files: seq<File>, f: File, i: nat)
    requires i <= |files|
    ensures i < |files| ==> Cut(files + [f], i) == Cut(files, i) + [f]
    ensures Cut(files + [f], |files|) == files && Cut(files + [f], |files| + 1) == files + [f]
  {
  }

  lemma PendingNamesDiffer(files: seq<File>, rows: seq<Cached>, n: nat)
    requires UniqueNames(files) && n < |files|
    ensures NoneIsNamed(Pending(files, rows, n), files[n].name)
  {
    PendingNames(files, rows, n);
  }

  predicate NoneIsNamed(files: seq<File>, name: Name) {
    forall i | 0 <= i < |files| :: files[i].name != name
  }

  function Taken(left: seq<File>, row: Cached): multiset<Out> {
    var i := Position(left, row.name);
    if i < |left| then multiset{Out(left[i], row.url)} else multiset{}
  }

  lemma TakenFromOneMore(before: seq<File>, f: File, row: Cached)
    requires NoneIsNamed(before, f.name)
    ensures Cut(before + [f], Position(before + [f], row.name))
            == if f.name == row.name then before else Cut(before, Position(before, row.name)) + [f]
    ensures Taken(before + [f], row) == if f.name == row.name then multiset{Out(f, row.url)} else Taken(before, row)
    ensures f.name == row.name ==> Cut(before, Position(before, row.name)) == before && Taken(before, row) == multiset{}
  {
    PositionInOneMore(before, f, row.name);
    CutOfOneMore(before, f, Position(before, row.name));
  }

  /** One more cached row takes the file with its name out of the pending ones, if it is still there. */
  lemma {:induction false} RowTakesPending(files: seq<File>, rows: seq<Cached>, row: Cached, n: nat)
    requires UniqueNames(files) && n <= |files|
    ensures var left := Pending(files, rows, n); Pending(files, rows + [row], n) == Cut(left, Position(left, row.name))
  {
    hide HasRow, FirstUrl, UniqueNames, NoneIsNamed, Position;
    if n > 0 {
      RowTakesPending(files, rows, row, n - 1);
      FirstUrlOfOneMore(rows, row, files[n - 1].name);
      if !HasRow(rows, files[n - 1].name) {
        PendingNamesDiffer(files, rows, n - 1);
        TakenFromOneMore(Pending(files, rows, n - 1), files[n - 1], row);
      }
    }
  }

  /** And it serves that file. */
  lemma {:induction false} RowServes(files: seq<File>, rows: seq<Cached>, row: Cached, n: nat, o: Out)
    requires UniqueNames(files) && n <= |files|
    ensures Served(files, rows + [row], n)[o] == Served(files, rows, n)[o] + Taken(Pending(files, rows, n), row)[o]
  {
    hide HasRow, UniqueNames, NoneIsNamed, Cut, Position;
    if n > 0 {
      RowServes(files, rows, row, n - 1, o);
      FirstUrlOfOneMore(rows, row, files[n - 1].name);
      if !HasRow(rows, files[n - 1].name) {
        PendingNamesDiffer(files, rows, n - 1);
        TakenFromOneMore(Pending(files, rows, n - 1), files[n - 1], row);
      }
    }
  }

  lemma OneMoreRow(files: seq<File>, rows: seq<Cached>, row: Cached)
    requires UniqueNames(files)
    ensures var left := Pending(files, rows, |files|);
            && Pending(files, rows + [row], |files|) == Cut(left, Position(left, row.name))
            && Served(files, rows + [row], |files|) == Served(files, rows, |files|) + Taken(left, row)
  {
    RowTakesPending(files, rows, row, |files|);
    var served := Served(files, rows, |files|) + Taken(Pending(files, rows, |files|), row);
    forall o: Out ensures Served(files, rows + [row], |files|)[o] == served[o] {
      RowServes(files, rows, row, |files|, o);
    }
  }

  // ------------------------------------------------------------------------------------------
  // Groups
  // ------------------------------------------------------------------------------------------

  /** Adds a file to the group of its label; a new label opens a group with the file's own storage. */
  function AddTo(groups: seq<Group>, f: File, l: Label): seq<Group> {
    if groups == [] then [Group(f.storage, l, [f])]
    else if groups[0].key == l then [groups[0].(files := groups[0].files + [f])] + groups[1..]
    else [groups[0]] + AddTo(groups[1..], f, l)
  }

  function StorageFor(groups: seq<Group>, l: Label): Option<Storage> {
    if groups == [] then None
    else if groups[0].key == l then Some(groups[0].storage)
    else StorageFor(groups[1..], l)
  }

  ghost function GroupSigned(g: Group, sign: Signing, n: nat): multiset<Out>
    requires n <= |g.files|
  {
    if n == 0 then multiset{}
    else GroupSigned(g, sign, n - 1) + multiset{Out(g.files[n - 1], sign(g.storage, g.files[n - 1].name))}
  }

  ghost function GroupsSigned(groups: seq<Group>, sign: Signing): multiset<Out> {
    if groups == [] then multiset{}
    else GroupSigned(groups[0], sign, |groups[0].files|) + GroupsSigned(groups[1..], sign)
  }

  ghost predicate AgreeOnSigners(groups: seq<Group>, files: seq<File>, labelOf: Labels, n: nat)
    requires n <= |files|
  {
    forall l :: StorageFor(groups, l) == FirstStorage(files, labelOf, n, l)
  }

  lemma {:induction false} GroupOfOneMore(g: Group, f: File, sign: Signing, n: nat)
    requires n <= |g.files|
    ensures GroupSigned(g.(files := g.files + [f]), sign, n) == GroupSigned(g, sign, n)
  {
    if n > 0 {
      GroupOfOneMore(g, f, sign, n - 1);
    }
  }

  /** A file that joins a group is signed by the group's storage, and nothing else changes. */
  lemma {:induction false} AddedIsSigned(groups: seq<Group>, f: File, l: Label, sign: Signing, o: Out)
    ensures var signer := if StorageFor(groups, l).Some? then StorageFor(groups, l).value else f.storage;
            GroupsSigned(AddTo(groups, f, l), sign)[o]
            == GroupsSigned(groups, sign)[o] + if o == Out(f, sign(signer, f.name)) then 1 else 0
  {
    var added := AddTo(groups, f, l);
    if groups == [] {
      assert added[1..] == [];
      assert GroupSigned(Group(f.storage, l, [f]), sign, 0) == multiset{};
    } else if groups[0].key == l {
      assert added[1..] == groups[1..];
      GroupOfOneMore(groups[0], f, sign, |groups[0].files|);
    } else {
      assert added[1..] == AddTo(groups[1..], f, l);
      AddedIsSigned(groups[1..], f, l, sign, o);
    }
  }

  lemma {:induction false} StorageForAdded(groups: seq<Group>, f: File, l: Label, asked: Label)
    ensures StorageFor(AddTo(groups, f, l), asked) ==
      if StorageFor(groups, asked).None? && asked == l then Some(f.storage) else StorageFor(groups, asked)
  {
    var added := AddTo(groups, f, l);
    if groups == [] {
      assert added[1..] == [];
    } else if groups[0].key == l {
      assert added[1..] == groups[1..];
    } else {
      assert added[1..] == AddTo(groups[1..], f, l);
      StorageForAdded(groups[1..], f, l, asked);
    }
  }

  lemma AddedKeepsAgreement(groups: seq<Group>, files: seq<File>, labelOf: Labels, i: nat)
    requires i < |files| && AgreeOnSigners(groups, files, labelOf, i)
    ensures AgreeOnSigners(AddTo(groups, files[i], labelOf(files[i].storage)), files, labelOf, i + 1)
  {
    var l := labelOf(files[i].storage);
    forall asked ensures StorageFor(AddTo(groups, files[i], l), asked) == FirstStorage(files, labelOf, i + 1, asked) {
      StorageForAdded(groups, files[i], l, asked);
      assert StorageFor(groups, asked) == FirstStorage(files, labelOf, i, asked);
    }
  }

  lemma NextIsSigned(groups: seq<Group>, files: seq<File>, labelOf: Labels, sign: Signing, i: nat)
    requires i < |files| && AgreeOnSigners(groups, files, labelOf, i)
    requires GroupsSigned(groups, sign) == Signed(files, labelOf, sign, i)
    ensures GroupsSigned(AddTo(groups, files[i], labelOf(files[i].storage)), sign)
            == Signed(files, labelOf, sign, i + 1)
  {
    var added := AddTo(groups, files[i], labelOf(files[i].storage));
    forall o: Out ensures GroupsSigned(added, sign)[o] == Signed(files, labelOf, sign, i + 1)[o] {
      AddedIsSigned(groups, files[i], labelOf(files[i].storage), sign, o);
    }
  }

  // ------------------------------------------------------------------------------------------
  // What the batch promises
  // ------------------------------------------------------------------------------------------

  /** The URL a file should have: its own cached one, or one signed by its own storage for its own name. */
  function OwnUrl(f: File, rows: seq<Cached>, sign: Signing): Url {
    if HasRow(rows, f.name) then FirstUrl(rows, f.name) else sign(f.storage, f.name)
  }

  /** The first n files, each once, each with its own URL. */
  ghost function Expected(files: seq<File>, rows: seq<Cached>, sign: Signing, n: nat): multiset<Out>
    requires n <= |files|
  {
    if n == 0 then multiset{}
    else Expected(files, rows, sign, n - 1) + multiset{Out(files[n - 1], OwnUrl(files[n - 1], rows, sign))}
  }

  ghost function ExpectedOf(r: Result, forceUpdate: bool, sign: Signing): multiset<Out> {
    Expected(Marked(r), RowsOf(r, forceUpdate), sign, |Marked(r)|)
  }

  ghost function AllExpected(results: seq<Result>, forceUpdate: bool, sign: Signing, n: nat): multiset<Out>
    requires n <= |results|
  {
    if n == 0 then multiset{}
    else AllExpected(results, forceUpdate, sign, n - 1) + ExpectedOf(results[n - 1], forceUpdate, sign)
  }

  /** Files with the same label have the same storage. */
  predicate Unambiguous(files: seq<File>, labelOf: Labels) {
    forall i, j | 0 <= i < j < |files| ::
      labelOf(files[i].storage) == labelOf(files[j].storage) ==> files[i].storage == files[j].storage
  }

  function FileCount(results: seq<Result>, n: nat): nat
    requires n <= |results|
  {
    if n == 0 then 0 else FileCount(results, n - 1) + |results[n - 1].files|
  }

  function MappingCount(results: seq<Result>, n: nat): nat
    requires n <= |results|
  {
    if n == 0 then 0 else MappingCount(results, n - 1) + |MappingOf(results[n - 1])|
  }

  lemma PositionBeyond(files: seq<File>, name: Name)
    ensures Position(files, name) < |files| <==> exists k | 0 <= k < |files| :: files[k].name == name
  {
  }

  predicate NameIsIn(files: seq<File>, name: Name) {
    exists k | 0 <= k < |files| :: files[k].name == name
  }

  lemma PutIs(files: seq<File>, f: File)
    ensures NameIsIn(files, f.name) ==> |Put(files, f)| == |files|
    ensures !NameIsIn(files, f.name) ==> Put(files, f) == files + [f]
  {
    PositionBeyond(files, f.name);
  }

  lemma UniqueOfOneMore(files: seq<File>, f: File)
    ensures UniqueNames(files + [f]) <==> UniqueNames(files) && !NameIsIn(files, f.name)
  {
    var more := files + [f];
    assert more[|files|] == f && forall k | 0 <= k < |files| :: more[k] == files[k];
  }

  /** The dictionary holds every file, in order, exactly when no name occurs twice. */
  lemma {:induction false} MappingKeepsAllIff(files: seq<File>, n: nat)
    requires n <= |files|
    ensures |Mapping(files, n)| <= n
    ensures |Mapping(files, n)| == n <==> UniqueNames(files[..n])
    ensures |Mapping(files, n)| == n <==> Mapping(files, n) == files[..n]
  {
    if n > 0 {
      MappingKeepsAllIff(files, n - 1);
      PutIs(Mapping(files, n - 1), files[n - 1]);
      UniqueOfOneMore(files[..n - 1], files[n - 1]);
      hide Put, NameIsIn, UniqueNames;
      assert files[..n] == files[..n - 1] + [files[n - 1]];
    }
  }

  lemma {:induction false} FirstStorageIsOfAFile(files: seq<File>, labelOf: Labels, n: nat, l: Label)
    requires n <= |files|
    ensures FirstStorage(files, labelOf, n, l).Some? ==>
      exists k | 0 <= k < n ::
        files[k].storage == FirstStorage(files, labelOf, n, l).value && labelOf(files[k].storage) == l
    ensures FirstStorage(files, labelOf, n, l).None? ==> forall k | 0 <= k < n :: labelOf(files[k].storage) != l
  {
    if n > 0 {
      FirstStorageIsOfAFile(files, labelOf, n - 1, l);
    }
  }

  lemma {:induction false} FirstStorageStays(files: seq<File>, labelOf: Labels, i: nat, n: nat)
    requires i < n <= |files|
    ensures FirstStorage(files, labelOf, n, labelOf(files[i].storage)) == Some(Signer(files, labelOf, i))
  {
    if i < n - 1 {
      FirstStorageStays(files, labelOf, i, n - 1);
    }
  }

  /** Every file is signed by its own storage exactly when equal labels mean equal storages. */
  lemma SignedByItsOwnIff(files: seq<File>, labelOf: Labels)
    ensures Unambiguous(files, labelOf)
            <==> forall i | 0 <= i < |files| :: Signer(files, labelOf, i) == files[i].storage
  {
    if Unambiguous(files, labelOf) {
      forall i | 0 <= i < |files| ensures Signer(files, labelOf, i) == files[i].storage {
        FirstStorageIsOfAFile(files, labelOf, i, labelOf(files[i].storage));
      }
    } else {
      var i, j :| 0 <= i < j < |files| && labelOf(files[i].storage) == labelOf(files[j].storage)
                  && files[i].storage != files[j].storage;
      FirstStorageStays(files, labelOf, i, |files|);
      FirstStorageStays(files, labelOf, j, |files|);
      assert Signer(files, labelOf, i) == Signer(files, labelOf, j);
    }
  }

  /** Some of the files, signed by their own storages. */
  ghost function OwnSigned(files: seq<File>, sign: Signing, n: nat): multiset<Out>
    requires n <= |files|
  {
    if n == 0 then multiset{}
    else OwnSigned(files, sign, n - 1) + multiset{Out(files[n - 1], sign(files[n - 1].storage, files[n - 1].name))}
  }

  lemma {:induction false} SignedIsOwnSigned(files: seq<File>, labelOf: Labels, sign: Signing, n: nat)
    requires n <= |files| && forall i | 0 <= i < |files| :: Signer(files, labelOf, i) == files[i].storage
    ensures Signed(files, labelOf, sign, n) == OwnSigned(files, sign, n)
  {
    if n > 0 {
      SignedIsOwnSigned(files, labelOf, sign, n - 1);
    }
  }

  lemma {:induction false} OwnSignedOfPrefix(files: seq<File>, more: seq<File>, sign: Signing, n: nat)
    requires n <= |files|
    ensures OwnSigned(files + more, sign, n) == OwnSigned(files, sign, n)
  {
    if n > 0 {
      OwnSignedOfPrefix(files, more, sign, n - 1);
    }
  }

  lemma OwnSignedOfOneMore(files: seq<File>, sign: Signing, n: nat, o: Out)
    requires 0 < n <= |files|
    ensures var f := files[n - 1];
            OwnSigned(files, sign, n)[o]
            == OwnSigned(files, sign, n - 1)[o] + if o == Out(f, sign(f.storage, f.name)) then 1 else 0
  {
  }

  lemma {:induction false} OwnSignedOfSum(files: seq<File>, more: seq<File>, sign: Signing, n: nat, o: Out)
    requires n <= |more|
    ensures OwnSigned(files + more, sign, |files| + n)[o]
            == OwnSigned(files, sign, |files|)[o] + OwnSigned(more, sign, n)[o]
  {
    hide OwnSigned;
    if n == 0 {
      OwnSignedOfPrefix(files, more, sign, |files|);
      OwnSignedOfNone(more, sign);
    } else {
      OwnSignedOfSum(files, more, sign, n - 1, o);
      OwnSignedOfOneMore(files + more, sign, |files| + n, o);
      OwnSignedOfOneMore(more, sign, n, o);
      assert (files + more)[|files| + n - 1] == more[n - 1];
    }
  }

  lemma OwnSignedOfNone(files: seq<File>, sign: Signing)
    ensures OwnSigned(files, sign, 0) == multiset{}
  {
  }

  ghost function AllOwnSigned(files: seq<File>, sign: Signing): multiset<Out> {
    OwnSigned(files, sign, |files|)
  }

  lemma AllOwnSignedOfNone(sign: Signing)
    ensures AllOwnSigned([], sign) == multiset{}
  {
  }

  lemma AllOwnSignedOfSum(files: seq<File>, more: seq<File>, sign: Signing, o: Out)
    ensures AllOwnSigned(files + more, sign)[o] == AllOwnSigned(files, sign)[o] + AllOwnSigned(more, sign)[o]
  {
    OwnSignedOfSum(files, more, sign, |more|, o);
  }

  lemma AllOwnSignedOfOneMore(files: seq<File>, f: File, sign: Signing, o: Out)
    ensures AllOwnSigned(files + [f], sign)[o]
            == AllOwnSigned(files, sign)[o] + if o == Out(f, sign(f.storage, f.name)) then 1 else 0
  {
    OwnSignedOfPrefix(files, [f], sign, |files|);
  }

  /** The files with a cached row and those without make up all of them. */
  lemma {:induction false} SplitIsComplete(files: seq<File>, rows: seq<Cached>, sign: Signing, n: nat, o: Out)
    requires n <= |files|
    ensures Served(files, rows, n)[o] + AllOwnSigned(Pending(files, rows, n), sign)[o]
            == Expected(files, rows, sign, n)[o]
  {
    hide HasRow, FirstUrl, AllOwnSigned;
    if n == 0 {
      AllOwnSignedOfNone(sign);
    } else {
      SplitIsComplete(files, rows, sign, n - 1, o);
      AllOwnSignedOfOneMore(Pending(files, rows, n - 1), files[n - 1], sign, o);
    }
  }

  predicate CrawlNamesUnique(r: Result) {
    UniqueNames(Marked(r))
  }

  predicate NamesAreUnique(results: seq<Result>) {
    forall i | 0 <= i < |results| :: CrawlNamesUnique(results[i])
  }

  lemma CrawlIsComplete(r: Result, forceUpdate: bool, sign: Signing, o: Out)
    requires CrawlNamesUnique(r)
    ensures ServedOf(r, forceUpdate)[o] + AllOwnSigned(LeftOf(r, forceUpdate), sign)[o]
            == ExpectedOf(r, forceUpdate, sign)[o]
  {
    var files := Marked(r);
    MappingKeepsAllIff(files, |files|);
    assert files[..|files|] == files;
    SplitIsComplete(files, RowsOf(r, forceUpdate), sign, |files|, o);
  }

  lemma {:induction false} AllSplitsAreComplete(results: seq<Result>, forceUpdate: bool, sign: Signing, n: nat, o: Out)
    requires n <= |results| && NamesAreUnique(results)
    ensures AllServed(results, forceUpdate, n)[o] + AllOwnSigned(ToSign(results, forceUpdate, n), sign)[o]
            == AllExpected(results, forceUpdate, sign, n)[o]
  {
    hide LeftOf, ServedOf, ExpectedOf, AllOwnSigned, CrawlNamesUnique;
    if n == 0 {
      AllOwnSignedOfNone(sign);
    } else {
      AllSplitsAreComplete(results, forceUpdate, sign, n - 1, o);
      CrawlIsComplete(results[n - 1], forceUpdate, sign, o);
      AllOwnSignedOfSum(ToSign(results, forceUpdate, n - 1), LeftOf(results[n - 1], forceUpdate), sign, o);
    }
  }

  /** With names unique within each crawl and unambiguous labels, each input file is in the output exactly
      once, with its own cached URL or the URL its own storage signed for its own name. */
  lemma EveryFileOnce(results: seq<Result>, forceUpdate: bool, labelOf: Labels, sign: Signing)
    requires NamesAreUnique(results)
    requires Unambiguous(ToSign(results, forceUpdate, |results|), labelOf)
    ensures Outcome(results, forceUpdate, labelOf, sign) == AllExpected(results, forceUpdate, sign, |results|)
  {
    var files := ToSign(results, forceUpdate, |results|);
    SignedByItsOwnIff(files, labelOf);
    SignedIsOwnSigned(files, labelOf, sign, |files|);
    forall o: Out
      ensures Outcome(results, forceUpdate, labelOf, sign)[o] == AllExpected(results, forceUpdate, sign, |results|)[o]
    {
      AllSplitsAreComplete(results, forceUpdate, sign, |results|, o);
    }
  }

  /** What is cached for a name: the URL of the first row of the crawl that has it. */
  ghost predicate IsCachedUrl(r: Result, name: Name, url: Url) {
    exists j: nat | j < |r.presigned| ::
      && r.presigned[j].name == name && r.presigned[j].url == url
      && forall i | 0 <= i < j :: r.presigned[i].name != name
  }

  ghost predicate IsCached(r: Result, name: Name) {
    exists j: nat | j < |r.presigned| :: r.presigned[j].name == name
  }

  /** The k-th file of a crawl, marked with it, with the cached URL, or, if there is none or the update is forced, with
      the one its own storage signs for its name. */
  ghost predicate Gets(r: Result, forceUpdate: bool, sign: Signing, k: nat, o: Out) {
    && k < |r.files| && o.file == r.files[k].(crawl := r.id)
    && if !forceUpdate && IsCached(r, r.files[k].name) then IsCachedUrl(r, r.files[k].name, o.url)
       else o.url == sign(r.files[k].storage, r.files[k].name)
  }

  lemma {:induction false} FirstUrlIs(rows: seq<Cached>, name: Name)
    requires HasRow(rows, name)
    ensures exists j: nat | j < |rows| ::
      && rows[j].name == name && rows[j].url == FirstUrl(rows, name)
      && forall i | 0 <= i < j :: rows[i].name != name
    decreases |rows|
  {
    if rows[0].name != name {
      var rest := rows[1..];
      var k :| 0 <= k < |rows| && rows[k].name == name;
      assert rest[k - 1].name == name;
      FirstUrlIs(rest, name);
      var j: nat :| j < |rest| && rest[j].name == name && rest[j].url == FirstUrl(rest, name)
        && forall i | 0 <= i < j :: rest[i].name != name;
      assert forall i | 0 < i < j + 1 :: rows[i] == rest[i - 1];
      assert rows[j + 1] == rest[j];
    }
  }

  lemma OneFileGets(r: Result, forceUpdate: bool, sign: Signing, k: nat, o: Out)
    requires k < |r.files|
    ensures Gets(r, forceUpdate, sign, k, o) <==>
            o == Out(Marked(r)[k], OwnUrl(Marked(r)[k], RowsOf(r, forceUpdate), sign))
  {
    var name := r.files[k].name;
    assert HasRow(r.presigned, name) <==> IsCached(r, name);
    assert !HasRow([], name);
    if HasRow(r.presigned, name) {
      FirstUrlIs(r.presigned, name);
      assert IsCachedUrl(r, name, FirstUrl(r.presigned, name));
    }
  }

  lemma {:induction false} ExpectedHas(r: Result, forceUpdate: bool, sign: Signing, n: nat, o: Out)
    requires n <= |r.files|
    ensures o in Expected(Marked(r), RowsOf(r, forceUpdate), sign, n)
            <==> exists k: nat | k < n :: Gets(r, forceUpdate, sign, k, o)
  {
    hide Gets, OwnUrl, RowsOf;
    if n > 0 {
      ExpectedHas(r, forceUpdate, sign, n - 1, o);
      OneFileGets(r, forceUpdate, sign, n - 1, o);
    }
  }

  ghost predicate SomeFileGets(r: Result, forceUpdate: bool, sign: Signing, o: Out) {
    exists k: nat | k < |r.files| :: Gets(r, forceUpdate, sign, k, o)
  }

  lemma ExpectedOfHas(r: Result, forceUpdate: bool, sign: Signing, o: Out)
    ensures o in ExpectedOf(r, forceUpdate, sign) <==> SomeFileGets(r, forceUpdate, sign, o)
  {
    hide Gets;
    ExpectedHas(r, forceUpdate, sign, |r.files|, o);
  }

  lemma {:induction false} AllExpectedHas(results: seq<Result>, forceUpdate: bool, sign: Signing, n: nat, o: Out)
    requires n <= |results|
    ensures o in AllExpected(results, forceUpdate, sign, n)
            <==> exists i: nat | i < n :: SomeFileGets(results[i], forceUpdate, sign, o)
  {
    hide SomeFileGets, ExpectedOf;
    if n > 0 {
      AllExpectedHas(results, forceUpdate, sign, n - 1, o);
      ExpectedOfHas(results[n - 1], forceUpdate, sign, o);
    }
  }

  /** Under the same conditions, read off the input: the output is each file of each crawl with the URL cached for its
      name, or, if there is none or the update is forced, the one its own storage signs, and nothing else. */
  lemma OutputIsWhatFilesGet(results: seq<Result>, forceUpdate: bool, labelOf: Labels, sign: Signing, o: Out)
    requires NamesAreUnique(results)
    requires Unambiguous(ToSign(results, forceUpdate, |results|), labelOf)
    ensures o in Outcome(results, forceUpdate, labelOf, sign)
            <==> exists i: nat | i < |results| :: SomeFileGets(results[i], forceUpdate, sign, o)
  {
    EveryFileOnce(results, forceUpdate, labelOf, sign);
    AllExpectedHas(results, forceUpdate, sign, |results|, o);
  }

  lemma {:induction false} SignedSize(files: seq<File>, labelOf: Labels, sign: Signing, n: nat)
    requires n <= |files|
    ensures |Signed(files, labelOf, sign, n)| == n
  {
    if n > 0 {
      SignedSize(files, labelOf, sign, n - 1);
    }
  }

  lemma {:induction false} SplitSize(files: seq<File>, rows: seq<Cached>, n: nat)
    requires n <= |files|
    ensures |Served(files, rows, n)| + |Pending(files, rows, n)| == n
  {
    if n > 0 {
      SplitSize(files, rows, n - 1);
    }
  }

  lemma {:induction false} AllSplitsSize(results: seq<Result>, forceUpdate: bool, n: nat)
    requires n <= |results|
    ensures |AllServed(results, forceUpdate, n)| + |ToSign(results, forceUpdate, n)| == MappingCount(results, n)
  {
    if n > 0 {
      AllSplitsSize(results, forceUpdate, n - 1);
      var files := MappingOf(results[n - 1]);
      SplitSize(files, RowsOf(results[n - 1], forceUpdate), |files|);
    }
  }

  lemma CrawlCountsAgreeIff(r: Result)
    ensures |MappingOf(r)| <= |r.files|
    ensures |MappingOf(r)| == |r.files| <==> CrawlNamesUnique(r)
  {
    var files := Marked(r);
    MappingKeepsAllIff(files, |files|);
    assert files[..|files|] == files;
  }

  lemma {:induction false} CountsAgreeIff(results: seq<Result>, n: nat)
    requires n <= |results|
    ensures MappingCount(results, n) <= FileCount(results, n)
    ensures MappingCount(results, n) == FileCount(results, n) <==> forall i | 0 <= i < n :: CrawlNamesUnique(results[i])
  {
    if n > 0 {
      CountsAgreeIff(results, n - 1);
      CrawlCountsAgreeIff(results[n - 1]);
    }
  }

  /** The output is as long as the input exactly when no crawl has two files of one name; cached rows,
      duplicates among them and grouping never change its length. */
  lemma NothingIsLostIff(results: seq<Result>, forceUpdate: bool, labelOf: Labels, sign: Signing)
    ensures |Outcome(results, forceUpdate, labelOf, sign)| <= FileCount(results, |results|)
    ensures |Outcome(results, forceUpdate, labelOf, sign)| == FileCount(results, |results|) <==> NamesAreUnique(results)
  {
    var files := ToSign(results, forceUpdate, |results|);
    SignedSize(files, labelOf, sign, |files|);
    AllSplitsSize(results, forceUpdate, |results|);
    CountsAgreeIff(results, |results|);
  }
}
