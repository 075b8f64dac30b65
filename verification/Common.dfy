/** What several parts of the backend share. */
module Numbers {

  function Min(a: int, b: int): (m: int)
    ensures m <= a && m <= b && (m == a || m == b)
  {
    if a <= b then a else b
  }

  function Max(a: int, b: int): (m: int)
    ensures m >= a && m >= b && (m == a || m == b)
  {
    if a >= b then a else b
  }
}

/** Archived items are crawls or uploads, and have files. */
module ArchivedFiles {

  datatype Kind = CrawlItem | UploadItem

  datatype File = File(name: int, size: nat)

  /** The size of the first n files. */
  function SizeUpTo(files: seq<File>, n: nat): nat
    requires n <= |files|
  {
    if n == 0 then 0 else SizeUpTo(files, n - 1) + files[n - 1].size
  }

  function SizeOf(files: seq<File>): nat {
    SizeUpTo(files, |files|)
  }

  lemma {:induction false} SizeOfPrefix(files: seq<File>, more: seq<File>, n: nat)
    requires n <= |files|
    ensures SizeUpTo(files + more, n) == SizeUpTo(files, n)
  {
    if n > 0 {
      SizeOfPrefix(files, more, n - 1);
    }
  }

  /** One file has its own size, none has no size, and sizes add up. */
  lemma {:induction false} SizesAddUp(a: seq<File>, b: seq<File>, f: File)
    ensures SizeOf([]) == 0 && SizeOf([f]) == f.size && SizeOf(a + b) == SizeOf(a) + SizeOf(b)
    decreases |b|
  {
    assert SizeUpTo([f], 1) == SizeUpTo([f], 0) + f.size;
    if b == [] {
      assert a + b == a;
    } else {
      var n := |b| - 1;
      SizesAddUp(a, b[..n], f);
      assert a + b == (a + b[..n]) + [b[n]] && b == b[..n] + [b[n]];
      SizeOfPrefix(a + b[..n], [b[n]], |a| + n);
      SizeOfPrefix(b[..n], [b[n]], n);
    }
  }
}
