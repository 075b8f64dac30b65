/** The crawl queue: resumable matching in chunks, and the range of an old list queue by negative indices. */
module CrawlQueue {
  import opened Numbers

  /** A queued URL: which one it is, and how long. */
  datatype Url = Url(id: nat, length: nat)

  const STEP := 50

  const MAX_MATCH_SIZE := 500000

  // ------------------------------------------------------------------------------------------
  // Matching
  // ------------------------------------------------------------------------------------------

  function Filter(urls: seq<Url>, matches: Url -> bool): seq<Url> {
    if urls == [] then []
    else
      var n := |urls| - 1;
      Filter(urls[..n], matches) + if matches(urls[n]) then [urls[n]] else []
  }

  lemma {:induction false} FilterOfConcat(a: seq<Url>, b: seq<Url>, matches: Url -> bool)
    ensures Filter(a + b, matches) == Filter(a, matches) + Filter(b, matches)
    decreases |b|
  {
    if b == [] {
      assert a + b == a;
    } else {
      var n := |b| - 1;
      assert (a + b)[..|a + b| - 1] == a + b[..n];
      FilterOfConcat(a, b[..n], matches);
    }
  }

  function SizeOf(urls: seq<Url>): nat {
    if urls == [] then 0 else SizeOf(urls[..|urls| - 1]) + urls[|urls| - 1].length
  }

  /** A slice that ends with the sequence. */
  function Slice<T>(s: seq<T>, offset: nat, count: nat): seq<T> {
    if offset >= |s| then [] else s[offset..Min(offset + count, |s|)]
  }

  /** What matches in the first n steps from the offset. */
  function Upto(queue: seq<Url>, matches: Url -> bool, offset: nat, n: nat): seq<Url> {
    Filter(Slice(queue, offset, n * STEP), matches)
  }

  ghost predicate WithinLimit(queue: seq<Url>, matches: Url -> bool, offset: nat, n: nat) {
    forall k: nat | k < n :: SizeOf(Upto(queue, matches, offset, k)) <= MAX_MATCH_SIZE
  }

  /** The call stopped early after n steps, the first number of steps whose matches exceed the limit. */
  ghost predicate StopsAfter(queue: seq<Url>, matches: Url -> bool, offset: nat, n: nat,
                             matched: seq<Url>, nextOffset: int)
  {
    && n > 0 && nextOffset == offset + n * STEP && nextOffset < |queue| + STEP
    && matched == Upto(queue, matches, offset, n)
    && SizeOf(matched) > MAX_MATCH_SIZE
    && WithinLimit(queue, matches, offset, n)
  }

  /** The call went through to the end of the queue. */
  ghost predicate Exhausts(queue: seq<Url>, matches: Url -> bool, offset: nat, matched: seq<Url>, nextOffset: int) {
    && nextOffset == -1
    && matched == Filter(Slice(queue, offset, |queue|), matches)
    && SizeOf(matched) <= MAX_MATCH_SIZE
  }

  ghost predicate Answers(queue: seq<Url>, matches: Url -> bool, offset: nat, matched: seq<Url>, nextOffset: int) {
    || Exhausts(queue, matches, offset, matched, nextOffset)
    || exists n: nat :: StopsAfter(queue, matches, offset, n, matched, nextOffset)
  }

  method MatchCrawlQueue(queue: seq<Url>, matches: Url -> bool, offset: nat)
    returns (matched: seq<Url>, nextOffset: int)
    ensures Answers(queue, matches, offset, matched, nextOffset)
  {
    hide Upto, Slice, SizeOf, Filter, WithinLimit;
    matched, nextOffset := [], -1;
    var size, n, count := 0, 0, offset;
    NothingYet(queue, matches, offset);
    while count < |queue|
      invariant n >= 0 && count == offset + n * STEP
      invariant matched == Upto(queue, matches, offset, n) && size == SizeOf(matched) <= MAX_MATCH_SIZE
      invariant WithinLimit(queue, matches, offset, n)
      decreases |queue| - count
    {
      var results := Slice(queue, count, STEP);
      var chunk, chunkSize := MatchChunk(results, matches);
      NextStep(queue, matches, offset, n);
      OneMoreWithinLimit(queue, matches, offset, n);
      SizeOfConcat(matched, chunk);
      matched := matched + chunk;
      size := size + chunkSize;
      n := n + 1;
      if size > MAX_MATCH_SIZE {
        nextOffset := count + STEP;
        assert StopsAfter(queue, matches, offset, n, matched, nextOffset);
        return;
      }
      count := count + STEP;
    }
    NothingLeft(queue, matches, offset, n);
  }

  lemma NothingYet(queue: seq<Url>, matches: Url -> bool, offset: nat)
    ensures Upto(queue, matches, offset, 0) == [] && SizeOf([]) == 0 && WithinLimit(queue, matches, offset, 0)
  {
  }

  lemma NothingLeft(queue: seq<Url>, matches: Url -> bool, offset: nat, n: nat)
    requires offset + n * STEP >= |queue|
    ensures Upto(queue, matches, offset, n) == Filter(Slice(queue, offset, |queue|), matches)
  {
    assert Slice(queue, offset, n * STEP) == Slice(queue, offset, |queue|);
  }

  lemma OneMoreWithinLimit(queue: seq<Url>, matches: Url -> bool, offset: nat, n: nat)
    requires WithinLimit(queue, matches, offset, n) && SizeOf(Upto(queue, matches, offset, n)) <= MAX_MATCH_SIZE
    ensures WithinLimit(queue, matches, offset, n + 1)
  {
    forall k: nat | k < n + 1 ensures SizeOf(Upto(queue, matches, offset, k)) <= MAX_MATCH_SIZE {
    }
  }

  method MatchChunk(results: seq<Url>, matches: Url -> bool) returns (matched: seq<Url>, size: nat)
    ensures matched == Filter(results, matches) && size == SizeOf(matched)
  {
    hide Filter, SizeOf;
    matched, size := [], 0;
    EmptyChunk(matches);
    assert results[..0] == [];
    for i := 0 to |results|
      invariant matched == Filter(results[..i], matches) && size == SizeOf(matched)
    {
      var result := results[i];
      FilterOfOneMore(results[..i], result, matches);
      assert results[..i + 1] == results[..i] + [result];
      if matches(result) {
        SizeOfOneMore(matched, result);
        size := size + result.length;
        matched := matched + [result];
      }
    }
    assert results[..|results|] == results;
  }

  lemma EmptyChunk(matches: Url -> bool)
    ensures Filter([], matches) == [] && SizeOf([]) == 0
  {
  }

  lemma FilterOfOneMore(urls: seq<Url>, url: Url, matches: Url -> bool)
    ensures Filter(urls + [url], matches)
            == if matches(url) then Filter(urls, matches) + [url] else Filter(urls, matches)
  {
    assert (urls + [url])[..|urls|] == urls;
  }

  lemma SizeOfOneMore(urls: seq<Url>, url: Url)
    ensures SizeOf(urls + [url]) == SizeOf(urls) + url.length
  {
    assert (urls + [url])[..|urls|] == urls;
  }

  lemma NextStep(queue: seq<Url>, matches: Url -> bool, offset: nat, n: nat)
    requires offset + n * STEP < |queue|
    ensures Upto(queue, matches, offset, n + 1)
            == Upto(queue, matches, offset, n) + Filter(Slice(queue, offset + n * STEP, STEP), matches)
  {
    NextSlice(queue, offset, n);
    FilterOfConcat(Slice(queue, offset, n * STEP), Slice(queue, offset + n * STEP, STEP), matches);
  }

  lemma NextSlice(queue: seq<Url>, offset: nat, n: nat)
    requires offset + n * STEP < |queue|
    ensures Slice(queue, offset, (n + 1) * STEP)
            == Slice(queue, offset, n * STEP) + Slice(queue, offset + n * STEP, STEP)
  {
  }

  lemma {:induction false} SizeOfConcat(a: seq<Url>, b: seq<Url>)
    ensures SizeOf(a + b) == SizeOf(a) + SizeOf(b)
    decreases |b|
  {
    if b == [] {
      assert a + b == a;
    } else {
      assert (a + b)[..|a + b| - 1] == a + b[..|b| - 1];
      SizeOfConcat(a, b[..|b| - 1]);
    }
  }

  /** What an answer says, in positions of the queue: without an offset to go on from, it is what matches from the
      offset to the end, no longer than 500000 characters; with one, it is what matches up to there, a multiple of 50
      positions further on, which is longer, while what matches up to 50 positions before is not. */
  lemma WhatAnAnswerSays(queue: seq<Url>, matches: Url -> bool, offset: nat, matched: seq<Url>, nextOffset: int)
    requires Answers(queue, matches, offset, matched, nextOffset)
    ensures nextOffset == -1 ==>
      && matched == Filter(if offset <= |queue| then queue[offset..] else [], matches)
      && SizeOf(matched) <= 500000
    ensures nextOffset != -1 ==>
      && offset <= nextOffset - 50 < |queue| && (nextOffset - offset) % 50 == 0
      && matched == Filter(if nextOffset <= |queue| then queue[offset..nextOffset] else queue[offset..], matches)
      && SizeOf(matched) > 500000
      && SizeOf(Filter(queue[offset..nextOffset - 50], matches)) <= 500000
  {
    hide Filter, SizeOf;
    if nextOffset == -1 {
      assert Slice(queue, offset, |queue|) == if offset <= |queue| then queue[offset..] else [];
    } else {
      var n: nat :| StopsAfter(queue, matches, offset, n, matched, nextOffset);
      assert SizeOf(Upto(queue, matches, offset, n - 1)) <= MAX_MATCH_SIZE;
      StepsBack(queue, offset, n);
    }
  }

  lemma StepsBack(queue: seq<Url>, offset: nat, n: nat)
    requires n > 0 && offset + (n - 1) * STEP < |queue|
    ensures Slice(queue, offset, (n - 1) * STEP) == queue[offset..offset + n * STEP - 50]
    ensures Slice(queue, offset, n * STEP)
            == if offset + n * STEP <= |queue| then queue[offset..offset + n * STEP] else queue[offset..]
  {
  }

  /** One answer and a complete answer from where it stopped make a complete answer. */
  lemma AnswersCompose(queue: seq<Url>, matches: Url -> bool, offset: nat, matched: seq<Url>, nextOffset: int)
    requires Answers(queue, matches, offset, matched, nextOffset) && nextOffset != -1
    ensures offset < nextOffset < |queue| + STEP
    ensures Filter(Slice(queue, offset, |queue|), matches)
            == matched + Filter(Slice(queue, nextOffset, |queue|), matches)
  {
    hide Filter, WithinLimit, SizeOf;
    var n: nat :| StopsAfter(queue, matches, offset, n, matched, nextOffset);
    TwoSlices(queue, offset, n * STEP);
    FilterOfConcat(Slice(queue, offset, n * STEP), Slice(queue, nextOffset, |queue|), matches);
  }

  lemma TwoSlices(queue: seq<Url>, offset: nat, length: nat)
    ensures Slice(queue, offset, |queue|) == Slice(queue, offset, length) + Slice(queue, offset + length, |queue|)
  {
  }

  /** What a client has got, and what is still to come from the offset, make up the filtered queue. */
  ghost predicate Seen(queue: seq<Url>, matches: Url -> bool, all: seq<Url>, offset: int) {
    && -1 <= offset < |queue| + STEP
    && Filter(queue, matches) == all + if offset == -1 then [] else Filter(Slice(queue, offset, |queue|), matches)
  }

  lemma SeenOneMore(queue: seq<Url>, matches: Url -> bool, all: seq<Url>, offset: nat,
                    matched: seq<Url>, nextOffset: int)
    requires Seen(queue, matches, all, offset) && Answers(queue, matches, offset, matched, nextOffset)
    ensures Seen(queue, matches, all + matched, nextOffset)
    ensures nextOffset == -1 || offset < nextOffset
  {
    hide Filter, Slice, WithinLimit;
    if nextOffset != -1 {
      AnswersCompose(queue, matches, offset, matched, nextOffset);
      assert all + (matched + Filter(Slice(queue, nextOffset, |queue|), matches))
          == all + matched + Filter(Slice(queue, nextOffset, |queue|), matches);
    }
  }

  /** A client that follows nextOffset until it is -1 stops, and has then seen exactly the matching URLs
      of the queue, each as often as it is there and in queue order. */
  method MatchAll(queue: seq<Url>, matches: Url -> bool) returns (all: seq<Url>)
    ensures all == Filter(queue, matches)
  {
    hide Filter, Answers;
    all := [];
    var offset := 0;
    assert Slice(queue, 0, |queue|) == queue;
    while offset != -1
      invariant Seen(queue, matches, all, offset)
      decreases if offset == -1 then 0 else |queue| + STEP - offset
    {
      var matched, nextOffset := MatchCrawlQueue(queue, matches, offset);
      SeenOneMore(queue, matches, all, offset, matched, nextOffset);
      all := all + matched;
      offset := nextOffset;
    }
  }

  // ------------------------------------------------------------------------------------------
  // The list fallback
  // ------------------------------------------------------------------------------------------

  function Reverse<T>(s: seq<T>): seq<T> {
    seq(|s|, i requires 0 <= i < |s| => s[|s| - 1 - i])
  }

  /** The LRANGE command: both ends are included, and negative indices count from the end. */
  function LRange<T>(list: seq<T>, start: int, stop: int): seq<T> {
    var from := if start < 0 then start + |list| else start;
    var to := if stop < 0 then stop + |list| else stop;
    var first := if from < 0 then 0 else from;
    var last := Min(to, |list| - 1);
    if first > last then [] else list[first..last + 1]
  }

  function ListRange<T>(list: seq<T>, offset: nat, count: nat): seq<T> {
    var start: int, stop: int := 0 - offset - count, 0 - offset - 1;
    Reverse(LRange(list, start, stop))
  }

  /** The positions that the command returns: from start to stop, either of which may be counted from the end. */
  lemma LRangeByPosition<T>(list: seq<T>, start: nat, stop: nat)
    requires start <= stop < |list|
    ensures LRange(list, start, stop) == list[start..stop + 1]
    ensures LRange(list, start, stop - |list|) == list[start..stop + 1]
    ensures LRange(list, start - |list|, stop) == list[start..stop + 1]
    ensures LRange(list, start - |list|, stop - |list|) == list[start..stop + 1]
    ensures LRange(list, start, |list| + stop) == list[start..]
    ensures LRange(list, 0 - |list| - start, stop) == list[..stop + 1]
    ensures start < stop ==> LRange(list, stop, start) == []
  {
  }

  lemma ReverseOfEnd<T>(list: seq<T>, offset: nat, count: nat)
    requires offset < |list|
    ensures var first := if offset + count > |list| then 0 else |list| - offset - count;
            Reverse(list[first..|list| - offset]) == Slice(Reverse(list), offset, count)
  {
    var first := if offset + count > |list| then 0 else |list| - offset - count;
    var part := list[first..|list| - offset];
    var end := Min(offset + count, |list|);
    forall i | 0 <= i < |part| ensures Reverse(part)[i] == Reverse(list)[offset..end][i] {
      assert Reverse(part)[i] == part[|part| - 1 - i] == list[|list| - 1 - offset - i];
    }
  }

  /** The fallback is the slice of the reversed list for every offset and every count, except that an empty
      range at offset 0 of a list that is not empty gives the whole list, since -0 is not negative. */
  lemma ListRangeIsSliceIff<T>(list: seq<T>, offset: nat, count: nat)
    ensures ListRange(list, offset, count) == Slice(Reverse(list), offset, count)
            <==> count > 0 || offset > 0 || list == []
  {
    if offset >= |list| {
      assert |Slice(Reverse(list), offset, count)| == 0;
    } else if count == 0 {
      assert |Slice(Reverse(list), offset, count)| == 0;
      assert LRange(list, 0 - offset, 0 - offset - 1) == if offset == 0 then list else [];
    } else {
      ReverseOfEnd(list, offset, count);
    }
  }
}
