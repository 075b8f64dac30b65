/** String operations of the schedule validator: splitting at a character, at the first occurrence of a
    character, and at runs of white space. */
module Text {

  /** ASCII white space. */
  predicate IsSpace(c: char) {
    c == ' ' || ('\t' <= c && c <= '\r') || ('\U{001C}' <= c && c <= '\U{001F}')
  }

  /** A space, a tab, the line ends and page breaks, and four separators: 10 characters by their codes. */
  lemma SpacesByCode(c: char)
    ensures IsSpace(c) <==> c as int in {9, 10, 11, 12, 13, 28, 29, 30, 31, 32}
  {
  }

  predicate IsDigit(c: char) {
    '0' <= c && c <= '9'
  }

  predicate AllDigits(s: string) {
    forall i | 0 <= i < |s| :: IsDigit(s[i])
  }

  predicate NoSpace(s: string) {
    forall i | 0 <= i < |s| :: !IsSpace(s[i])
  }

  function IntOf(s: string): nat
    requires AllDigits(s)
  {
    if s == "" then 0 else 10 * IntOf(s[..|s| - 1]) + (s[|s| - 1] as int - '0' as int)
  }

  /** The first position of a character, or the length if there is none. */
  function IndexOf(s: string, c: char): (i: nat)
    ensures i <= |s| && c !in s[..i]
    ensures if i < |s| then s[i] == c else c !in s
  {
    if s == "" || s[0] == c then 0 else 1 + IndexOf(s[1..], c)
  }

  /** The text before and after the first occurrence of a character. */
  function Partition(s: string, c: char): (parts: (string, string))
    requires c in s
    ensures s == parts.0 + [c] + parts.1 && c !in parts.0
  {
    var i := IndexOf(s, c);
    (s[..i], s[i + 1..])
  }

  lemma PartitionAt(a: string, c: char, b: string)
    requires c !in a
    ensures Partition(a + [c] + b, c) == (a, b)
  {
    var s := a + [c] + b;
    var i := IndexOf(s, c);
    assert s[|a|] == c && (forall k | 0 <= k < |a| :: s[k] == a[k]);
    assert s[..|a|] == a && s[|a| + 1..] == b;
  }

  function Split(s: string, c: char): (parts: seq<string>)
    ensures parts != []
  {
    if c !in s then [s]
    else
      var (first, rest) := Partition(s, c);
      [first] + Split(rest, c)
  }

  function Join(parts: seq<string>, c: char): string
    requires parts != []
  {
    if |parts| == 1 then parts[0] else parts[0] + [c] + Join(parts[1..], c)
  }

  lemma {:induction false} JoinOfSplit(s: string, c: char)
    ensures Join(Split(s, c), c) == s
    decreases |s|
  {
    if c in s {
      var (first, rest) := Partition(s, c);
      JoinOfSplit(rest, c);
      assert Split(s, c)[1..] == Split(rest, c);
    }
  }

  lemma SplitNothing(s: string, c: char)
    requires c !in s
    ensures Split(s, c) == [s]
  {
  }

  lemma SplitFirst(first: string, c: char, rest: string)
    requires c !in first
    ensures Split(first + [c] + rest, c) == [first] + Split(rest, c)
  {
    hide Partition;
    PartitionAt(first, c, rest);
    assert (first + [c] + rest)[|first|] == c;
  }

  lemma {:induction false} SplitOfJoin(parts: seq<string>, c: char)
    requires parts != [] && forall i | 0 <= i < |parts| :: c !in parts[i]
    ensures Split(Join(parts, c), c) == parts
    decreases |parts|
  {
    hide Split;
    if |parts| == 1 {
      SplitNothing(parts[0], c);
      assert parts == [parts[0]];
    } else {
      SplitOfJoin(parts[1..], c);
      SplitFirst(parts[0], c, Join(parts[1..], c));
      assert parts == [parts[0]] + parts[1..];
    }
  }

  /** The length of the longest prefix without white space. */
  function WordLength(s: string): (k: nat)
    ensures k <= |s| && NoSpace(s[..k]) && (k < |s| ==> IsSpace(s[k]))
  {
    if s == "" || IsSpace(s[0]) then 0 else
      var k := WordLength(s[1..]);
      assert s[..1 + k] == [s[0]] + s[1..][..k];
      1 + k
  }

  /** The maximal runs without white space. */
  function Words(s: string): seq<string> {
    if s == "" then []
    else if IsSpace(s[0]) then Words(s[1..])
    else [s[..WordLength(s)]] + Words(s[WordLength(s)..])
  }

  lemma {:induction false} WordLengthOf(w: string, rest: string)
    requires NoSpace(w) && (rest == "" || IsSpace(rest[0]))
    ensures WordLength(w + rest) == |w|
    decreases |w|
  {
    if w == "" {
      assert w + rest == rest;
    } else {
      assert (w + rest)[1..] == w[1..] + rest && (w + rest)[0] == w[0];
      WordLengthOf(w[1..], rest);
    }
  }

  lemma {:induction false} WordsOfJoin(ws: seq<string>)
    requires ws != [] && forall i | 0 <= i < |ws| :: ws[i] != "" && NoSpace(ws[i])
    ensures Words(Join(ws, ' ')) == ws
    decreases |ws|
  {
    var w := ws[0];
    var rest := if |ws| == 1 then "" else [' '] + Join(ws[1..], ' ');
    assert Join(ws, ' ') == w + rest;
    WordLengthOf(w, rest);
    assert (w + rest)[..|w|] == w && (w + rest)[|w|..] == rest;
    if |ws| > 1 {
      WordsOfJoin(ws[1..]);
      assert rest[1..] == Join(ws[1..], ' ');
      assert ws == [w] + ws[1..];
    }
  }

  function StripLeft(s: string): string {
    if s == "" || !IsSpace(s[0]) then s else StripLeft(s[1..])
  }

  function StripRight(s: string): string {
    if s == "" || !IsSpace(s[|s| - 1]) then s else StripRight(s[..|s| - 1])
  }

  function Strip(s: string): string {
    StripRight(StripLeft(s))
  }

  lemma {:induction false} WordsIgnoreLeft(s: string)
    ensures Words(StripLeft(s)) == Words(s)
    decreases |s|
  {
    if s != "" && IsSpace(s[0]) {
      WordsIgnoreLeft(s[1..]);
    }
  }

  lemma {:induction false} WordsIgnoreOneRight(s: string, c: char)
    requires IsSpace(c)
    ensures Words(s + [c]) == Words(s)
    decreases |s|
  {
    if s == "" {
      assert s + [c] == [c] && [c][1..] == "";
    } else if IsSpace(s[0]) {
      assert (s + [c])[1..] == s[1..] + [c];
      WordsIgnoreOneRight(s[1..], c);
    } else {
      var k := WordLength(s);
      var w, rest := s[..k], s[k..];
      assert s + [c] == w + (rest + [c]) && s == w + rest;
      WordLengthOf(w, rest + [c]);
      assert (s + [c])[..k] == w && (s + [c])[k..] == rest + [c];
      WordsIgnoreOneRight(rest, c);
    }
  }

  lemma {:induction false} WordsIgnoreRight(s: string)
    ensures Words(StripRight(s)) == Words(s)
    decreases |s|
  {
    if s != "" && IsSpace(s[|s| - 1]) {
      var t := s[..|s| - 1];
      assert s == t + [s[|s| - 1]];
      WordsIgnoreRight(t);
      WordsIgnoreOneRight(t, s[|s| - 1]);
    }
  }

  /** Stripping does not change the words. */
  lemma WordsOfStrip(s: string)
    ensures Words(Strip(s)) == Words(s)
  {
    WordsIgnoreLeft(s);
    WordsIgnoreRight(StripLeft(s));
  }
}
