/** One field of a cron schedule: the validator, the trees of the field grammar, a printer and a parser. */
module CronFields {
  import opened Text

  /** The range of a position, and the names it knows. */
  datatype Spec = Spec(lo: int, hi: int, names: map<string, int>, allowQuestion: bool)

  const MONTH_NAMES: map<string, int> :=
    map["JAN" := 1, "FEB" := 2, "MAR" := 3, "APR" := 4, "MAY" := 5, "JUN" := 6,
        "JUL" := 7, "AUG" := 8, "SEP" := 9, "OCT" := 10, "NOV" := 11, "DEC" := 12]

  const DOW_NAMES: map<string, int> :=
    map["SUN" := 0, "MON" := 1, "TUE" := 2, "WED" := 3, "THU" := 4, "FRI" := 5, "SAT" := 6]

  // ------------------------------------------------------------------------------------------
  // The validator
  // ------------------------------------------------------------------------------------------

  predicate IsNumber(s: string) {
    s != "" && AllDigits(s)
  }

  predicate ValueInRange(value: string, p: Spec) {
    if value in p.names then p.lo <= p.names[value] <= p.hi
    else IsNumber(value) && p.lo <= IntOf(value) <= p.hi
  }

  predicate ValidateBase(base: string, p: Spec) {
    if base == "*" then true
    else if '-' in base then
      var (start, end) := Partition(base, '-');
      ValueInRange(start, p) && ValueInRange(end, p)
    else ValueInRange(base, p)
  }

  predicate ValidateItem(item: string, p: Spec) {
    if '/' in item then
      var (base, step) := Partition(item, '/');
      if !IsNumber(step) || IntOf(step) < 1 then false else ValidateBase(base, p)
    else ValidateBase(item, p)
  }

  predicate ValidateField(field: string, p: Spec) {
    if p.allowQuestion && field == "?" then true
    else if field == "*" then true
    else forall item | item in Split(field, ',') :: ValidateItem(item, p)
  }

  // ------------------------------------------------------------------------------------------
  // The grammar
  // ------------------------------------------------------------------------------------------

  datatype Base = Star | Single(value: string) | Range(start: string, end: string)

  datatype Item = Plain(base: Base) | Stepped(base: Base, step: string)

  datatype Field = Question | Items(items: seq<Item>)

  predicate WellFormedBase(b: Base, p: Spec) {
    match b
    case Star => true
    case Single(value) => ValueInRange(value, p)
    case Range(start, end) => ValueInRange(start, p) && ValueInRange(end, p)
  }

  predicate WellFormedItem(i: Item, p: Spec) {
    WellFormedBase(i.base, p) && (i.Stepped? ==> IsNumber(i.step) && IntOf(i.step) >= 1)
  }

  predicate WellFormedField(f: Field, p: Spec) {
    match f
    case Question => p.allowQuestion
    case Items(items) => items != [] && forall i | 0 <= i < |items| :: WellFormedItem(items[i], p)
  }

  function PrintBase(b: Base): string {
    match b
    case Star => "*"
    case Single(value) => value
    case Range(start, end) => start + ['-'] + end
  }

  function PrintItem(i: Item): string {
    match i
    case Plain(base) => PrintBase(base)
    case Stepped(base, step) => PrintBase(base) + ['/'] + step
  }

  function PrintItems(items: seq<Item>): (parts: seq<string>)
    ensures |parts| == |items| && forall i | 0 <= i < |items| :: parts[i] == PrintItem(items[i])
  {
    seq(|items|, i requires 0 <= i < |items| => PrintItem(items[i]))
  }

  function PrintField(f: Field): string {
    match f
    case Question => "?"
    case Items(items) => if items == [] then "" else Join(PrintItems(items), ',')
  }

  function ParseBase(s: string): Base {
    if s == "*" then Star
    else if '-' in s then var (start, end) := Partition(s, '-'); Range(start, end)
    else Single(s)
  }

  function ParseItem(s: string): Item {
    if '/' in s then var (base, step) := Partition(s, '/'); Stepped(ParseBase(base), step)
    else Plain(ParseBase(s))
  }

  function ParseItems(parts: seq<string>): (items: seq<Item>)
    ensures |items| == |parts| && forall i | 0 <= i < |parts| :: items[i] == ParseItem(parts[i])
  {
    seq(|parts|, i requires 0 <= i < |parts| => ParseItem(parts[i]))
  }

  function ParseField(s: string): Field {
    if s == "?" then Question else Items(ParseItems(Split(s, ',')))
  }

  // ------------------------------------------------------------------------------------------
  // Printing what was parsed
  // ------------------------------------------------------------------------------------------

  lemma PrintOfParsedItem(s: string)
    ensures PrintItem(ParseItem(s)) == s
  {
  }

  lemma PrintOfParsedField(s: string)
    ensures PrintField(ParseField(s)) == s
  {
    if s != "?" {
      var parts := Split(s, ',');
      var again := PrintItems(ParseItems(parts));
      forall i | 0 <= i < |parts| ensures again[i] == parts[i] {
        PrintOfParsedItem(parts[i]);
      }
      assert again == parts;
      JoinOfSplit(s, ',');
    }
  }

  // ------------------------------------------------------------------------------------------
  // Parsing what was printed
  // ------------------------------------------------------------------------------------------

  predicate IsPlain(c: char) {
    IsDigit(c) || ('A' <= c && c <= 'Z')
  }

  predicate PlainText(s: string) {
    s != "" && forall i | 0 <= i < |s| :: IsPlain(s[i])
  }

  /** Names have letters only, so they cannot be taken for anything else. */
  predicate PlainNames(p: Spec) {
    forall name | name in p.names :: PlainText(name)
  }

  lemma ValuesArePlain(value: string, p: Spec)
    requires PlainNames(p) && ValueInRange(value, p)
    ensures PlainText(value)
  {
  }

  /** The characters of one item: nothing that separates items, fields or steps. */
  predicate IsBaseChar(c: char) {
    IsPlain(c) || c == '*' || c == '-'
  }

  lemma BaseChars(b: Base, p: Spec)
    requires PlainNames(p) && WellFormedBase(b, p)
    ensures PrintBase(b) != "" && forall i | 0 <= i < |PrintBase(b)| :: IsBaseChar(PrintBase(b)[i])
  {
  }

  lemma ParseOfPrintedBase(b: Base, p: Spec)
    requires PlainNames(p) && WellFormedBase(b, p)
    ensures ParseBase(PrintBase(b)) == b
  {
    if b.Range? {
      ValuesArePlain(b.start, p);
      assert '-' !in b.start;
      PartitionAt(b.start, '-', b.end);
      assert PrintBase(b)[|b.start|] == '-';
    } else if b.Single? {
      ValuesArePlain(b.value, p);
      assert PlainText(b.value) && !PlainText("*") by { assert !IsPlain("*"[0]); }
    }
  }

  lemma ParseOfPrintedItem(i: Item, p: Spec)
    requires PlainNames(p) && WellFormedItem(i, p)
    ensures ParseItem(PrintItem(i)) == i
    ensures PrintItem(i) != ""
    ensures forall k | 0 <= k < |PrintItem(i)| :: IsBaseChar(PrintItem(i)[k]) || PrintItem(i)[k] == '/'
  {
    ParseOfPrintedBase(i.base, p);
    BaseChars(i.base, p);
    var base := PrintBase(i.base);
    assert '/' !in base;
    if i.Stepped? {
      PartitionAt(base, '/', i.step);
      assert PrintItem(i)[|base|] == '/';
    }
  }

  /** Characters of a list of items. */
  predicate IsListChar(c: char) {
    IsBaseChar(c) || c == '/' || c == ','
  }

  predicate ListText(s: string) {
    s != "" && forall k | 0 <= k < |s| :: IsListChar(s[k])
  }

  lemma {:induction false} CharsOfJoin(parts: seq<string>)
    requires parts != [] && forall i | 0 <= i < |parts| :: ListText(parts[i])
    ensures ListText(Join(parts, ','))
    decreases |parts|
  {
    if |parts| > 1 {
      CharsOfJoin(parts[1..]);
      assert ListText(parts[0]);
    }
  }

  lemma ParseOfPrintedField(f: Field, p: Spec)
    requires PlainNames(p) && WellFormedField(f, p)
    ensures ParseField(PrintField(f)) == f
    ensures PrintField(f) == "?" || ListText(PrintField(f))
  {
    hide WellFormedItem, ParseItem, PrintItem, PlainNames;
    if f.Items? {
      var parts := PrintItems(f.items);
      forall i | 0 <= i < |parts|
        ensures ParseItem(parts[i]) == f.items[i] && ',' !in parts[i] && ListText(parts[i])
      {
        ParseOfPrintedItem(f.items[i], p);
      }
      SplitOfJoin(parts, ',');
      assert ParseItems(parts) == f.items;
      CharsOfJoin(parts);
      assert PrintField(f) != "?" by { assert IsListChar(PrintField(f)[0]) && !IsListChar("?"[0]); }
    }
  }

  // ------------------------------------------------------------------------------------------
  // Acceptance
  // ------------------------------------------------------------------------------------------

  lemma ItemAcceptedIffWellFormed(s: string, p: Spec)
    ensures ValidateItem(s, p) <==> WellFormedItem(ParseItem(s), p)
  {
  }

  /** The names of a position do not include the symbols. */
  lemma FieldAcceptedIffWellFormed(s: string, p: Spec)
    requires PlainNames(p)
    ensures ValidateField(s, p) <==> WellFormedField(ParseField(s), p)
  {
    if s == "?" {
      assert ',' !in s && '/' !in s && '-' !in s;
      assert Split(s, ',') == ["?"];
      assert !ValidateItem("?", p) by {
        assert !IsPlain("?"[0]) && !IsDigit("?"[0]);
      }
      assert "?" in Split(s, ',');
    } else {
      var parts := Split(s, ',');
      forall i | 0 <= i < |parts| ensures ValidateItem(parts[i], p) <==> WellFormedItem(ParseItems(parts)[i], p) {
        ItemAcceptedIffWellFormed(parts[i], p);
      }
      if s == "*" {
        assert ',' !in s && '/' !in s;
        assert parts == ["*"];
      }
    }
  }

  /** A field is accepted exactly when it is the print of a well-formed field. */
  lemma FieldAcceptedIffSentence(s: string, p: Spec)
    requires PlainNames(p)
    ensures ValidateField(s, p) <==> exists f :: WellFormedField(f, p) && PrintField(f) == s
  {
    FieldAcceptedIffWellFormed(s, p);
    PrintOfParsedField(s);
    if f :| WellFormedField(f, p) && PrintField(f) == s {
      ParseOfPrintedField(f, p);
    }
  }

  // ------------------------------------------------------------------------------------------
  // What the forms of a field amount to
  // ------------------------------------------------------------------------------------------

  function PowerOfTen(n: nat): nat {
    if n == 0 then 1 else 10 * PowerOfTen(n - 1)
  }

  const DIGITS := "0123456789"

  /** The number that digits stand for, each by its place. */
  function Decimal(s: string): nat {
    if s == "" then 0 else IndexOf(DIGITS, s[0]) * PowerOfTen(|s| - 1) + Decimal(s[1..])
  }

  lemma DigitPlaces(c: char)
    requires IsDigit(c)
    ensures IndexOf(DIGITS, c) == c as int - '0' as int && c in DIGITS
  {
    var d := c as int - '0' as int;
    assert forall i | 0 <= i < 10 :: DIGITS[i] as int == '0' as int + i;
    assert DIGITS[d] == c;
    assert DIGITS[IndexOf(DIGITS, c)] == c;
  }

  lemma TenTimes(d: nat, power: nat, rest: nat, last: nat)
    ensures d * (10 * power) + (10 * rest + last) == 10 * (d * power + rest) + last
  {
    assert d * (10 * power) == 10 * (d * power);
  }

  lemma DecimalFirst(c: char, s: string)
    ensures Decimal([c] + s) == IndexOf(DIGITS, c) * PowerOfTen(|s|) + Decimal(s)
  {
    hide IndexOf, PowerOfTen;
    assert ([c] + s)[1..] == s;
  }

  lemma {:induction false} DecimalOfOneMore(s: string, c: char)
    ensures Decimal(s + [c]) == 10 * Decimal(s) + IndexOf(DIGITS, c)
    decreases |s|
  {
    hide Decimal, IndexOf, PowerOfTen;
    if s == "" {
      assert s + [c] == [c] + s;
      DecimalFirst(c, s);
      DecimalOfNothing();
    } else {
      var rest := s[1..];
      DecimalOfOneMore(rest, c);
      assert s == [s[0]] + rest && s + [c] == [s[0]] + (rest + [c]);
      DecimalFirst(s[0], rest);
      DecimalFirst(s[0], rest + [c]);
      OneMorePower(|rest|);
      TenTimes(IndexOf(DIGITS, s[0]), PowerOfTen(|rest|), Decimal(rest), IndexOf(DIGITS, c));
    }
  }

  lemma DecimalOfNothing()
    ensures Decimal("") == 0 && PowerOfTen(0) == 1
  {
  }

  lemma OneMorePower(n: nat)
    ensures PowerOfTen(n + 1) == 10 * PowerOfTen(n)
  {
  }

  lemma {:induction false} IntOfIsDecimal(s: string)
    requires AllDigits(s)
    ensures IntOf(s) == Decimal(s)
    decreases |s|
  {
    if s != "" {
      var front, c := s[..|s| - 1], s[|s| - 1];
      IntOfIsDecimal(front);
      DecimalOfOneMore(front, c);
      DigitPlaces(c);
      assert s == front + [c];
    }
  }

  /** A name or a number within the range of the position. */
  ghost predicate Fits(value: string, p: Spec) {
    if value in p.names then p.names[value] >= p.lo && p.names[value] <= p.hi
    else value != "" && (forall c | c in value :: c in DIGITS) && Decimal(value) >= p.lo && Decimal(value) <= p.hi
  }

  lemma NumberIsOfDigits(s: string)
    ensures AllDigits(s) <==> forall c | c in s :: c in DIGITS
  {
    assert forall i | 0 <= i < 10 :: IsDigit(DIGITS[i]);
    if AllDigits(s) {
      forall c | c in s ensures c in DIGITS {
        DigitPlaces(c);
      }
    } else {
      var i :| 0 <= i < |s| && !IsDigit(s[i]);
      assert s[i] in s && s[i] !in DIGITS;
    }
  }

  lemma InRangeIffFits(value: string, p: Spec)
    ensures ValueInRange(value, p) <==> Fits(value, p)
  {
    NumberIsOfDigits(value);
    if AllDigits(value) {
      IntOfIsDecimal(value);
    }
  }

  lemma PlainIsNoSign(s: string)
    requires PlainText(s)
    ensures ',' !in s && '/' !in s && '-' !in s && s != "*" && s != "?"
  {
    assert !IsPlain("*"[0]) && !IsPlain("?"[0]);
  }

  lemma OneItem(field: string, p: Spec)
    requires ',' !in field && field != "?" && field != "*"
    ensures ValidateField(field, p) <==> ValidateItem(field, p)
  {
    SplitNothing(field, ',');
    assert field in Split(field, ',');
  }

  /** A single value is accepted if and only if it fits; the star always is, the question mark where it is allowed. */
  lemma SingleValueIff(value: string, p: Spec)
    ensures ValidateField("*", p) && (PlainNames(p) ==> (ValidateField("?", p) <==> p.allowQuestion))
    ensures PlainText(value) ==> (ValidateField(value, p) <==> Fits(value, p))
  {
    if PlainNames(p) {
      FieldAcceptedIffWellFormed("?", p);
    }
    if PlainText(value) {
      PlainIsNoSign(value);
      OneItem(value, p);
      InRangeIffFits(value, p);
    }
  }

  /** A range is accepted if and only if both of its ends fit. */
  lemma RangeIff(start: string, end: string, p: Spec)
    requires PlainText(start) && PlainText(end)
    ensures ValidateField(start + ['-'] + end, p) <==> Fits(start, p) && Fits(end, p)
  {
    hide ValueInRange, Fits;
    var field := start + ['-'] + end;
    PlainIsNoSign(start);
    PlainIsNoSign(end);
    assert field[|start|] == '-' && |field| > 1;
    OneItem(field, p);
    PartitionAt(start, '-', end);
    InRangeIffFits(start, p);
    InRangeIffFits(end, p);
  }

  lemma {:induction false} SomeDigitCounts(s: string)
    requires AllDigits(s)
    ensures IntOf(s) >= 1 <==> exists c | c in s :: c != '0'
    decreases |s|
  {
    if s != "" {
      var front, last := s[..|s| - 1], s[|s| - 1];
      SomeDigitCounts(front);
      assert s == front + [last] && last in s;
      if c :| c in front && c != '0' {
        assert c in s;
      }
    }
  }

  /** A step is accepted if and only if it is made of digits that are not all zero, after a star or a value that
      fits. */
  lemma StepIff(base: string, step: string, p: Spec)
    requires (base == "*" || PlainText(base)) && ',' !in step
    ensures ValidateField(base + ['/'] + step, p) <==>
            && (base == "*" || Fits(base, p))
            && (forall c | c in step :: c in DIGITS) && (exists c | c in step :: c != '0')
  {
    hide ValueInRange, Fits;
    var field := base + ['/'] + step;
    if base != "*" {
      PlainIsNoSign(base);
    }
    assert ',' !in base && '/' !in base && '-' !in base;
    assert field[|base|] == '/' && |field| > 1;
    OneItem(field, p);
    PartitionAt(base, '/', step);
    InRangeIffFits(base, p);
    NumberIsOfDigits(step);
    if AllDigits(step) {
      SomeDigitCounts(step);
    }
  }

  /** A list is accepted if and only if its parts are, none of which may be a question mark. */
  lemma ListIff(first: string, rest: string, p: Spec)
    requires PlainNames(p) && ',' !in first
    ensures ValidateField(first + [','] + rest, p) <==>
            first != "?" && rest != "?" && ValidateField(first, p) && ValidateField(rest, p)
  {
    hide ValidateItem;
    SplitFirst(first, ',', rest);
    SplitNothing(first, ',');
    assert first + [','] + rest != "*" && first + [','] + rest != "?";
    SymbolsAsItems(p);
    SplitNothing("?", ',');
    SplitNothing("*", ',');
  }

  lemma SymbolsAsItems(p: Spec)
    requires PlainNames(p)
    ensures ValidateItem("*", p) && !ValidateItem("?", p)
  {
    assert !IsPlain("?"[0]) && !IsDigit("?"[0]);
    assert '/' !in "*" && '/' !in "?" && '-' !in "?";
  }
}
