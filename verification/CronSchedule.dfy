/** Crawl schedules: the validator of whole schedules, the trees of the grammar, a printer and a parser. */
module CronSchedule {
  import opened Options
  import opened Text
  import opened CronFields

  const DESCRIPTORS: set<string> :=
    {"@yearly", "@annually", "@monthly", "@weekly", "@daily", "@midnight", "@hourly"}

  const UNITS: set<string> := {"ns", "us", "\U{00B5}s", "ms", "s", "m", "h"}

  const EVERY := "@every "

  /** The ranges of the six positions; a schedule of five fields has no seconds. */
  const FIELD_RANGES: seq<(int, int)> := [(0, 59), (0, 59), (0, 23), (1, 31), (1, 12), (0, 7)]

  const MAX_LENGTH := 100

  function SpecAt(count: nat, i: nat): Spec
    requires count in {5, 6} && i < count
  {
    var (lo, hi) := FIELD_RANGES[6 - count + i];
    Spec(lo, hi,
         if i == count - 2 then MONTH_NAMES else if i == count - 1 then DOW_NAMES else map[],
         i == count - 3 || i == count - 1)
  }

  // ------------------------------------------------------------------------------------------
  // Durations
  // ------------------------------------------------------------------------------------------

  /** A number with an optional fraction, and a unit. */
  datatype Term = Term(whole: string, fraction: Option<string>, unit: string)

  predicate WellFormedTerm(t: Term) {
    IsNumber(t.whole) && (t.fraction.Some? ==> IsNumber(t.fraction.value)) && t.unit in UNITS
  }

  predicate WellFormedTerms(ts: seq<Term>) {
    forall i | 0 <= i < |ts| :: WellFormedTerm(ts[i])
  }

  function PrintTerm(t: Term): string {
    t.whole + PrintFraction(t.fraction) + t.unit
  }

  function PrintTerms(ts: seq<Term>): string {
    if ts == [] then "" else PrintTerm(ts[0]) + PrintTerms(ts[1..])
  }

  /** The length of the longest prefix of digits, or of characters that are not. */
  function RunLength(s: string, digits: bool): (k: nat)
    ensures k <= |s| && (forall i | 0 <= i < k :: IsDigit(s[i]) == digits)
    ensures k < |s| ==> IsDigit(s[k]) != digits
  {
    if s == "" || IsDigit(s[0]) != digits then 0 else 1 + RunLength(s[1..], digits)
  }

  lemma RunLengthOf(run: string, rest: string, digits: bool)
    requires (forall i | 0 <= i < |run| :: IsDigit(run[i]) == digits) && (rest == "" || IsDigit(rest[0]) != digits)
    ensures RunLength(run + rest, digits) == |run|
  {
    var s := run + rest;
    var k := RunLength(s, digits);
    assert forall i | 0 <= i < |run| :: s[i] == run[i];
    if rest != "" {
      assert s[|run|] == rest[0];
    }
  }

  function PrintFraction(fraction: Option<string>): string {
    if fraction.Some? then ['.'] + fraction.value else ""
  }

  function TakeFraction(s: string): (r: (Option<string>, string))
    ensures |r.1| <= |s| && PrintFraction(r.0) + r.1 == s
  {
    if s != "" && s[0] == '.' then
      var k := RunLength(s[1..], true);
      (Some(s[1..][..k]), s[1..][k..])
    else (None, s)
  }

  /** The digits, perhaps a point and more digits, and everything up to the next digit. */
  function FirstTerm(s: string): (r: (Term, string))
    ensures |r.1| <= |s| && (s != "" ==> |r.1| < |s|)
  {
    var w := RunLength(s, true);
    var (fraction, s2) := TakeFraction(s[w..]);
    var u := RunLength(s2, false);
    (Term(s[..w], fraction, s2[..u]), s2[u..])
  }

  function ParseTerms(s: string): seq<Term> {
    if s == "" then []
    else
      var (t, rest) := FirstTerm(s);
      [t] + ParseTerms(rest)
  }

  /** The scan the duration pattern amounts to. */
  predicate MatchesEvery(s: string) {
    s != "" && WellFormedTerms(ParseTerms(s))
  }

  lemma UnitsStartPlain(unit: string)
    requires unit in UNITS
    ensures unit != "" && unit[0] != '.' && forall i | 0 <= i < |unit| :: !IsDigit(unit[i])
  {
  }

  lemma RunAt(run: string, rest: string, digits: bool)
    requires (forall i | 0 <= i < |run| :: IsDigit(run[i]) == digits) && (rest == "" || IsDigit(rest[0]) != digits)
    ensures var s := run + rest; var k := RunLength(s, digits); s[..k] == run && s[k..] == rest
  {
    RunLengthOf(run, rest, digits);
  }

  lemma FractionAt(fraction: Option<string>, tail: string)
    requires fraction.Some? ==> IsNumber(fraction.value)
    requires tail != "" && tail[0] != '.' && !IsDigit(tail[0])
    ensures TakeFraction(PrintFraction(fraction) + tail) == (fraction, tail)
  {
    if fraction.Some? {
      var s := PrintFraction(fraction) + tail;
      assert s[0] == '.' && s[1..] == fraction.value + tail;
      RunAt(fraction.value, tail, true);
    } else {
      assert PrintFraction(fraction) + tail == tail;
    }
  }

  lemma FirstOfPrintedTerm(t: Term, rest: string)
    requires WellFormedTerm(t) && (rest == "" || IsDigit(rest[0]))
    ensures FirstTerm(PrintTerm(t) + rest) == (t, rest)
  {
    UnitsStartPlain(t.unit);
    var tail := t.unit + rest;
    var middle := PrintFraction(t.fraction) + tail;
    assert PrintTerm(t) + rest == t.whole + middle;
    RunAt(t.whole, middle, true);
    FractionAt(t.fraction, tail);
    RunAt(t.unit, rest, false);
  }

  /** A printed duration splits into its terms and in no other way. */
  lemma {:induction false} ParseOfPrintedTerms(ts: seq<Term>)
    requires WellFormedTerms(ts)
    ensures ParseTerms(PrintTerms(ts)) == ts
    ensures ts != [] ==> PrintTerms(ts) != "" && IsDigit(PrintTerms(ts)[0])
    decreases |ts|
  {
    if ts != [] {
      assert WellFormedTerm(ts[0]);
      ParseOfPrintedTerms(ts[1..]);
      FirstOfPrintedTerm(ts[0], PrintTerms(ts[1..]));
      assert ts == [ts[0]] + ts[1..];
    }
  }

  lemma UniqueDuration(ts: seq<Term>, us: seq<Term>)
    requires WellFormedTerms(ts) && WellFormedTerms(us) && PrintTerms(ts) == PrintTerms(us)
    ensures ts == us
  {
    ParseOfPrintedTerms(ts);
    ParseOfPrintedTerms(us);
  }

  lemma PrintOfFirstTerm(s: string)
    ensures var (t, rest) := FirstTerm(s); PrintTerm(t) + rest == s
  {
    hide RunLength, TakeFraction, PrintFraction;
    var w := RunLength(s, true);
    var (fraction, s2) := TakeFraction(s[w..]);
    var u := RunLength(s2, false);
    assert s == s[..w] + (PrintFraction(fraction) + (s2[..u] + s2[u..]));
    assert s == s[..w] + PrintFraction(fraction) + s2[..u] + s2[u..];
  }

  lemma {:induction false} PrintOfParsedTerms(s: string)
    ensures PrintTerms(ParseTerms(s)) == s
    decreases |s|
  {
    if s != "" {
      var (t, rest) := FirstTerm(s);
      PrintOfFirstTerm(s);
      PrintOfParsedTerms(rest);
      assert ParseTerms(s)[1..] == ParseTerms(rest);
    }
  }

  /** The scan accepts exactly the texts that are one or more number-unit pairs. */
  lemma EveryAcceptedIffTerms(s: string)
    ensures MatchesEvery(s) <==> exists ts :: ts != [] && WellFormedTerms(ts) && PrintTerms(ts) == s
  {
    PrintOfParsedTerms(s);
    if ts :| ts != [] && WellFormedTerms(ts) && PrintTerms(ts) == s {
      ParseOfPrintedTerms(ts);
    }
    assert s != "" ==> ParseTerms(s) != [];
  }

  // ------------------------------------------------------------------------------------------
  // The validator
  // ------------------------------------------------------------------------------------------

  predicate ValidateDescriptor(schedule: string) {
    schedule in DESCRIPTORS || (EVERY <= schedule && MatchesEvery(schedule[|EVERY|..]))
  }

  predicate ValidateFields(fields: seq<string>) {
    |fields| in {5, 6} && forall i | 0 <= i < |fields| :: ValidateField(fields[i], SpecAt(|fields|, i))
  }

  /** Whether the schedule is returned as it is instead of an error being raised. */
  predicate Accepts(value: string, lenient: bool) {
    if lenient || value == "" then true
    else if |value| > MAX_LENGTH then false
    else if '\n' in value || '\r' in value then false
    else
      var schedule := Strip(value);
      if "@" <= schedule then ValidateDescriptor(schedule) else ValidateFields(Words(schedule))
  }

  // ------------------------------------------------------------------------------------------
  // The grammar
  // ------------------------------------------------------------------------------------------

  datatype Schedule = Descriptor(name: string) | Every(terms: seq<Term>) | Fields(fields: seq<Field>)

  predicate WellFormed(t: Schedule) {
    match t
    case Descriptor(name) => name in DESCRIPTORS
    case Every(terms) => terms != [] && WellFormedTerms(terms)
    case Fields(fields) =>
      |fields| in {5, 6} && forall i | 0 <= i < |fields| :: WellFormedField(fields[i], SpecAt(|fields|, i))
  }

  function PrintFields(fields: seq<Field>): (parts: seq<string>)
    ensures |parts| == |fields| && forall i | 0 <= i < |fields| :: parts[i] == PrintField(fields[i])
  {
    seq(|fields|, i requires 0 <= i < |fields| => PrintField(fields[i]))
  }

  function ParseFields(parts: seq<string>): (fields: seq<Field>)
    ensures |fields| == |parts| && forall i | 0 <= i < |parts| :: fields[i] == ParseField(parts[i])
  {
    seq(|parts|, i requires 0 <= i < |parts| => ParseField(parts[i]))
  }

  function Print(t: Schedule): string {
    match t
    case Descriptor(name) => name
    case Every(terms) => EVERY + PrintTerms(terms)
    case Fields(fields) => if fields == [] then "" else Join(PrintFields(fields), ' ')
  }

  function Parse(value: string): Schedule {
    var schedule := Strip(value);
    if EVERY <= schedule then Every(ParseTerms(schedule[|EVERY|..]))
    else if "@" <= schedule then Descriptor(schedule)
    else Fields(ParseFields(Words(schedule)))
  }

  /** The text is a sentence for the tree: the tree's print with white space around it and, between
      fields, any amount of white space. */
  predicate Reads(value: string, t: Schedule) {
    match t
    case Fields(fields) => !("@" <= Strip(value)) && Words(value) == PrintFields(fields)
    case _ => Strip(value) == Print(t)
  }

  lemma PlainNamesEverywhere(count: nat, i: nat)
    requires count in {5, 6} && i < count
    ensures PlainNames(SpecAt(count, i))
  {
  }

  lemma FieldsAcceptedIffSentence(words: seq<string>)
    ensures ValidateFields(words) <==> WellFormed(Fields(ParseFields(words)))
    ensures PrintFields(ParseFields(words)) == words
  {
    if |words| in {5, 6} {
      forall i | 0 <= i < |words|
        ensures ValidateField(words[i], SpecAt(|words|, i))
                <==> WellFormedField(ParseFields(words)[i], SpecAt(|words|, i))
      {
        PlainNamesEverywhere(|words|, i);
        FieldAcceptedIffWellFormed(words[i], SpecAt(|words|, i));
      }
    }
    var again := PrintFields(ParseFields(words));
    forall i | 0 <= i < |words| ensures again[i] == words[i] {
      PrintOfParsedField(words[i]);
    }
    assert again == words;
  }

  lemma ParseOfPrintedFields(fields: seq<Field>)
    requires WellFormed(Fields(fields))
    ensures ParseFields(PrintFields(fields)) == fields
    ensures forall i | 0 <= i < |fields| :: PrintField(fields[i]) == "?" || ListText(PrintField(fields[i]))
  {
    forall i | 0 <= i < |fields|
      ensures ParseField(PrintField(fields[i])) == fields[i]
      ensures PrintField(fields[i]) == "?" || ListText(PrintField(fields[i]))
    {
      PlainNamesEverywhere(|fields|, i);
      ParseOfPrintedField(fields[i], SpecAt(|fields|, i));
    }
    assert ParseFields(PrintFields(fields)) == fields;
  }

  // ------------------------------------------------------------------------------------------
  // Main results
  // ------------------------------------------------------------------------------------------

  /** What the parser returns is what was read: a schedule within the limits is accepted exactly when
      its parse is well-formed, and then it is a sentence for that tree. */
  lemma AcceptedIffParseIsWellFormed(value: string)
    requires value != "" && |value| <= MAX_LENGTH && '\n' !in value && '\r' !in value
    ensures Accepts(value, false) <==> WellFormed(Parse(value))
    ensures Accepts(value, false) ==> Reads(value, Parse(value))
  {
    var schedule := Strip(value);
    WordsOfStrip(value);
    if EVERY <= schedule {
      var duration := schedule[|EVERY|..];
      assert schedule == EVERY + duration;
      DescriptorIsNotEvery(schedule);
      PrintOfParsedTerms(duration);
    } else if "@" <= schedule {
    } else {
      FieldsAcceptedIffSentence(Words(schedule));
    }
  }

  lemma DescriptorIsNotEvery(schedule: string)
    ensures schedule in DESCRIPTORS ==> !(EVERY <= schedule)
    ensures EVERY <= schedule ==> "@" <= schedule
  {
    assert EVERY[6] == ' ';
    assert schedule in DESCRIPTORS ==> |schedule| <= 6 || schedule[6] != ' ';
  }

  lemma DescriptorTree(value: string, name: string)
    requires name in DESCRIPTORS && Strip(value) == name
    ensures Parse(value) == Descriptor(name)
  {
    assert name[0] == '@';
    DescriptorIsNotEvery(name);
  }

  lemma EveryTree(value: string, terms: seq<Term>)
    requires WellFormedTerms(terms) && Strip(value) == EVERY + PrintTerms(terms)
    ensures Parse(value) == Every(terms)
  {
    ParseOfPrintedTerms(terms);
    assert (EVERY + PrintTerms(terms))[|EVERY|..] == PrintTerms(terms);
  }

  lemma FieldsTree(value: string, fields: seq<Field>)
    requires WellFormed(Fields(fields)) && Words(value) == PrintFields(fields) && !("@" <= Strip(value))
    ensures Parse(value) == Fields(fields)
  {
    WordsOfStrip(value);
    ParseOfPrintedFields(fields);
    assert EVERY <= Strip(value) ==> "@" <= Strip(value);
  }

  /** A text has at most one tree. */
  lemma ReadsDeterminesTheTree(value: string, t: Schedule)
    requires WellFormed(t) && Reads(value, t)
    ensures Parse(value) == t
  {
    match t
    case Descriptor(name) => DescriptorTree(value, name);
    case Every(terms) => EveryTree(value, terms);
    case Fields(fields) => FieldsTree(value, fields);
  }

  /** A schedule that is not empty, within the length and without line breaks is accepted exactly when it
      is a descriptor, a duration or a sentence of five or six fields with all values in range. */
  lemma AcceptedIffSentence(value: string)
    requires value != "" && |value| <= MAX_LENGTH && '\n' !in value && '\r' !in value
    ensures Accepts(value, false) <==> exists t :: WellFormed(t) && Reads(value, t)
  {
    AcceptedIffParseIsWellFormed(value);
    if t :| WellFormed(t) && Reads(value, t) {
      ReadsDeterminesTheTree(value, t);
    }
  }

  lemma StripNothing(s: string)
    requires s != "" && !IsSpace(s[0]) && !IsSpace(s[|s| - 1])
    ensures Strip(s) == s
  {
  }

  lemma {:induction false} LastOfJoin(parts: seq<string>, c: char)
    requires parts != [] && forall i | 0 <= i < |parts| :: parts[i] != ""
    ensures var s := Join(parts, c);
            s != "" && s[0] == parts[0][0] && s[|s| - 1] == parts[|parts| - 1][|parts[|parts| - 1]| - 1]
    decreases |parts|
  {
    if |parts| > 1 {
      LastOfJoin(parts[1..], c);
    }
  }

  predicate FieldText(s: string) {
    s != "" && NoSpace(s) && s[0] != '@'
  }

  lemma FieldsAreFieldText(s: string)
    requires s == "?" || ListText(s)
    ensures FieldText(s)
  {
    if s != "?" {
      assert IsListChar(s[0]);
    }
  }

  lemma FieldTextJoined(parts: seq<string>)
    requires parts != [] && forall i | 0 <= i < |parts| :: FieldText(parts[i])
    ensures var s := Join(parts, ' '); s != "" && s[0] != '@' && !IsSpace(s[0]) && !IsSpace(s[|s| - 1])
  {
    LastOfJoin(parts, ' ');
    assert FieldText(parts[0]) && FieldText(parts[|parts| - 1]);
  }

  lemma PrintedFieldsRead(fields: seq<Field>)
    requires WellFormed(Fields(fields))
    ensures Reads(Print(Fields(fields)), Fields(fields))
  {
    hide PrintField, WellFormedField, ListText, Words, Join, StripLeft, StripRight;
    ParseOfPrintedFields(fields);
    var parts := PrintFields(fields);
    forall i | 0 <= i < |parts| ensures FieldText(parts[i]) {
      FieldsAreFieldText(PrintField(fields[i]));
    }
    WordsOfJoin(parts);
    FieldTextJoined(parts);
    StripNothing(Print(Fields(fields)));
  }

  lemma {:induction false} LastOfTerms(ts: seq<Term>)
    requires ts != [] && WellFormedTerms(ts)
    ensures var s := PrintTerms(ts); s != "" && s[|s| - 1] in {'s', 'm', 'h'}
    decreases |ts|
  {
    var t := ts[0];
    assert t.unit in UNITS && t.unit[|t.unit| - 1] in {'s', 'm', 'h'};
    assert PrintTerm(t)[|PrintTerm(t)| - 1] == t.unit[|t.unit| - 1];
    if |ts| > 1 {
      assert WellFormedTerms(ts[1..]);
      LastOfTerms(ts[1..]);
    } else {
      assert PrintTerms(ts[1..]) == "";
    }
  }

  lemma PrintIsASentence(t: Schedule)
    requires WellFormed(t)
    ensures Reads(Print(t), t)
  {
    match t
    case Descriptor(name) =>
      assert name != "" && !IsSpace(name[0]) && !IsSpace(name[|name| - 1]);
      StripNothing(name);
    case Every(terms) =>
      LastOfTerms(terms);
      assert Print(t)[0] == '@' && Print(t)[|Print(t)| - 1] == PrintTerms(terms)[|PrintTerms(terms)| - 1];
      StripNothing(Print(t));
    case Fields(fields) => PrintedFieldsRead(fields);
  }

  predicate OneLine(s: string) {
    '\n' !in s && '\r' !in s
  }

  lemma {:induction false} JoinIsOneLine(parts: seq<string>)
    requires parts != [] && forall i | 0 <= i < |parts| :: NoSpace(parts[i])
    ensures OneLine(Join(parts, ' '))
    decreases |parts|
  {
    assert NoSpace(parts[0]);
    if |parts| > 1 {
      JoinIsOneLine(parts[1..]);
    }
  }

  lemma {:induction false} TermsAreOneLine(ts: seq<Term>)
    requires WellFormedTerms(ts)
    ensures OneLine(PrintTerms(ts))
    decreases |ts|
  {
    if ts != [] {
      assert WellFormedTerm(ts[0]) && OneLine(ts[0].unit);
      TermsAreOneLine(ts[1..]);
    }
  }

  lemma DescriptorsAreOneLine(name: string)
    requires name in DESCRIPTORS
    ensures name != "" && OneLine(name)
  {
  }

  lemma DurationsAreOneLine(terms: seq<Term>)
    requires WellFormedTerms(terms)
    ensures OneLine(EVERY + PrintTerms(terms))
  {
    TermsAreOneLine(terms);
    hide PrintTerms, WellFormedTerms;
    assert OneLine(EVERY);
  }

  lemma FieldsAreOneLine(fields: seq<Field>)
    requires WellFormed(Fields(fields))
    ensures Print(Fields(fields)) != "" && OneLine(Print(Fields(fields)))
  {
    hide PrintField, WellFormedField, ListText, Join;
    ParseOfPrintedFields(fields);
    var parts := PrintFields(fields);
    forall i | 0 <= i < |parts| ensures FieldText(parts[i]) {
      FieldsAreFieldText(PrintField(fields[i]));
    }
    JoinIsOneLine(parts);
    FieldTextJoined(parts);
  }

  lemma PrintIsOneLine(t: Schedule)
    requires WellFormed(t)
    ensures Print(t) != "" && OneLine(Print(t))
  {
    hide OneLine, WellFormedField, WellFormedTerms, PrintTerms, PrintField;
    match t
    case Descriptor(name) => DescriptorsAreOneLine(name);
    case Every(terms) => DurationsAreOneLine(terms);
    case Fields(fields) => FieldsAreOneLine(fields);
  }

  /** Printing then parsing gives any well-formed schedule back, and the validator accepts the print if
      and only if it fits the length. */
  lemma RoundTrip(t: Schedule)
    requires WellFormed(t)
    ensures Parse(Print(t)) == t
    ensures Accepts(Print(t), false) <==> |Print(t)| <= MAX_LENGTH
  {
    PrintIsASentence(t);
    ReadsDeterminesTheTree(Print(t), t);
    PrintIsOneLine(t);
    if |Print(t)| <= MAX_LENGTH {
      AcceptedIffSentence(Print(t));
    }
  }

  // ------------------------------------------------------------------------------------------
  // What the positions stand for
  // ------------------------------------------------------------------------------------------

  datatype Position = Second | Minute | Hour | DayOfMonth | Month | DayOfWeek

  /** Counted from the last field; a schedule of five fields has no seconds. */
  function PositionFromTheEnd(k: nat): Position
    requires k < 6
  {
    match k
    case 0 => DayOfWeek
    case 1 => Month
    case 2 => DayOfMonth
    case 3 => Hour
    case 4 => Minute
    case 5 => Second
  }

  const MONTHS := ["JAN", "FEB", "MAR", "APR", "MAY", "JUN", "JUL", "AUG", "SEP", "OCT", "NOV", "DEC"]

  const DAYS := ["SUN", "MON", "TUE", "WED", "THU", "FRI", "SAT"]

  predicate IsNumeral(word: string) {
    word != "" && forall c | c in word :: c in DIGITS
  }

  /** A single value of a position: a number of the calendar, or, for months and days of the week, a name. */
  predicate IsValueOf(word: string, p: Position) {
    match p
    case Second => IsNumeral(word) && Decimal(word) < 60
    case Minute => IsNumeral(word) && Decimal(word) < 60
    case Hour => IsNumeral(word) && Decimal(word) < 24
    case DayOfMonth => IsNumeral(word) && 0 < Decimal(word) < 32
    case Month => word in MONTHS || (IsNumeral(word) && 0 < Decimal(word) < 13)
    case DayOfWeek => word in DAYS || (IsNumeral(word) && Decimal(word) < 8)
  }

  /** A question mark is for days only, of the month or of the week. */
  predicate TakesQuestionMark(p: Position) {
    p.DayOfMonth? || p.DayOfWeek?
  }

  lemma NamesOfMonths(word: string)
    ensures word in MONTH_NAMES <==> word in MONTHS
    ensures word in MONTH_NAMES ==> 1 <= MONTH_NAMES[word] <= 12 && MONTHS[MONTH_NAMES[word] - 1] == word
  {
  }

  lemma NamesOfDays(word: string)
    ensures word in DOW_NAMES <==> word in DAYS
    ensures word in DOW_NAMES ==> 0 <= DOW_NAMES[word] <= 6 && DAYS[DOW_NAMES[word]] == word
  {
  }

  /** What the ranges and names of a position amount to. */
  lemma SpecOfPosition(count: nat, i: nat, word: string)
    requires count in {5, 6} && i < count
    ensures var p := PositionFromTheEnd(count - 1 - i);
            && (Fits(word, SpecAt(count, i)) <==> IsValueOf(word, p))
            && (SpecAt(count, i).allowQuestion <==> TakesQuestionMark(p))
  {
    hide Decimal;
    NamesOfMonths(word);
    NamesOfDays(word);
    hide MONTH_NAMES, DOW_NAMES;
  }

  /** A schedule of plain values is accepted if and only if there are five or six of them and each is one of its
      position. */
  lemma PlainScheduleIff(value: string)
    requires value != "" && |value| <= 100 && '\n' !in value && '\r' !in value
    requires Strip(value) == "" || Strip(value)[0] != '@'
    requires forall i | 0 <= i < |Words(value)| :: PlainText(Words(value)[i])
    ensures var words := Words(value);
            Accepts(value, false) <==>
              && (|words| == 5 || |words| == 6)
              && forall i | 0 <= i < |words| :: IsValueOf(words[i], PositionFromTheEnd(|words| - 1 - i))
  {
    hide IsValueOf, PositionFromTheEnd, SpecAt, Words, ValidateField;
    var words := Words(value);
    WordsOfStrip(value);
    if |words| in {5, 6} {
      forall i | 0 <= i < |words|
        ensures ValidateField(words[i], SpecAt(|words|, i))
                <==> IsValueOf(words[i], PositionFromTheEnd(|words| - 1 - i))
      {
        SingleValueIff(words[i], SpecAt(|words|, i));
        SpecOfPosition(|words|, i, words[i]);
      }
    }
  }

  /** Whatever is in them, a question mark is accepted for days only. */
  lemma QuestionMarkIff(count: nat, i: nat)
    requires count in {5, 6} && i < count
    ensures ValidateField("?", SpecAt(count, i)) <==> TakesQuestionMark(PositionFromTheEnd(count - 1 - i))
  {
    PlainNamesEverywhere(count, i);
    SingleValueIff("?", SpecAt(count, i));
    SpecOfPosition(count, i, "?");
  }

  /** Nothing but lenient reading and the empty schedule gets around the limits. */
  lemma OutsideTheLimits(value: string, lenient: bool)
    ensures lenient || |value| == 0 ==> Accepts(value, lenient)
    ensures |value| > 100 || '\n' in value || '\r' in value ==> (Accepts(value, lenient) <==> lenient)
  {
  }

  /** Of the schedules that start with @ those are accepted that are one of seven words, or a duration after @every. */
  lemma DescriptorsAccepted(value: string)
    requires 0 < |value| <= 100 && '\n' !in value && '\r' !in value
    requires Strip(value) != "" && Strip(value)[0] == '@'
    ensures var s := Strip(value);
            Accepts(value, false) <==>
              || s == "@hourly" || s == "@daily" || s == "@midnight" || s == "@weekly" || s == "@monthly"
              || s == "@yearly" || s == "@annually"
              || exists terms :: terms != [] && WellFormedTerms(terms) && s == "@every " + PrintTerms(terms)
  {
    hide WellFormedTerms, PrintTerms, MatchesEvery, Strip;
    var s := Strip(value);
    if "@every " <= s {
      var duration := s[7..];
      assert s == "@every " + duration;
      EveryAcceptedIffTerms(duration);
    }
    if terms :| terms != [] && WellFormedTerms(terms) && s == "@every " + PrintTerms(terms) {
      assert s[7..] == PrintTerms(terms);
      EveryAcceptedIffTerms(s[7..]);
    }
  }

  /** A number, perhaps with a fraction, and one of seven units. */
  lemma TermsOfDurations(t: Term)
    ensures WellFormedTerm(t) <==>
            && IsNumeral(t.whole) && (t.fraction == None || IsNumeral(t.fraction.value))
            && (t.unit == "h" || t.unit == "m" || t.unit == "s" || t.unit == "ms" || t.unit == "us"
                || t.unit == "\U{00B5}s" || t.unit == "ns")
    ensures t.fraction == None ==> PrintTerm(t) == t.whole + t.unit
    ensures t.fraction != None ==> PrintTerm(t) == t.whole + "." + t.fraction.value + t.unit
  {
    NumberIsOfDigits(t.whole);
    if t.fraction.Some? {
      NumberIsOfDigits(t.fraction.value);
    }
  }
}
