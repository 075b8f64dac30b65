/** Execution-time ledger of an organization: quotas, monthly, gifted and extra time. */
module OrgLedger {
  import opened MapSums
  import opened Numbers

  /** A calendar month, the key of the usage counters, as the number of months since year 0. */
  type Month = int

  datatype QuotaField =
    | StorageQuota
    | MaxExecMinutesPerMonth
    | MaxConcurrentCrawls
    | MaxPagesPerCrawl
    | ExtraExecMinutes
    | GiftedExecMinutes

  /** Quota values by field. A field that is absent has the model default 0. In an update, an absent
      field is one the caller left unset. */
  type Quotas = map<QuotaField, int>

  datatype Mode = Set | Add

  datatype Ledger = Ledger(
    quotas: Quotas,
    usage: map<Month, int>,
    crawlExec: map<Month, int>,
    qaUsage: map<Month, int>,
    qaCrawlExec: map<Month, int>,
    monthly: map<Month, int>,
    gifted: map<Month, int>,
    extra: map<Month, int>,
    giftedAvailable: int,
    extraAvailable: int,
    quotaUpdates: seq<Quotas>)

  function Quota(l: Ledger, f: QuotaField): int { Get(l.quotas, f) }

  predicate SomeQuota(l: Ledger) {
    Quota(l, MaxExecMinutesPerMonth) != 0 || Quota(l, ExtraExecMinutes) != 0 || Quota(l, GiftedExecMinutes) != 0
  }

  /** What is left of the month's base quota, in seconds. Negative after the quota was lowered. */
  function Remaining(l: Ledger, month: Month): int {
    60 * Quota(l, MaxExecMinutesPerMonth) - Get(l.monthly, month)
  }

  /** Seconds recorded against any of the three budgets in a month. */
  function Recorded(l: Ledger, month: Month): int {
    Get(l.monthly, month) + Get(l.gifted, month) + Get(l.extra, month)
  }

  /** The gate in front of new crawls, branch by branch. */
  predicate ExecMinsQuotaReached(l: Ledger, month: Month) {
    if !SomeQuota(l) then false
    else if Quota(l, GiftedExecMinutes) > 0 && l.giftedAvailable > 0 then false
    else if Quota(l, ExtraExecMinutes) > 0 && l.extraAvailable > 0 then false
    else if Quota(l, MaxExecMinutesPerMonth) != 0 && Get(l.monthly, month) / 60 < Quota(l, MaxExecMinutesPerMonth)
    then false
    else true
  }

  // ------------------------------------------------------------------------------------------
  // Specification of a charge and of a quota update
  // ------------------------------------------------------------------------------------------

  /** How a charge of d seconds is divided: first the month's budget, then gifted, then extra time. */
  function ToMonthly(l: Ledger, month: Month, d: int): int {
    Min(d, Remaining(l, month))
  }

  function OverToGifted(l: Ledger, over: int): int {
    if over <= 0 then 0 else Min(over, l.giftedAvailable)
  }

  function OverToExtra(l: Ledger, over: int): int {
    var rest := over - OverToGifted(l, over);
    if rest <= 0 then 0 else Min(rest, l.extraAvailable)
  }

  function ToGifted(l: Ledger, month: Month, d: int): int {
    OverToGifted(l, d - Remaining(l, month))
  }

  function ToExtra(l: Ledger, month: Month, d: int): int {
    OverToExtra(l, d - Remaining(l, month))
  }

  function IncNonZero(m: map<Month, int>, k: Month, n: int): map<Month, int> {
    if n == 0 then m else Inc(m, k, n)
  }

  function BudgetsCharged(l: Ledger, month: Month, d: int): Ledger {
    if !SomeQuota(l) then l
    else
      var g := ToGifted(l, month, d);
      var e := ToExtra(l, month, d);
      l.(monthly := Inc(l.monthly, month, ToMonthly(l, month, d)),
         gifted := IncNonZero(l.gifted, month, g),
         giftedAvailable := l.giftedAvailable - g,
         extra := IncNonZero(l.extra, month, e),
         extraAvailable := l.extraAvailable - e)
  }

  /** The division case by case. */
  lemma BudgetsByCase(l: Ledger, month: Month, d: int)
    ensures var rest := Remaining(l, month);
            var t := BudgetsCharged(l, month, d);
            && (!SomeQuota(l) ==> t == l)
            && (SomeQuota(l) && d <= rest ==> t == l.(monthly := Inc(l.monthly, month, d)))
            && (SomeQuota(l) && d > rest ==>
                 && t.monthly == Inc(l.monthly, month, rest)
                 && t.gifted == IncNonZero(l.gifted, month, OverToGifted(l, d - rest))
                 && t.giftedAvailable == l.giftedAvailable - OverToGifted(l, d - rest)
                 && t.extra == IncNonZero(l.extra, month, OverToExtra(l, d - rest))
                 && t.extraAvailable == l.extraAvailable - OverToExtra(l, d - rest)
                 && t == l.(monthly := t.monthly, gifted := t.gifted, giftedAvailable := t.giftedAvailable,
                            extra := t.extra, extraAvailable := t.extraAvailable))
  {
  }

  function Charged(l: Ledger, month: Month, d: int, isExecTime: bool, isQa: bool): Ledger {
    if isQa then
      if isExecTime then l.(qaCrawlExec := Inc(l.qaCrawlExec, month, d)) else l.(qaUsage := Inc(l.qaUsage, month, d))
    else if !isExecTime then
      l.(usage := Inc(l.usage, month, d))
    else
      BudgetsCharged(l.(crawlExec := Inc(l.crawlExec, month, d)), month, d)
  }

  function Increment(quotas: Quotas, update: Quotas, f: QuotaField): int {
    if f in update then Max(update[f], -Get(quotas, f)) else 0
  }

  /** The quotas after an update. Adding never takes a quota that is not negative below zero. */
  function NewQuotas(quotas: Quotas, update: Quotas, mode: Mode): Quotas {
    if mode == Set then quotas + update
    else map f | f in quotas.Keys + update.Keys :: Get(quotas, f) + Increment(quotas, update, f)
  }

  /** The fields whose available seconds are moved: the whole stored document when adding. */
  function Announced(quotas: Quotas, update: Quotas, mode: Mode): Quotas {
    if mode == Set then update else NewQuotas(quotas, update, mode)
  }

  function NewAvailable(available: int, before: Quotas, announced: Quotas, f: QuotaField): int {
    if f in announced then Max(0, available + 60 * (announced[f] - Get(before, f))) else available
  }

  function Updated(l: Ledger, update: Quotas, mode: Mode): Ledger {
    var announced := Announced(l.quotas, update, mode);
    l.(quotas := NewQuotas(l.quotas, update, mode),
       giftedAvailable := NewAvailable(l.giftedAvailable, l.quotas, announced, GiftedExecMinutes),
       extraAvailable := NewAvailable(l.extraAvailable, l.quotas, announced, ExtraExecMinutes),
       quotaUpdates := l.quotaUpdates + [announced])
  }

  // ------------------------------------------------------------------------------------------
  // The organization document and the operations that change it
  // ------------------------------------------------------------------------------------------

  class Org {
    var quotas: Quotas
    var usage: map<Month, int>
    var crawlExecSeconds: map<Month, int>
    var qaUsage: map<Month, int>
    var qaCrawlExecSeconds: map<Month, int>
    var monthlyExecSeconds: map<Month, int>
    var giftedExecSeconds: map<Month, int>
    var extraExecSeconds: map<Month, int>
    var giftedExecSecondsAvailable: int
    var extraExecSecondsAvailable: int
    var quotaUpdates: seq<Quotas>

    function View(): Ledger
      reads this
    {
      Ledger(quotas, usage, crawlExecSeconds, qaUsage, qaCrawlExecSeconds, monthlyExecSeconds, giftedExecSeconds,
             extraExecSeconds, giftedExecSecondsAvailable, extraExecSecondsAvailable, quotaUpdates)
    }

    /** A new organization starts with the quotas it is given and no available seconds at all. */
    constructor (quotas: Quotas)
      ensures View() == Created(quotas)
    {
      this.quotas := quotas;
      usage, crawlExecSeconds, qaUsage, qaCrawlExecSeconds := map[], map[], map[], map[];
      monthlyExecSeconds, giftedExecSeconds, extraExecSeconds := map[], map[], map[];
      giftedExecSecondsAvailable, extraExecSecondsAvailable := 0, 0;
      quotaUpdates := [];
    }

    method IncOrgTimeStats(month: Month, duration: int, isExecTime: bool, isQa: bool)
      modifies this
      ensures View() == Charged(old(View()), month, duration, isExecTime, isQa)
    {
      if !isQa {
        if isExecTime {
          crawlExecSeconds := Inc(crawlExecSeconds, month, duration);
        } else {
          usage := Inc(usage, month, duration);
        }
      } else if isExecTime {
        qaCrawlExecSeconds := Inc(qaCrawlExecSeconds, month, duration);
      } else {
        qaUsage := Inc(qaUsage, month, duration);
      }
      if isExecTime && !isQa {
        ChargeBudgets(month, duration);
      }
    }

    /** The part of the same operation that reads the document back and divides the time. */
    method ChargeBudgets(month: Month, duration: int)
      modifies `monthlyExecSeconds, `giftedExecSeconds, `extraExecSeconds
      modifies `giftedExecSecondsAvailable, `extraExecSecondsAvailable
      ensures View() == BudgetsCharged(old(View()), month, duration)
    {
      BudgetsByCase(View(), month, duration);
      hide BudgetsCharged;
      var monthlyUsed := Get(monthlyExecSeconds, month);
      var monthlyQuotaSecs := Get(quotas, MaxExecMinutesPerMonth) * 60;
      if monthlyQuotaSecs == 0 && Get(quotas, ExtraExecMinutes) == 0 && Get(quotas, GiftedExecMinutes) == 0 {
        return;
      }
      var remaining := monthlyQuotaSecs - monthlyUsed;
      if duration <= remaining {
        monthlyExecSeconds := Inc(monthlyExecSeconds, month, duration);
        return;
      }
      monthlyExecSeconds := Inc(monthlyExecSeconds, month, remaining);
      if giftedExecSecondsAvailable == 0 && extraExecSecondsAvailable == 0 {
        return;
      }
      ChargeOverage(month, duration - remaining);
    }

    /** The rest of the same operation: time over the monthly quota goes to gifted, then to extra time. */
    method ChargeOverage(month: Month, secsOverQuota: int)
      requires secsOverQuota > 0
      modifies `giftedExecSeconds, `extraExecSeconds, `giftedExecSecondsAvailable, `extraExecSecondsAvailable
      ensures var g, e := OverToGifted(old(View()), secsOverQuota), OverToExtra(old(View()), secsOverQuota);
              && giftedExecSeconds == IncNonZero(old(giftedExecSeconds), month, g)
              && extraExecSeconds == IncNonZero(old(extraExecSeconds), month, e)
              && giftedExecSecondsAvailable == old(giftedExecSecondsAvailable) - g
              && extraExecSecondsAvailable == old(extraExecSecondsAvailable) - e
    {
      var over := secsOverQuota;
      var available := giftedExecSecondsAvailable;
      if available != 0 {
        if over <= available {
          giftedExecSeconds := Inc(giftedExecSeconds, month, over);
          giftedExecSecondsAvailable := giftedExecSecondsAvailable - over;
          return;
        }
        giftedExecSeconds := Inc(giftedExecSeconds, month, available);
        giftedExecSecondsAvailable := 0;
        over := over - available;
      }
      var toUse := Min(over, extraExecSecondsAvailable);
      if toUse != 0 {
        extraExecSeconds := Inc(extraExecSeconds, month, toUse);
        extraExecSecondsAvailable := extraExecSecondsAvailable - toUse;
      }
    }

    /** Adds each given value to its quota, but takes away no more than there is. */
    method AddToQuotas(update: Quotas)
      modifies `quotas
      ensures quotas == NewQuotas(old(quotas), update, Add)
    {
      var before := quotas;
      var todo := update.Keys;
      while todo != {}
        invariant todo <= update.Keys
        invariant quotas.Keys == before.Keys + (update.Keys - todo)
        invariant forall f | f in quotas ::
          quotas[f] == Get(before, f) + if f in todo then 0 else Increment(before, update, f)
        decreases todo
      {
        var f :| f in todo;
        quotas := Inc(quotas, f, Max(update[f], -Get(before, f)));
        todo := todo - {f};
      }
    }

    /** Moves the available seconds by the change of their quota, setting them to 0 where the sum is not positive. */
    static method Moved(available: int, before: Quotas, announced: Quotas, f: QuotaField) returns (moved: int)
      ensures moved == NewAvailable(available, before, announced, f)
    {
      moved := available;
      if f in announced {
        var diff := (announced[f] - Get(before, f)) * 60;
        if available + diff <= 0 {
          moved := 0;
        } else {
          moved := available + diff;
        }
      }
    }

    method UpdateQuotas(update: Quotas, mode: Mode)
      modifies `quotas, `giftedExecSecondsAvailable, `extraExecSecondsAvailable, `quotaUpdates
      ensures View() == Updated(old(View()), update, mode)
    {
      var before := quotas;
      var announced := update;
      if mode == Add {
        AddToQuotas(update);
        announced := quotas;
      } else {
        quotas := quotas + update;
      }
      extraExecSecondsAvailable := Moved(extraExecSecondsAvailable, before, announced, ExtraExecMinutes);
      giftedExecSecondsAvailable := Moved(giftedExecSecondsAvailable, before, announced, GiftedExecMinutes);
      quotaUpdates := quotaUpdates + [announced];
    }
  }

  // ------------------------------------------------------------------------------------------
  // Runs
  // ------------------------------------------------------------------------------------------

  /** One serial operation on the ledger. Months change simply by later events naming a later month. */
  datatype Event =
    | Charge(month: Month, duration: int, isExecTime: bool, isQa: bool)
    | Update(update: Quotas, mode: Mode)

  function Created(quotas: Quotas): Ledger {
    Ledger(quotas, map[], map[], map[], map[], map[], map[], map[], 0, 0, [])
  }

  function Step(l: Ledger, e: Event): Ledger {
    match e
    case Charge(month, d, isExecTime, isQa) => Charged(l, month, d, isExecTime, isQa)
    case Update(update, mode) => Updated(l, update, mode)
  }

  predicate NonNegativeTimeQuotas(quotas: Quotas) {
    && Get(quotas, MaxExecMinutesPerMonth) >= 0
    && Get(quotas, ExtraExecMinutes) >= 0
    && Get(quotas, GiftedExecMinutes) >= 0
  }

  /** Durations are not negative, and no update leaves a negative time quota behind. */
  predicate Admissible(l: Ledger, e: Event) {
    match e
    case Charge(_, d, _, _) => d >= 0
    case Update(update, mode) => NonNegativeTimeQuotas(NewQuotas(l.quotas, update, mode))
  }

  predicate AllAdmissible(l: Ledger, es: seq<Event>)
    decreases |es|
  {
    es == [] || (Admissible(l, es[0]) && AllAdmissible(Step(l, es[0]), es[1..]))
  }

  function Run(l: Ledger, es: seq<Event>): Ledger
    decreases |es|
  {
    if es == [] then l else Run(Step(l, es[0]), es[1..])
  }

  /** What the available seconds of one extra budget may be, given that budget's quota. */
  predicate WithinQuota(available: int, quotaMins: int) {
    0 <= available <= 60 * quotaMins
  }

  ghost predicate Inv(l: Ledger) {
    && NonNegativeTimeQuotas(l.quotas)
    && WithinQuota(l.giftedAvailable, Quota(l, GiftedExecMinutes))
    && WithinQuota(l.extraAvailable, Quota(l, ExtraExecMinutes))
    && (forall m: Month :: Get(l.monthly, m) >= 0)
    && (forall m: Month :: Recorded(l, m) <= Get(l.crawlExec, m))
  }

  // ------------------------------------------------------------------------------------------
  // One charge
  // ------------------------------------------------------------------------------------------

  /** A charge of crawl execution time with some quota set records exactly what the three budgets can
      hold, and the total counter gets all of it. */
  lemma ChargeRecordsWhatFits(l: Ledger, month: Month, d: int)
    requires SomeQuota(l) && l.giftedAvailable >= 0 && l.extraAvailable >= 0
    ensures var l' := Charged(l, month, d, true, false);
            && Recorded(l', month) - Recorded(l, month)
               == Min(d, Remaining(l, month) + l.giftedAvailable + l.extraAvailable)
            && Get(l'.crawlExec, month) - Get(l.crawlExec, month) == d
            && forall m: Month | m != month ::
                 Recorded(l', m) == Recorded(l, m) && Get(l'.crawlExec, m) == Get(l.crawlExec, m)
  {
  }

  /** The budgets are used in order: after a charge the month is within its quota, gifted time is
      touched only when the month is full, extra time only when gifted time is used up as well, and
      what leaves an available balance enters that budget's usage. */
  lemma ChargeFollowsTheOrder(l: Ledger, month: Month, d: int)
    requires SomeQuota(l) && l.giftedAvailable >= 0 && l.extraAvailable >= 0
    ensures var l' := Charged(l, month, d, true, false);
            && Remaining(l', month) >= 0
            && (l'.gifted != l.gifted ==> Remaining(l', month) == 0)
            && (l'.extra != l.extra ==> Remaining(l', month) == 0 && l'.giftedAvailable == 0)
            && 0 <= l'.giftedAvailable <= l.giftedAvailable
            && 0 <= l'.extraAvailable <= l.extraAvailable
            && Get(l'.gifted, month) - Get(l.gifted, month) == l.giftedAvailable - l'.giftedAvailable
            && Get(l'.extra, month) - Get(l.extra, month) == l.extraAvailable - l'.extraAvailable
  {
  }

  /** A charge in seconds: with no time quota at all only the total counts; otherwise the month takes what fits
      into 60 times its quota, gifted time what is over, as far as it goes, and extra time what is still over. */
  lemma ChargeInSeconds(l: Ledger, month: Month, d: int)
    requires l.giftedAvailable >= 0 && l.extraAvailable >= 0
    ensures var quotas, t := l.quotas, Charged(l, month, d, true, false);
            var room := 60 * Get(quotas, MaxExecMinutesPerMonth) - Get(l.monthly, month);
            var over := if d <= room then 0 else d - room;
            var fromGifted, fromExtra := l.giftedAvailable - t.giftedAvailable, l.extraAvailable - t.extraAvailable;
            && Get(t.crawlExec, month) == Get(l.crawlExec, month) + d
            && Get(t.gifted, month) == Get(l.gifted, month) + fromGifted
            && Get(t.extra, month) == Get(l.extra, month) + fromExtra
            && if Get(quotas, MaxExecMinutesPerMonth) == 0 && Get(quotas, ExtraExecMinutes) == 0
                  && Get(quotas, GiftedExecMinutes) == 0
               then t.monthly == l.monthly && fromGifted == 0 && fromExtra == 0
               else
                 && Get(t.monthly, month) == Get(l.monthly, month) + (d - over)
                 && fromGifted == (if over <= l.giftedAvailable then over else l.giftedAvailable)
                 && fromExtra == (if over - fromGifted <= l.extraAvailable then over - fromGifted else l.extraAvailable)
  {
  }

  /** Each of the four kinds of time has a counter of its own, and only a crawl's execution time touches more. */
  lemma EachKindHasItsCounter(l: Ledger, month: Month, d: int, isExecTime: bool, isQa: bool)
    ensures var t := Charged(l, month, d, isExecTime, isQa);
            && Get(t.usage, month) == Get(l.usage, month) + (if !isExecTime && !isQa then d else 0)
            && Get(t.crawlExec, month) == Get(l.crawlExec, month) + (if isExecTime && !isQa then d else 0)
            && Get(t.qaUsage, month) == Get(l.qaUsage, month) + (if !isExecTime && isQa then d else 0)
            && Get(t.qaCrawlExec, month) == Get(l.qaCrawlExec, month) + (if isExecTime && isQa then d else 0)
            && (!isExecTime || isQa ==>
                  && t.monthly == l.monthly && t.gifted == l.gifted && t.extra == l.extra
                  && t.giftedAvailable == l.giftedAvailable && t.extraAvailable == l.extraAvailable)
            && t.quotas == l.quotas && t.quotaUpdates == l.quotaUpdates
            && forall m: Month | m != month ::
                 && Get(t.usage, m) == Get(l.usage, m) && Get(t.qaUsage, m) == Get(l.qaUsage, m)
                 && Get(t.qaCrawlExec, m) == Get(l.qaCrawlExec, m)
  {
  }

  /** The gate in seconds: it is closed when some time quota is set and no budget with a quota that lets it count
      has time left. */
  lemma GateInSeconds(l: Ledger, month: Month)
    ensures var quotas := l.quotas;
            ExecMinsQuotaReached(l, month) <==>
              && (Get(quotas, MaxExecMinutesPerMonth) != 0 || Get(quotas, ExtraExecMinutes) != 0
                  || Get(quotas, GiftedExecMinutes) != 0)
              && (Get(quotas, GiftedExecMinutes) <= 0 || l.giftedAvailable <= 0)
              && (Get(quotas, ExtraExecMinutes) <= 0 || l.extraAvailable <= 0)
              && (Get(quotas, MaxExecMinutesPerMonth) == 0
                  || Get(l.monthly, month) >= 60 * Get(quotas, MaxExecMinutesPerMonth))
  {
  }

  // ------------------------------------------------------------------------------------------
  // One update of the quotas
  // ------------------------------------------------------------------------------------------

  /** Adding adds, but takes away no more than there is; setting sets; other quotas stay. */
  lemma UpdateOfOneQuota(l: Ledger, update: Quotas, mode: Mode, f: QuotaField)
    ensures var before, after := Get(l.quotas, f), Get(Updated(l, update, mode).quotas, f);
            && (f !in update ==> after == before)
            && (f in update && mode == Set ==> after == update[f])
            && (f in update && mode == Add ==> after == if before + update[f] < 0 then 0 else before + update[f])
  {
  }

  /** A balance moves by 60 seconds for each minute its quota moves by, but not below 0. */
  predicate MovesWithItsQuota(available: int, available': int, minutes: int) {
    available' == if available + 60 * minutes < 0 then 0 else available + 60 * minutes
  }

  /** The balances of gifted and extra time follow their quotas, whatever the mode, and nothing else moves but the
      record: when setting it is what was given, when adding the quotas that came out. */
  lemma UpdateOfBalances(l: Ledger, update: Quotas, mode: Mode)
    requires BalancesNonNegative(l)
    ensures var t := Updated(l, update, mode);
            && MovesWithItsQuota(l.giftedAvailable, t.giftedAvailable,
                 Get(t.quotas, GiftedExecMinutes) - Get(l.quotas, GiftedExecMinutes))
            && MovesWithItsQuota(l.extraAvailable, t.extraAvailable,
                 Get(t.quotas, ExtraExecMinutes) - Get(l.quotas, ExtraExecMinutes))
            && t.quotas.Keys == l.quotas.Keys + update.Keys
            && t.quotaUpdates == l.quotaUpdates + [if mode == Set then update else t.quotas]
            && t == l.(quotas := t.quotas, giftedAvailable := t.giftedAvailable, extraAvailable := t.extraAvailable,
                       quotaUpdates := t.quotaUpdates)
  {
  }

  function Negated(update: Quotas): Quotas {
    map f | f in update :: -update[f]
  }

  /** What is added can be taken back: quotas that are not negative and the balances are then as before. */
  lemma AddedThenTakenBack(l: Ledger, update: Quotas, f: QuotaField)
    requires BalancesNonNegative(l) && Get(l.quotas, f) >= 0 && Get(update, f) >= 0
    ensures var t := Updated(Updated(l, update, Add), Negated(update), Add);
            && Get(t.quotas, f) == Get(l.quotas, f)
            && (f == GiftedExecMinutes ==> t.giftedAvailable == l.giftedAvailable)
            && (f == ExtraExecMinutes ==> t.extraAvailable == l.extraAvailable)
  {
    hide Updated;
    var added := Updated(l, update, Add);
    UpdateOfBalances(l, update, Add);
    UpdateOfOneQuota(l, update, Add, f);
    UpdateOfBalances(added, Negated(update), Add);
    UpdateOfOneQuota(added, Negated(update), Add, f);
  }

  predicate BalancesNonNegative(l: Ledger) {
    l.giftedAvailable >= 0 && l.extraAvailable >= 0
  }

  /** Nothing is left in any of the three budgets. */
  predicate NothingLeft(l: Ledger, month: Month) {
    Remaining(l, month) <= 0 && l.giftedAvailable == 0 && l.extraAvailable == 0
  }

  predicate GiftedOpens(l: Ledger) {
    Quota(l, GiftedExecMinutes) > 0 && l.giftedAvailable > 0
  }

  predicate ExtraOpens(l: Ledger) {
    Quota(l, ExtraExecMinutes) > 0 && l.extraAvailable > 0
  }

  predicate MonthOpens(l: Ledger, month: Month) {
    Quota(l, MaxExecMinutesPerMonth) != 0 && Remaining(l, month) > 0
  }

  /** Time that charges can use but the gate does not see: a balance behind a quota that is not positive, or
      a month with time left and no quota, while no budget opens the gate. */
  predicate Stranded(l: Ledger, month: Month) {
    && !GiftedOpens(l) && !ExtraOpens(l) && !MonthOpens(l, month)
    && (|| (l.giftedAvailable > 0 && Quota(l, GiftedExecMinutes) <= 0)
        || (l.extraAvailable > 0 && Quota(l, ExtraExecMinutes) <= 0)
        || (Remaining(l, month) > 0 && Quota(l, MaxExecMinutesPerMonth) == 0))
  }

  /** With a quota set, closed gates mean empty budgets, and the other way round, unless time is stranded; and
      where time is stranded they do not. */
  lemma GateIsExactUnlessStranded(l: Ledger, month: Month)
    requires SomeQuota(l) && BalancesNonNegative(l)
    ensures (ExecMinsQuotaReached(l, month) <==> NothingLeft(l, month)) <==> !Stranded(l, month)
  {
  }

  /** A charge that loses time leaves the gate closed, whatever the quotas are. */
  lemma DroppedTimeClosesTheGate(l: Ledger, month: Month, d: int)
    requires SomeQuota(l) && BalancesNonNegative(l)
    ensures var l' := Charged(l, month, d, true, false);
            Recorded(l', month) - Recorded(l, month) < d ==> ExecMinsQuotaReached(l', month) && NothingLeft(l', month)
  {
    ChargeRecordsWhatFits(l, month, d);
    if d > Remaining(l, month) + l.giftedAvailable + l.extraAvailable {
      LostTimeEmptiesTheBudgets(l.(crawlExec := Inc(l.crawlExec, month, d)), month, d);
      GateIsExactUnlessStranded(Charged(l, month, d, true, false), month);
    }
  }

  lemma LostTimeEmptiesTheBudgets(l: Ledger, month: Month, d: int)
    requires SomeQuota(l) && BalancesNonNegative(l)
    requires d > Remaining(l, month) + l.giftedAvailable + l.extraAvailable
    ensures var t := BudgetsCharged(l, month, d); t.quotas == l.quotas && NothingLeft(t, month)
  {
  }

  /** A charge never raises the recorded total, however long it is, if and only if the three budgets together
      have nothing to give. */
  lemma ChargesRecordNothingIff(l: Ledger, month: Month)
    requires SomeQuota(l) && BalancesNonNegative(l)
    ensures (forall d: nat :: Recorded(Charged(l, month, d, true, false), month) <= Recorded(l, month))
            <==> Remaining(l, month) + l.giftedAvailable + l.extraAvailable <= 0
  {
    forall d: nat
      ensures Recorded(Charged(l, month, d, true, false), month) - Recorded(l, month)
              == Min(d, Remaining(l, month) + l.giftedAvailable + l.extraAvailable)
    {
      ChargeRecordsWhatFits(l, month, d);
    }
    assert Recorded(Charged(l, month, 1, true, false), month) - Recorded(l, month)
        == Min(1, Remaining(l, month) + l.giftedAvailable + l.extraAvailable);
  }

  /** Time does get stranded: a negative gifted quota is set back to 0, which makes seconds available again
      behind it. Every quota is then right, the month is full and the gate is closed, and the next charge is
      recorded all the same. */
  lemma StrandedTimeIsReached(month: Month)
    ensures var es := [
              Update(map[GiftedExecMinutes := -5], Set),
              Update(map[GiftedExecMinutes := 0, MaxExecMinutesPerMonth := 1], Set),
              Charge(month, 60, true, false)];
            var l := Run(Created(map[]), es);
            && NonNegativeTimeQuotas(l.quotas) && SomeQuota(l) && ExecMinsQuotaReached(l, month)
            && Remaining(l, month) == 0 && l.giftedAvailable == 300 && Stranded(l, month)
            && Recorded(Charged(l, month, 60, true, false), month) == Recorded(l, month) + 60
  {
    var e1 := Update(map[GiftedExecMinutes := -5], Set);
    var e2 := Update(map[GiftedExecMinutes := 0, MaxExecMinutesPerMonth := 1], Set);
    var e3 := Charge(month, 60, true, false);
    var l1 := Step(Created(map[]), e1);
    var l2 := Step(l1, e2);
    var l3 := Step(l2, e3);
    RunOfThree(Created(map[]), e1, e2, e3);
    assert Quota(l1, GiftedExecMinutes) == -5 && l1.giftedAvailable == 0;
    assert Quota(l2, MaxExecMinutesPerMonth) == 1;
    assert Quota(l2, GiftedExecMinutes) == 0 && Quota(l2, ExtraExecMinutes) == 0;
    assert l2.giftedAvailable == 300 && l2.extraAvailable == 0 && Get(l2.monthly, month) == 0;
    ChargeRecordsWhatFits(l2, month, 60);
    ChargeFollowsTheOrder(l2, month, 60);
    assert l3.quotas == l2.quotas && Remaining(l3, month) == 0 && l3.giftedAvailable == 300 && l3.extraAvailable == 0;
    ChargeRecordsWhatFits(l3, month, 60);
  }

  lemma RunOfThree(l: Ledger, e1: Event, e2: Event, e3: Event)
    ensures Run(l, [e1, e2, e3]) == Step(Step(Step(l, e1), e2), e3)
  {
    hide Step;
    assert [e1, e2, e3][1..] == [e2, e3] && [e2, e3][1..] == [e3] && [e3][1..] == [];
    assert Run(Step(l, e1), [e2, e3]) == Run(Step(Step(l, e1), e2), [e3]);
    assert Run(Step(Step(l, e1), e2), [e3]) == Run(Step(Step(Step(l, e1), e2), e3), []);
  }

  // ------------------------------------------------------------------------------------------
  // Every reachable state
  // ------------------------------------------------------------------------------------------

  lemma BudgetsKeepMonthlyUse(l: Ledger, month: Month, d: nat, m: Month)
    requires Get(l.monthly, m) >= 0 && Quota(l, MaxExecMinutesPerMonth) >= 0
    ensures Get(BudgetsCharged(l, month, d).monthly, m) >= 0
  {
  }

  lemma ChargeKeepsInv(l: Ledger, e: Event)
    requires Inv(l) && e.Charge? && Admissible(l, e)
    ensures Inv(Step(l, e))
  {
    var l' := Step(l, e);
    var Charge(month, d, isExecTime, isQa) := e;
    if isExecTime && !isQa && SomeQuota(l) {
      ChargeRecordsWhatFits(l, month, d);
      ChargeFollowsTheOrder(l, month, d);
      forall m: Month
        ensures Get(l'.monthly, m) >= 0
        ensures Recorded(l', m) <= Get(l'.crawlExec, m)
      {
        assert Get(l.monthly, m) >= 0 && Recorded(l, m) <= Get(l.crawlExec, m);
        BudgetsKeepMonthlyUse(l.(crawlExec := Inc(l.crawlExec, month, d)), month, d, m);
      }
    } else {
      UnbudgetedCharge(l, e);
      SameBudgetsKeepsInv(l, l');
    }
  }

  /** Nothing but the counters of totals moved, and the total of execution time did not shrink. */
  ghost predicate SameBudgets(l: Ledger, l': Ledger) {
    && l'.monthly == l.monthly && l'.gifted == l.gifted && l'.extra == l.extra && l'.quotas == l.quotas
    && l'.giftedAvailable == l.giftedAvailable && l'.extraAvailable == l.extraAvailable
    && forall m: Month :: Get(l.crawlExec, m) <= Get(l'.crawlExec, m)
  }

  lemma UnbudgetedCharge(l: Ledger, e: Event)
    requires e.Charge? && Admissible(l, e) && !(e.isExecTime && !e.isQa && SomeQuota(l))
    ensures SameBudgets(l, Step(l, e))
  {
    if e.isExecTime && !e.isQa {
      assert Step(l, e) == l.(crawlExec := Inc(l.crawlExec, e.month, e.duration));
    } else {
      assert Step(l, e).crawlExec == l.crawlExec;
    }
  }

  lemma SameBudgetsKeepsInv(l: Ledger, l': Ledger)
    requires Inv(l) && SameBudgets(l, l')
    ensures Inv(l')
  {
    forall m: Month ensures Recorded(l', m) <= Get(l'.crawlExec, m) && Get(l'.monthly, m) >= 0 {
      assert Recorded(l, m) <= Get(l.crawlExec, m) && Get(l.monthly, m) >= 0;
    }
  }

  lemma UpdateKeepsInv(l: Ledger, update: Quotas, mode: Mode)
    requires Inv(l) && Admissible(l, Update(update, mode))
    ensures Inv(Updated(l, update, mode))
  {
    var l' := Updated(l, update, mode);
    forall m: Month
      ensures Get(l'.monthly, m) >= 0
      ensures Recorded(l', m) <= Get(l'.crawlExec, m)
    {
      assert Get(l.monthly, m) >= 0 && Recorded(l, m) <= Get(l.crawlExec, m);
    }
  }

  /** Adding to quotas that are not negative cannot make one negative, whatever is added. */
  lemma AddingIsAlwaysAdmissible(l: Ledger, update: Quotas)
    requires NonNegativeTimeQuotas(l.quotas)
    ensures Admissible(l, Update(update, Add))
  {
  }

  // ------------------------------------------------------------------------------------------
  // The bounds of the balances, exactly
  // ------------------------------------------------------------------------------------------

  predicate BalancesWithin(l: Ledger) {
    && WithinQuota(l.giftedAvailable, Quota(l, GiftedExecMinutes))
    && WithinQuota(l.extraAvailable, Quota(l, ExtraExecMinutes))
  }

  /** An update keeps each available balance within its quota if and only if it does not leave that quota
      negative, whatever it does to the other quotas. The update model puts no lower bound on a quota. */
  lemma UpdateKeepsBoundsIff(l: Ledger, update: Quotas, mode: Mode)
    ensures var t, quotas := Updated(l, update, mode), NewQuotas(l.quotas, update, mode);
            && (WithinQuota(l.giftedAvailable, Quota(l, GiftedExecMinutes)) ==>
                  (WithinQuota(t.giftedAvailable, Quota(t, GiftedExecMinutes))
                   <==> Get(quotas, GiftedExecMinutes) >= 0))
            && (WithinQuota(l.extraAvailable, Quota(l, ExtraExecMinutes)) ==>
                  (WithinQuota(t.extraAvailable, Quota(t, ExtraExecMinutes)) <==> Get(quotas, ExtraExecMinutes) >= 0))
  {
  }

  lemma BudgetsKeepBounds(l: Ledger, month: Month, d: int)
    requires BalancesWithin(l)
    ensures BalancesWithin(BudgetsCharged(l, month, d))
  {
    hide Inc, IncNonZero;
  }

  lemma UsageDoesNotMatter(l: Ledger, t: Ledger)
    requires BalancesWithin(l) && t.quotas == l.quotas
    requires t.giftedAvailable == l.giftedAvailable && t.extraAvailable == l.extraAvailable
    ensures BalancesWithin(t)
  {
  }

  /** A charge of any duration, even a negative one, keeps both balances within their quotas. */
  lemma ChargeKeepsBounds(l: Ledger, month: Month, d: int, isExecTime: bool, isQa: bool)
    requires BalancesWithin(l)
    ensures BalancesWithin(Charged(l, month, d, isExecTime, isQa))
  {
    hide BudgetsCharged, BalancesWithin, Inc;
    if isExecTime && !isQa {
      var counted := l.(crawlExec := Inc(l.crawlExec, month, d));
      UsageDoesNotMatter(l, counted);
      BudgetsKeepBounds(counted, month, d);
    } else {
      UsageDoesNotMatter(l, Charged(l, month, d, isExecTime, isQa));
    }
  }

  predicate AlwaysWithin(l: Ledger, es: seq<Event>)
    decreases |es|
  {
    BalancesWithin(l) && (es == [] || AlwaysWithin(Step(l, es[0]), es[1..]))
  }

  predicate LeavesExtrasNonNegative(l: Ledger, e: Event) {
    e.Update? ==>
      && Get(NewQuotas(l.quotas, e.update, e.mode), GiftedExecMinutes) >= 0
      && Get(NewQuotas(l.quotas, e.update, e.mode), ExtraExecMinutes) >= 0
  }

  predicate AlwaysNonNegative(l: Ledger, es: seq<Event>)
    decreases |es|
  {
    es == [] || (LeavesExtrasNonNegative(l, es[0]) && AlwaysNonNegative(Step(l, es[0]), es[1..]))
  }

  /** Over any run, whatever is charged: both balances stay within their quotas all along if and only if no
      update of the run leaves the gifted or the extra quota negative. */
  lemma {:induction false} BoundsHoldExactlyWhen(l: Ledger, es: seq<Event>)
    requires BalancesWithin(l)
    ensures AlwaysWithin(l, es) <==> AlwaysNonNegative(l, es)
    decreases |es|
  {
    if es != [] {
      match es[0] {
        case Charge(month, d, isExecTime, isQa) => ChargeKeepsBounds(l, month, d, isExecTime, isQa);
        case Update(update, mode) => UpdateKeepsBoundsIff(l, update, mode);
      }
      if BalancesWithin(Step(l, es[0])) {
        BoundsHoldExactlyWhen(Step(l, es[0]), es[1..]);
      }
    }
  }

  // ------------------------------------------------------------------------------------------
  // Conservation
  // ------------------------------------------------------------------------------------------

  /** Seconds ever made available in a budget that its quota does not account for. */
  ghost function GiftedSlack(l: Ledger): int {
    l.giftedAvailable + Total(l.gifted) - 60 * Quota(l, GiftedExecMinutes)
  }

  ghost function ExtraSlack(l: Ledger): int {
    l.extraAvailable + Total(l.extra) - 60 * Quota(l, ExtraExecMinutes)
  }

  /** Seconds of a quota reduction that could not be taken back because they were already used. */
  function Floored(l: Ledger, e: Event, f: QuotaField, available: int): int {
    if e.Charge? then 0
    else Max(0, 60 * (Quota(l, f) - Get(NewQuotas(l.quotas, e.update, e.mode), f)) - available)
  }

  /** Conservation, whatever the quotas and durations: no step changes the slack of a budget except a
      reduction that is floored at zero, which raises it by exactly the seconds that were floored away. */
  lemma StepMovesSlackByFloor(l: Ledger, e: Event)
    requires BalancesNonNegative(l)
    ensures GiftedSlack(Step(l, e)) == GiftedSlack(l) + Floored(l, e, GiftedExecMinutes, l.giftedAvailable)
    ensures ExtraSlack(Step(l, e)) == ExtraSlack(l) + Floored(l, e, ExtraExecMinutes, l.extraAvailable)
  {
    match e
    case Update(update, mode) => UpdateMovesSlackByFloor(l, update, mode);
    case Charge(month, d, isExecTime, isQa) => ChargeMovesNoSlack(l, month, d, isExecTime, isQa);
  }

  lemma SlackIgnoresUsage(l: Ledger, t: Ledger)
    requires t.quotas == l.quotas && t.gifted == l.gifted && t.extra == l.extra
    requires t.giftedAvailable == l.giftedAvailable && t.extraAvailable == l.extraAvailable
    ensures GiftedSlack(t) == GiftedSlack(l) && ExtraSlack(t) == ExtraSlack(l)
  {
  }

  lemma ChargeMovesNoSlack(l: Ledger, month: Month, d: int, isExecTime: bool, isQa: bool)
    ensures GiftedSlack(Charged(l, month, d, isExecTime, isQa)) == GiftedSlack(l)
    ensures ExtraSlack(Charged(l, month, d, isExecTime, isQa)) == ExtraSlack(l)
  {
    hide BudgetsCharged, GiftedSlack, ExtraSlack;
    var charged := Charged(l, month, d, isExecTime, isQa);
    if isExecTime && !isQa {
      var counted := l.(crawlExec := Inc(l.crawlExec, month, d));
      SlackIgnoresUsage(l, counted);
      BudgetsMoveNoSlack(counted, month, d);
      assert charged == BudgetsCharged(counted, month, d);
    } else {
      SlackIgnoresUsage(l, charged);
    }
  }

  lemma BudgetsMoveNoSlack(l: Ledger, month: Month, d: int)
    ensures GiftedSlack(BudgetsCharged(l, month, d)) == GiftedSlack(l)
    ensures ExtraSlack(BudgetsCharged(l, month, d)) == ExtraSlack(l)
  {
    IncNonZeroTotal(l.gifted, month, ToGifted(l, month, d));
    IncNonZeroTotal(l.extra, month, ToExtra(l, month, d));
  }

  lemma UpdateMovesSlackByFloor(l: Ledger, update: Quotas, mode: Mode)
    requires BalancesNonNegative(l)
    ensures GiftedSlack(Updated(l, update, mode))
            == GiftedSlack(l) + Floored(l, Update(update, mode), GiftedExecMinutes, l.giftedAvailable)
    ensures ExtraSlack(Updated(l, update, mode))
            == ExtraSlack(l) + Floored(l, Update(update, mode), ExtraExecMinutes, l.extraAvailable)
  {
  }

  lemma IncNonZeroTotal(m: map<Month, int>, k: Month, n: int)
    ensures Total(IncNonZero(m, k, n)) == Total(m) + n
  {
    TotalUpdate(m, k, Get(m, k) + n);
  }

  /** What every admissible run keeps: the bounds of both available balances, monthly use that is never
      negative, and in each month no more recorded time than was charged in total. */
  lemma {:induction false} RunKeepsInv(l: Ledger, es: seq<Event>)
    requires Inv(l) && AllAdmissible(l, es)
    ensures Inv(Run(l, es))
    decreases |es|
  {
    if es != [] {
      match es[0] {
        case Charge(_, _, _, _) => ChargeKeepsInv(l, es[0]);
        case Update(update, mode) => UpdateKeepsInv(l, update, mode);
      }
      RunKeepsInv(Step(l, es[0]), es[1..]);
    }
  }

  lemma NewLedgerIsRight(quotas: Quotas)
    requires NonNegativeTimeQuotas(quotas)
    ensures Inv(Created(quotas))
  {
    var l := Created(quotas);
    forall m: Month ensures Get(l.monthly, m) >= 0 && Recorded(l, m) <= Get(l.crawlExec, m) {
    }
  }

  lemma NewLedgerHasNoSlack(quotas: Quotas)
    ensures GiftedSlack(Created(quotas)) + 60 * Get(quotas, GiftedExecMinutes) == 0
    ensures ExtraSlack(Created(quotas)) + 60 * Get(quotas, ExtraExecMinutes) == 0
  {
    hide Total;
    TotalOfNone<Month>();
  }

  lemma BudgetsKeepBalances(l: Ledger, month: Month, d: int)
    requires BalancesNonNegative(l)
    ensures BalancesNonNegative(BudgetsCharged(l, month, d))
  {
    hide Inc, IncNonZero;
  }

  lemma UpdateKeepsBalances(l: Ledger, update: Quotas, mode: Mode)
    requires BalancesNonNegative(l)
    ensures BalancesNonNegative(Updated(l, update, mode))
  {
    hide NewQuotas, Announced;
  }

  lemma ChargeKeepsBalances(l: Ledger, month: Month, d: int, isExecTime: bool, isQa: bool)
    requires BalancesNonNegative(l)
    ensures BalancesNonNegative(Charged(l, month, d, isExecTime, isQa))
  {
    hide BudgetsCharged, Inc;
    if isExecTime && !isQa {
      BudgetsKeepBalances(l.(crawlExec := Inc(l.crawlExec, month, d)), month, d);
    }
  }

  lemma StepKeepsBalances(l: Ledger, e: Event)
    requires BalancesNonNegative(l)
    ensures BalancesNonNegative(Step(l, e))
  {
    hide Charged, Updated, BalancesNonNegative;
    match e
    case Update(update, mode) => UpdateKeepsBalances(l, update, mode);
    case Charge(month, d, isExecTime, isQa) => ChargeKeepsBalances(l, month, d, isExecTime, isQa);
  }

  /** Over any run at all, with negative quotas and negative durations: no balance turns negative and no slack
      falls. */
  lemma {:induction false} SlackNeverFalls(l: Ledger, es: seq<Event>)
    requires BalancesNonNegative(l)
    ensures BalancesNonNegative(Run(l, es))
    ensures GiftedSlack(l) <= GiftedSlack(Run(l, es)) && ExtraSlack(l) <= ExtraSlack(Run(l, es))
    decreases |es|
  {
    hide Step, GiftedSlack, ExtraSlack, BalancesNonNegative, Floored;
    if es != [] {
      FlooredIsNotNegative(l, es[0]);
      StepMovesSlackByFloor(l, es[0]);
      StepKeepsBalances(l, es[0]);
      SlackNeverFalls(Step(l, es[0]), es[1..]);
    }
  }

  lemma FlooredIsNotNegative(l: Ledger, e: Event)
    ensures Floored(l, e, GiftedExecMinutes, l.giftedAvailable) >= 0
    ensures Floored(l, e, ExtraExecMinutes, l.extraAvailable) >= 0
  {
  }

  /** From creation on, with any quotas and after any events: no balance is negative, the slack has not
      fallen, and with a quota set the gate means that all budgets are empty if and only if no time is
      stranded. */
  lemma EveryReachableLedger(quotas: Quotas, es: seq<Event>, month: Month)
    ensures var l := Run(Created(quotas), es);
            && BalancesNonNegative(l)
            && l.giftedAvailable + Total(l.gifted)
               >= 60 * (Quota(l, GiftedExecMinutes) - Get(quotas, GiftedExecMinutes))
            && l.extraAvailable + Total(l.extra)
               >= 60 * (Quota(l, ExtraExecMinutes) - Get(quotas, ExtraExecMinutes))
            && (SomeQuota(l) ==>
                  ((ExecMinsQuotaReached(l, month) <==> NothingLeft(l, month)) <==> !Stranded(l, month)))
  {
    hide Run, ExecMinsQuotaReached, Stranded, NothingLeft;
    NewLedgerHasNoSlack(quotas);
    SlackNeverFalls(Created(quotas), es);
    var l := Run(Created(quotas), es);
    if SomeQuota(l) {
      GateIsExactUnlessStranded(l, month);
    }
  }

  lemma NothingIsStranded(l: Ledger, month: Month)
    requires Inv(l)
    ensures !Stranded(l, month)
  {
    assert Get(l.monthly, month) >= 0;
  }

  /** Where no time quota has ever been negative, nothing more is recorded once the gate is closed. */
  lemma ClosedGateRecordsNothing(l: Ledger, month: Month, d: nat)
    requires Inv(l) && SomeQuota(l) && ExecMinsQuotaReached(l, month)
    ensures Recorded(Charged(l, month, d, true, false), month) <= Recorded(l, month)
  {
    NothingIsStranded(l, month);
    GateIsExactUnlessStranded(l, month);
    ChargeRecordsWhatFits(l, month, d);
  }

  /** As long as no time quota is ever negative: both balances stay within their quotas, recorded time within
      the total, no time is stranded, and the gate is exact. */
  lemma EveryAdmissibleLedger(quotas: Quotas, es: seq<Event>, month: Month)
    requires NonNegativeTimeQuotas(quotas) && AllAdmissible(Created(quotas), es)
    ensures var l := Run(Created(quotas), es);
            && WithinQuota(l.giftedAvailable, Quota(l, GiftedExecMinutes))
            && WithinQuota(l.extraAvailable, Quota(l, ExtraExecMinutes))
            && 0 <= Get(l.monthly, month)
            && Recorded(l, month) <= Get(l.crawlExec, month)
            && !Stranded(l, month)
            && (ExecMinsQuotaReached(l, month) <==> SomeQuota(l) && NothingLeft(l, month))
  {
    hide Run, AllAdmissible, Created;
    NewLedgerIsRight(quotas);
    RunKeepsInv(Created(quotas), es);
    var l := Run(Created(quotas), es);
    NothingIsStranded(l, month);
    if SomeQuota(l) {
      GateIsExactUnlessStranded(l, month);
    }
  }
}
