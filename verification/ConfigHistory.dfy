/** Revision history of a crawl workflow: sparse snapshots, revision numbers that also count updates
    without a snapshot, and the setup that a crawl's revision number refers to. */
module ConfigHistory {
  import opened Options

  /** The fields of a config, and the other tracked settings, that need to be told apart. The filename template and
      whether the workflow can be shared are tracked, but neither snapshots nor crawls have them. */
  datatype Key =
    | ScopeType | SeedFile | Seeds | FailOnContentCheck
    | BrowserWindows | FilenameTemplate | Shareable
    | Other(n: nat)

  /** 0 stands for false and for the empty list. */
  datatype Value = Null | Val(n: nat)

  /** The scope type "page". */
  const PAGE := Val(0)

  /** The fields of a raw config that are set. */
  type Config = map<Key, Value>

  /** The other tracked settings that are set, such as the schedule and the limits. */
  type Settings = map<Key, Value>

  /** What a crawl is started with. A proxy that is the empty string counts as none. */
  datatype Setup = Setup(config: Option<Config>, settings: Settings, profile: Option<nat>, proxy: Option<nat>)

  datatype ConfigIn = Unset | ExplicitNull | Given(config: Config)

  /** A field of an update that names a profile or a proxy: left out, null, the empty string, or an id. */
  datatype Choice = Untouched | Nulled | Cleared | Chosen(id: nat)

  /** What is found out about an update from elsewhere: whether the texts in its config are valid and its
      seed file exists, whether the config it gives, or else the stored one, is a single page, and whether
      the profile, the proxy and the collection it names are there and may be used. */
  datatype Findings = Findings(valid: bool, singlePage: bool, profile: bool, proxy: bool, collection: bool)

  datatype Update = Update(
    config: ConfigIn,
    settings: Settings,
    profile: Choice,
    proxy: Choice,
    metadataChanged: bool,
    runNow: bool,
    findings: Findings)

  datatype Revision = Revision(rev: nat, setup: Setup)

  /** history is what a crawl started at each revision number runs with; it is not stored anywhere. */
  datatype Workflow = Workflow(setup: Setup, rev: nat, revisions: seq<Revision>, history: seq<Setup>)

  datatype Outcome = Updated | Unchanged | Refused | Failed

  // ------------------------------------------------------------------------------------------
  // Specification of an update
  // ------------------------------------------------------------------------------------------

  predicate On(c: Config, k: Key) {
    k in c && c[k].Val? && c[k].n != 0
  }

  /** A given seed file forces the scope type after the change check was made. */
  predicate NamesSeedFile(c: Config) {
    SeedFile in c && c[SeedFile] != Null
  }

  /** The content check is false where a given config does not mention it. */
  predicate CheckTurnedOff(u: Update) {
    && u.config.Given?
    && (FailOnContentCheck in u.config.config ==> u.config.config[FailOnContentCheck] == Val(0))
  }

  predicate CheckRefused(s: Setup, u: Update)
    requires s.config.Some?
  {
    || (u.config.Given? && On(u.config.config, FailOnContentCheck)
        && if s.profile.Some? then u.profile == Cleared else !u.profile.Chosen?)
    || (s.profile.Some? && u.profile == Cleared && On(s.config.value, FailOnContentCheck) && !CheckTurnedOff(u))
  }

  predicate IsRefused(s: Setup, u: Update)
    requires s.config.Some?
  {
    || !u.findings.valid
    || (u.config.Given? && NamesSeedFile(u.config.config) && On(u.config.config, Seeds))
    || CheckRefused(s, u)
  }

  /** A crawl of a single page gets one browser window. */
  function SettingsOf(u: Update): Settings {
    if (u.config.Given? || On(u.settings, BrowserWindows)) && u.findings.singlePage
    then u.settings[BrowserWindows := Val(1)] else u.settings
  }

  /** A setting counts as changed only if it is not null. */
  predicate SettingChanged(settings: Settings, given: Settings, k: Key)
    requires k in given
  {
    given[k] != Null && (k !in settings || settings[k] != given[k])
  }

  predicate SettingsChanged(settings: Settings, given: Settings) {
    exists k | k in given :: SettingChanged(settings, given, k)
  }

  predicate ConfigChanged(s: Setup, u: Update) {
    u.config.Given? && s.config.Some? && s.config.value + u.config.config != s.config.value
  }

  /** A value that is chosen or cleared differs from the stored one; null and left out never do. */
  predicate ChoiceChanged(stored: Option<nat>, choice: Choice) {
    match choice
    case Cleared => stored.Some?
    case Chosen(id) => stored != Some(id)
    case _ => false
  }

  /** The profile is cleared, or there is none and none is given. Only then the proxy counts. */
  predicate NoProfile(s: Setup, u: Update) {
    u.profile == Cleared || (!u.profile.Chosen? && s.profile.None?)
  }

  predicate Changed(s: Setup, u: Update) {
    || ConfigChanged(s, u)
    || SettingsChanged(s.settings, SettingsOf(u))
    || ChoiceChanged(s.profile, u.profile)
    || (NoProfile(s, u) && ChoiceChanged(s.proxy, u.proxy))
  }

  predicate HasEffect(s: Setup, u: Update) {
    Changed(s, u) || u.metadataChanged || u.runNow
  }

  /** Something the update names is not there, which is found out after the snapshot was taken. */
  predicate NotFound(s: Setup, u: Update) {
    || (u.profile.Chosen? && !u.findings.profile)
    || (NoProfile(s, u) && u.proxy.Chosen? && !u.findings.proxy)
    || !u.findings.collection
  }

  function AfterChoice(stored: Option<nat>, choice: Choice): Option<nat> {
    match choice
    case Untouched => stored
    case Chosen(id) => Some(id)
    case _ => None
  }

  function StoredConfig(c: Config, given: ConfigIn): Option<Config> {
    match given
    case Unset => Some(c)
    case ExplicitNull => None
    case Given(g) => Some(if NamesSeedFile(g) then (c + g)[ScopeType := PAGE] else c + g)
  }

  function NewSetup(s: Setup, u: Update): Setup
    requires s.config.Some?
  {
    Setup(
      StoredConfig(s.config.value, u.config),
      s.settings + SettingsOf(u),
      AfterChoice(s.profile, u.profile),
      AfterChoice(s.proxy, u.proxy))
  }

  /** A document with a null config or a null number of browser windows cannot be read any more. */
  predicate Readable(s: Setup) {
    s.config.Some? && (BrowserWindows in s.settings ==> s.settings[BrowserWindows] != Null)
  }

  /** The update gets past the checks and does something. */
  predicate Proceeds(s: Setup, u: Update) {
    Readable(s) && !IsRefused(s, u) && HasEffect(s, u)
  }

  predicate TakesSnapshot(s: Setup, u: Update) {
    Proceeds(s, u) && Changed(s, u)
  }

  predicate Stores(s: Setup, u: Update) {
    Proceeds(s, u) && !NotFound(s, u)
  }

  function OutcomeOf(s: Setup, u: Update): Outcome {
    if !Readable(s) then Failed
    else if IsRefused(s, u) then Refused
    else if !HasEffect(s, u) then Unchanged
    else if NotFound(s, u) then Refused
    else if Readable(NewSetup(s, u)) then Updated
    else Failed
  }

  function WithoutNulls(c: Config): Config {
    map k | k in c && c[k] != Null :: c[k]
  }

  function InSnapshot(settings: Settings): Settings {
    map k | k in settings && settings[k] != Null && k != FilenameTemplate && k != Shareable :: settings[k]
  }

  /** A snapshot is stored without what is null. */
  function Snapshot(s: Setup): Setup {
    var config := if s.config.Some? then Some(WithoutNulls(s.config.value)) else None;
    s.(config := config, settings := InSnapshot(s.settings))
  }

  function After(w: Workflow, u: Update): Workflow {
    var revisions :=
      if TakesSnapshot(w.setup, u) then w.revisions + [Revision(w.rev, Snapshot(w.setup))] else w.revisions;
    if !Stores(w.setup, u) then w.(revisions := revisions)
    else Workflow(NewSetup(w.setup, u), w.rev + 1, revisions, w.history + [NewSetup(w.setup, u)])
  }

  // ------------------------------------------------------------------------------------------
  // The workflow document
  // ------------------------------------------------------------------------------------------

  class CrawlConfig {
    var config: Option<Config>
    var settings: Settings
    var profile: Option<nat>
    var proxy: Option<nat>
    var rev: nat
    var revisions: seq<Revision>
    ghost var history: seq<Setup>

    function Current(): Setup
      reads this
    {
      Setup(config, settings, profile, proxy)
    }

    ghost function View(): Workflow
      reads this
    {
      Workflow(Current(), rev, revisions, history)
    }

    /** A new workflow; with a seed file its scope type is "page" from the start, and with a profile it has
        no proxy of its own. */
    constructor (config: Config, settings: Settings, profile: Option<nat>, proxy: Option<nat>)
      ensures View() == Created(config, settings, profile, proxy)
    {
      var stored := if NamesSeedFile(config) then config[ScopeType := PAGE] else config;
      var ownProxy := if profile.Some? then None else proxy;
      this.config, this.settings, this.profile, this.proxy := Some(stored), settings, profile, ownProxy;
      rev, revisions, history := 0, [], [Setup(Some(stored), settings, profile, ownProxy)];
    }

    method UpdateCrawlConfig(u: Update) returns (outcome: Outcome)
      modifies this
      ensures outcome == OutcomeOf(old(Current()), u) && View() == After(old(View()), u)
    {
      hide IsRefused, Changed, NotFound, NewSetup, Snapshot, On;
      if !Readable(Current()) {
        return Failed;
      }
      var refused := CheckInputs(u);
      if refused {
        return Refused;
      }
      var given := SinglePageWindows(u);
      var changed := CheckChanges(u, given);
      if !changed && !u.metadataChanged && !u.runNow {
        return Unchanged;
      }
      if changed {
        revisions := revisions + [Revision(rev, Snapshot(Current()))];
      }
      var missing := LookUp(u);
      if missing {
        return Refused;
      }
      Store(u, given);
      return if Readable(Current()) then Updated else Failed;
    }

    method SinglePageWindows(u: Update) returns (given: Settings)
      ensures given == SettingsOf(u)
    {
      given := u.settings;
      if (u.config.Given? || On(given, BrowserWindows)) && u.findings.singlePage {
        given := given[BrowserWindows := Val(1)];
      }
    }

    /** Seeds and a seed file exclude each other, and the content check needs a profile. */
    method CheckInputs(u: Update) returns (refused: bool)
      requires config.Some?
      ensures refused <==> IsRefused(Current(), u)
    {
      if !u.findings.valid {
        return true;
      }
      if u.config.Given? {
        var c := u.config.config;
        if NamesSeedFile(c) && On(c, Seeds) {
          return true;
        }
        var withoutProfile := (profile.Some? && u.profile == Cleared) || (profile.None? && !u.profile.Chosen?);
        if On(c, FailOnContentCheck) && withoutProfile {
          return true;
        }
      }
      if profile.Some? && u.profile == Cleared && On(config.value, FailOnContentCheck) {
        return !CheckTurnedOff(u);
      }
      return false;
    }

    method CheckChanges(u: Update, given: Settings) returns (changed: bool)
      requires config.Some? && given == SettingsOf(u)
      ensures changed <==> Changed(Current(), u)
    {
      var merged := if u.config.Given? then config.value + u.config.config else config.value;
      changed := CheckSettings(settings, given);
      changed := changed || merged != config.value || ChoiceChanged(profile, u.profile);
      var noProfile := u.profile == Cleared || (!u.profile.Chosen? && profile.None?);
      changed := changed || (noProfile && ChoiceChanged(proxy, u.proxy));
    }

    method LookUp(u: Update) returns (missing: bool)
      ensures missing <==> NotFound(Current(), u)
    {
      if u.profile.Chosen? && !u.findings.profile {
        return true;
      }
      var noProfile := u.profile == Cleared || (!u.profile.Chosen? && profile.None?);
      if noProfile && u.proxy.Chosen? && !u.findings.proxy {
        return true;
      }
      return !u.findings.collection;
    }

    method Store(u: Update, given: Settings)
      requires config.Some? && given == SettingsOf(u)
      modifies this
      ensures Current() == NewSetup(old(Current()), u) && rev == old(rev) + 1
      ensures revisions == old(revisions) && history == old(history) + [Current()]
    {
      hide SettingsOf, NamesSeedFile;
      if u.config.ExplicitNull? {
        config := None;
      } else if u.config.Given? {
        config := Some(config.value + u.config.config);
        if NamesSeedFile(u.config.config) {
          config := Some(config.value[ScopeType := PAGE]);
        }
      }
      settings := settings + given;
      if !u.profile.Untouched? {
        profile := if u.profile.Chosen? then Some(u.profile.id) else None;
      }
      if !u.proxy.Untouched? {
        proxy := if u.proxy.Chosen? then Some(u.proxy.id) else None;
      }
      rev := rev + 1;
      history := history + [Current()];
    }
  }

  method CheckSettings(stored: Settings, given: Settings) returns (changed: bool)
    ensures changed <==> SettingsChanged(stored, given)
  {
    changed := false;
    var todo := given.Keys;
    while todo != {}
      invariant todo <= given.Keys
      invariant changed <==> exists k | k in given && k !in todo :: SettingChanged(stored, given, k)
      decreases todo
    {
      var k :| k in todo;
      todo := todo - {k};
      changed := changed || SettingChanged(stored, given, k);
    }
  }

  // ------------------------------------------------------------------------------------------
  // What an update comes to, read off what it gives and what is stored
  // ------------------------------------------------------------------------------------------

  /** What may not be stored: a config with invalid texts, a seed file next to seeds, the content check without a
      profile to come, and a profile that goes while the check stays on. */
  ghost predicate Forbidden(s: Setup, u: Update)
    requires s.config.Some?
  {
    var c, g := s.config.value, if u.config.Given? then u.config.config else map[];
    || !u.findings.valid
    || (SeedFile in g && g[SeedFile].Val? && Seeds in g && g[Seeds].Val? && g[Seeds].n > 0)
    || (FailOnContentCheck in g && g[FailOnContentCheck].Val? && g[FailOnContentCheck].n > 0
        && (u.profile.Cleared? || (s.profile == None && !u.profile.Chosen?)))
    || (u.profile.Cleared? && s.profile != None
        && FailOnContentCheck in c && c[FailOnContentCheck].Val? && c[FailOnContentCheck].n > 0
        && (u.config.Given? ==> FailOnContentCheck in g && g[FailOnContentCheck] != Val(0)))
  }

  /** The number of browser windows that is given: one for a single page, if a config or a number is given. */
  ghost function WindowsGiven(u: Update): Option<Value> {
    var number := if BrowserWindows in u.settings then Some(u.settings[BrowserWindows]) else None;
    if !u.findings.singlePage then number
    else if u.config.Given? then Some(Val(1))
    else if number != None && number != Some(Null) && number != Some(Val(0)) then Some(Val(1))
    else number
  }

  /** A value that is given, is not null and differs from the stored one. */
  ghost predicate SomeNewValue(stored: map<Key, Value>, given: map<Key, Value>, nullsToo: bool, but: set<Key>) {
    exists k | k in given && k !in but && (nullsToo || given[k].Val?) :: k !in stored || stored[k] != given[k]
  }

  /** No profile from now on, as far as the update says. */
  ghost predicate WithoutProfile(s: Setup, u: Update) {
    match u.profile
    case Cleared => true
    case Chosen(_) => false
    case _ => s.profile == None
  }

  ghost predicate AsksForOther(stored: Option<nat>, choice: Choice) {
    (choice.Chosen? && stored != Some(choice.id)) || (choice.Cleared? && stored != None)
  }

  /** Something that is tracked is given and differs from what is stored. Nulls count in a config only, and a proxy
      counts only without a profile. */
  ghost predicate AsksForChange(s: Setup, u: Update)
    requires s.config.Some?
  {
    || (u.config.Given? && SomeNewValue(s.config.value, u.config.config, true, {}))
    || SomeNewValue(s.settings, u.settings, false, {BrowserWindows})
    || (exists n :: WindowsGiven(u) == Some(Val(n))
                    && !(BrowserWindows in s.settings && s.settings[BrowserWindows] == Val(n)))
    || AsksForOther(s.profile, u.profile)
    || (WithoutProfile(s, u) && AsksForOther(s.proxy, u.proxy))
  }

  ghost predicate NamesWhatIsMissing(s: Setup, u: Update) {
    || (u.profile.Chosen? && !u.findings.profile)
    || (u.proxy.Chosen? && WithoutProfile(s, u) && !u.findings.proxy)
    || !u.findings.collection
  }

  lemma ForbiddenIsRefused(s: Setup, u: Update)
    requires s.config.Some?
    ensures IsRefused(s, u) <==> Forbidden(s, u)
  {
  }

  lemma WindowsAreGiven(u: Update)
    ensures var given := SettingsOf(u);
            && given.Keys == u.settings.Keys + (if WindowsGiven(u).Some? then {BrowserWindows} else {})
            && (BrowserWindows in given <==> WindowsGiven(u).Some?)
            && (WindowsGiven(u).Some? ==> given[BrowserWindows] == WindowsGiven(u).value)
            && forall k | k in u.settings && k != BrowserWindows :: given[k] == u.settings[k]
  {
  }

  lemma SettingsChangedIff(s: Setup, u: Update)
    ensures SettingsChanged(s.settings, SettingsOf(u)) <==>
            || SomeNewValue(s.settings, u.settings, false, {BrowserWindows})
            || (exists n :: WindowsGiven(u) == Some(Val(n))
                            && !(BrowserWindows in s.settings && s.settings[BrowserWindows] == Val(n)))
  {
    var given := SettingsOf(u);
    WindowsAreGiven(u);
    hide SettingsOf, WindowsGiven;
    if k :| k in u.settings && k != BrowserWindows && u.settings[k].Val?
            && (k !in s.settings || s.settings[k] != u.settings[k]) {
      assert SettingChanged(s.settings, given, k);
    }
    if n :| WindowsGiven(u) == Some(Val(n))
            && !(BrowserWindows in s.settings && s.settings[BrowserWindows] == Val(n)) {
      assert SettingChanged(s.settings, given, BrowserWindows);
    }
    if k :| k in given && SettingChanged(s.settings, given, k) {
      if k == BrowserWindows {
        assert WindowsGiven(u) == Some(Val(given[k].n));
      } else {
        assert u.settings[k] == given[k];
      }
    }
  }

  lemma ConfigChangedIff(s: Setup, u: Update)
    requires s.config.Some?
    ensures ConfigChanged(s, u) <==> u.config.Given? && SomeNewValue(s.config.value, u.config.config, true, {})
  {
    if u.config.Given? {
      var c, g := s.config.value, u.config.config;
      if k :| k in g && (k !in c || c[k] != g[k]) {
        assert (c + g)[k] == g[k];
      } else {
        assert c + g == c;
      }
    }
  }

  lemma ChangedIffAskedFor(s: Setup, u: Update)
    requires s.config.Some?
    ensures Changed(s, u) <==> AsksForChange(s, u)
  {
    hide ConfigChanged, SettingsChanged, SettingsOf, SomeNewValue, WindowsGiven;
    ConfigChangedIff(s, u);
    SettingsChangedIff(s, u);
  }

  /** The answer, and whether and how the workflow changes. An update that is not refused is stored, and counts up the
      revision, if and only if metadata changed, a start is asked for or a change is; and in exactly the other
      cases the answer is that nothing changed. */
  lemma WhatComesOfAnUpdate(w: Workflow, u: Update)
    requires w.setup.config.Some? && (BrowserWindows in w.setup.settings ==> w.setup.settings[BrowserWindows].Val?)
    ensures var s, t, outcome := w.setup, After(w, u), OutcomeOf(w.setup, u);
            var effect := u.metadataChanged || u.runNow || AsksForChange(s, u);
            && (outcome == Unchanged <==> !Forbidden(s, u) && !effect)
            && (outcome == Refused <==> Forbidden(s, u) || (effect && NamesWhatIsMissing(s, u)))
            && (t.rev == w.rev + 1 <==> !Forbidden(s, u) && effect && !NamesWhatIsMissing(s, u))
            && (t.rev == w.rev ==> t == w.(revisions := t.revisions))
            && (t.rev == w.rev || (t.rev == w.rev + 1 && t.history == w.history + [t.setup]))
            && |t.revisions| == |w.revisions| + (if !Forbidden(s, u) && AsksForChange(s, u) then 1 else 0)
            && t.revisions[..|w.revisions|] == w.revisions
  {
    hide IsRefused, Forbidden, Changed, AsksForChange, NewSetup, Snapshot;
    ForbiddenIsRefused(w.setup, u);
    ChangedIffAskedFor(w.setup, u);
  }

  /** A document that cannot be read is never updated again. */
  lemma UnreadableStays(w: Workflow, u: Update)
    requires w.setup.config == None
             || (BrowserWindows in w.setup.settings && w.setup.settings[BrowserWindows] == Null)
    ensures After(w, u) == w && OutcomeOf(w.setup, u) == Failed
  {
  }

  /** An update of nothing but metadata keeps setup and snapshots; only the number and the history grow. */
  lemma MetadataOnlyCountsUp(w: Workflow, u: Update)
    requires w.setup.config.Some? && (BrowserWindows in w.setup.settings ==> w.setup.settings[BrowserWindows].Val?)
    requires u.metadataChanged && u.config.Unset? && u.settings == map[] && u.profile.Untouched? && u.proxy.Untouched?
    requires u.findings.valid && u.findings.collection
    ensures OutcomeOf(w.setup, u) == Updated
    ensures After(w, u) == w.(rev := w.rev + 1, history := w.history + [w.setup])
  {
    assert w.setup.settings + u.settings == w.setup.settings;
    assert !SettingsChanged(w.setup.settings, u.settings);
  }

  /** What is stored, field by field: given values replace stored ones, a seed file brings the scope type "page", and
      a profile or a proxy is gone when it is cleared or null. */
  lemma WhatIsStored(w: Workflow, u: Update)
    requires w.setup.config.Some? && After(w, u).rev == w.rev + 1
    ensures var s, t := w.setup, After(w, u).setup;
            && (u.config.Unset? ==> t.config == s.config)
            && (u.config.ExplicitNull? ==> t.config == None)
            && (u.config.Given? ==> t.config.Some? && forall k ::
                  if k == ScopeType && SeedFile in u.config.config && u.config.config[SeedFile].Val?
                  then k in t.config.value && t.config.value[k] == Val(0)
                  else if k in u.config.config then k in t.config.value && t.config.value[k] == u.config.config[k]
                  else if k in s.config.value then k in t.config.value && t.config.value[k] == s.config.value[k]
                  else k !in t.config.value)
            && (forall k | k != BrowserWindows ::
                  if k in u.settings then k in t.settings && t.settings[k] == u.settings[k]
                  else if k in s.settings then k in t.settings && t.settings[k] == s.settings[k]
                  else k !in t.settings)
            && (if WindowsGiven(u).Some?
                then BrowserWindows in t.settings && t.settings[BrowserWindows] == WindowsGiven(u).value
                else if BrowserWindows in s.settings
                then BrowserWindows in t.settings && t.settings[BrowserWindows] == s.settings[BrowserWindows]
                else BrowserWindows !in t.settings)
            && (t.profile == if u.profile.Untouched? then s.profile
                             else if u.profile.Chosen? then Some(u.profile.id) else None)
            && (t.proxy == if u.proxy.Untouched? then s.proxy
                           else if u.proxy.Chosen? then Some(u.proxy.id) else None)
            && (OutcomeOf(s, u) == Updated <==>
                  t.config.Some? && (BrowserWindows in t.settings ==> t.settings[BrowserWindows].Val?))
  {
    hide IsRefused, HasEffect, NotFound, Snapshot;
    StoresIffNumberMoves(w, u);
    StoredFields(w.setup, u);
    hide NewSetup;
  }

  lemma StoresIffNumberMoves(w: Workflow, u: Update)
    ensures Stores(w.setup, u) <==> After(w, u).rev == w.rev + 1
    ensures Stores(w.setup, u) ==> After(w, u).setup == NewSetup(w.setup, u)
  {
  }

  lemma StoredFields(s: Setup, u: Update)
    requires s.config.Some?
    ensures var t := NewSetup(s, u);
            && (u.config.Given? ==> t.config.Some? && forall k ::
                  if k == ScopeType && SeedFile in u.config.config && u.config.config[SeedFile].Val?
                  then k in t.config.value && t.config.value[k] == Val(0)
                  else if k in u.config.config then k in t.config.value && t.config.value[k] == u.config.config[k]
                  else if k in s.config.value then k in t.config.value && t.config.value[k] == s.config.value[k]
                  else k !in t.config.value)
            && (forall k | k != BrowserWindows ::
                  if k in u.settings then k in t.settings && t.settings[k] == u.settings[k]
                  else if k in s.settings then k in t.settings && t.settings[k] == s.settings[k]
                  else k !in t.settings)
            && (if WindowsGiven(u).Some?
                then BrowserWindows in t.settings && t.settings[BrowserWindows] == WindowsGiven(u).value
                else if BrowserWindows in s.settings
                then BrowserWindows in t.settings && t.settings[BrowserWindows] == s.settings[BrowserWindows]
                else BrowserWindows !in t.settings)
  {
    WindowsAreGiven(u);
    hide SettingsOf, WindowsGiven;
  }

  /** What the snapshot that a change takes says: everything that is stored and not null, under the number before,
      but for the filename template and whether the workflow can be shared. */
  lemma WhatASnapshotSays(w: Workflow, u: Update)
    requires w.setup.config.Some? && |After(w, u).revisions| > |w.revisions|
    ensures var s, added := w.setup, After(w, u).revisions[|w.revisions|];
            && added.rev == w.rev && added.setup.config.Some?
            && added.setup.profile == s.profile && added.setup.proxy == s.proxy
            && (forall k :: k in added.setup.config.value <==> k in s.config.value && s.config.value[k].Val?)
            && (forall k | k in added.setup.config.value :: added.setup.config.value[k] == s.config.value[k])
            && (forall k :: k in added.setup.settings <==>
                  k in s.settings && s.settings[k].Val? && k != FilenameTemplate && k != Shareable)
            && (forall k | k in added.setup.settings :: added.setup.settings[k] == s.settings[k])
  {
    hide Proceeds, Changed, NotFound, NewSetup;
  }

  /** A new workflow has what it was created with, but with a seed file the scope type is "page", and with a profile
      there is no proxy. */
  lemma WhatIsCreated(config: Config, settings: Settings, profile: Option<nat>, proxy: Option<nat>)
    ensures var w := Created(config, settings, profile, proxy);
            && w.rev == 0 && w.revisions == [] && w.history == [w.setup]
            && w.setup.settings == settings && w.setup.profile == profile
            && (profile == None ==> w.setup.proxy == proxy) && (profile != None ==> w.setup.proxy == None)
            && w.setup.config.Some?
            && (SeedFile in config && config[SeedFile].Val? ==>
                  w.setup.config.value == config[ScopeType := Val(0)])
            && (SeedFile !in config || config[SeedFile] == Null ==> w.setup.config.value == config)
  {
  }

  // ------------------------------------------------------------------------------------------
  // What a revision number refers to
  // ------------------------------------------------------------------------------------------

  function Created(config: Config, settings: Settings, profile: Option<nat>, proxy: Option<nat>): Workflow {
    var stored := if NamesSeedFile(config) then config[ScopeType := PAGE] else config;
    var setup := Setup(Some(stored), settings, profile, if profile.Some? then None else proxy);
    Workflow(setup, 0, [], [setup])
  }

  /** Equal up to what snapshots do not keep. */
  predicate Same(a: Setup, b: Setup) {
    Snapshot(a) == Snapshot(b)
  }

  lemma SnapshotTwice(s: Setup)
    ensures Same(Snapshot(s), s)
  {
    if s.config.Some? {
      assert WithoutNulls(WithoutNulls(s.config.value)) == WithoutNulls(s.config.value);
    }
    assert InSnapshot(InSnapshot(s.settings)) == InSnapshot(s.settings);
  }

  /** A snapshot with the least revision number that is at least r. */
  ghost predicate FirstFrom(revisions: seq<Revision>, r: nat, i: nat) {
    && i < |revisions| && revisions[i].rev >= r
    && forall j | 0 <= j < |revisions| && revisions[j].rev >= r :: revisions[i].rev <= revisions[j].rev
  }

  ghost predicate NoneFrom(revisions: seq<Revision>, r: nat) {
    forall i | 0 <= i < |revisions| :: revisions[i].rev < r
  }

  /** What a crawl with revision number r ran with can be read off: it is in the first snapshot from r on,
      whichever that is if there are several, or, if there is none, it is the current setup. */
  ghost predicate Recoverable(w: Workflow, r: nat)
    requires r < |w.history|
  {
    && (forall i: nat | FirstFrom(w.revisions, r, i) :: Same(w.revisions[i].setup, w.history[r]))
    && (NoneFrom(w.revisions, r) ==> Same(w.setup, w.history[r]))
  }

  ghost predicate Tracked(w: Workflow) {
    && |w.history| == w.rev + 1 && w.history[w.rev] == w.setup
    && (forall i | 0 <= i < |w.revisions| :: w.revisions[i].rev <= w.rev)
  }

  ghost predicate AllRecoverable(w: Workflow) {
    Tracked(w) && forall r: nat | r < |w.history| :: Recoverable(w, r)
  }

  /** A snapshot that an update left before it was refused. */
  ghost predicate HasSnapshot(w: Workflow) {
    exists i | 0 <= i < |w.revisions| :: w.revisions[i].rev == w.rev
  }

  /** A null that replaces a setting. */
  predicate NullsSetting(settings: Settings, given: Settings) {
    exists k | k in given && k in InSnapshot(settings) :: given[k] == Null
  }

  /** The ways in which an update changes the setup unseen by the change check: a null config, a repeated
      seed file where the scope type is not "page", a null setting, a null profile, a null proxy, and any
      proxy that is given while the profile stays. */
  predicate MovesUnseen(s: Setup, u: Update)
    requires s.config.Some?
  {
    || u.config.ExplicitNull?
    || (u.config.Given? && NamesSeedFile(u.config.config)
        && (ScopeType !in s.config.value || s.config.value[ScopeType] != PAGE))
    || NullsSetting(s.settings, SettingsOf(u))
    || (u.profile == Nulled && s.profile.Some?)
    || (u.proxy == Nulled && s.proxy.Some?)
    || (!NoProfile(s, u) && ChoiceChanged(s.proxy, u.proxy))
  }

  /** An update that changes the setup without a snapshot. */
  ghost predicate Silent(w: Workflow, u: Update) {
    && Stores(w.setup, u) && !Changed(w.setup, u)
    && MovesUnseen(w.setup, u) && !HasSnapshot(w)
  }

  lemma SameConfigIff(c: Config, given: ConfigIn)
    requires given.Given? ==> c + given.config == c
    ensures StoredConfig(c, given).Some? && WithoutNulls(StoredConfig(c, given).value) == WithoutNulls(c)
            <==> !(|| given.ExplicitNull?
                   || (given.Given? && NamesSeedFile(given.config) && (ScopeType !in c || c[ScopeType] != PAGE)))
  {
    if given.Given? && NamesSeedFile(given.config) {
      var c' := c[ScopeType := PAGE];
      if ScopeType in c && c[ScopeType] == PAGE {
        assert c' == c;
      } else {
        assert ScopeType in WithoutNulls(c') && WithoutNulls(c')[ScopeType] == PAGE;
      }
    }
  }

  lemma SameSettingsIff(settings: Settings, given: Settings)
    requires !SettingsChanged(settings, given)
    ensures InSnapshot(settings + given) == InSnapshot(settings) <==> !NullsSetting(settings, given)
  {
    assert forall k | k in given :: !SettingChanged(settings, given, k);
    if NullsSetting(settings, given) {
      var k :| k in given && k in InSnapshot(settings) && given[k] == Null;
      assert k !in InSnapshot(settings + given);
    } else {
      assert forall k :: k in InSnapshot(settings + given) <==> k in InSnapshot(settings);
    }
  }

  /** Without a snapshot, an update that is stored leaves the setup as it was if and only if it changes
      nothing in one of the unseen ways. */
  lemma SetupWithoutSnapshot(s: Setup, u: Update)
    requires Stores(s, u) && !Changed(s, u)
    ensures Same(NewSetup(s, u), s) <==> !MovesUnseen(s, u)
  {
    hide WithoutNulls, InSnapshot, SettingsChanged, NullsSetting, SettingsOf, NamesSeedFile, IsRefused, NotFound;
    SameConfigIff(s.config.value, u.config);
    SameSettingsIff(s.settings, SettingsOf(u));
  }

  lemma UpdateKeepsTracked(w: Workflow, u: Update)
    requires Tracked(w)
    ensures Tracked(After(w, u))
  {
  }

  /** A snapshot of the current setup keeps recoverable what was. */
  lemma SnapshotAdded(w: Workflow, r: nat)
    requires AllRecoverable(w) && r < |w.history|
    ensures var revisions := w.revisions + [Revision(w.rev, Snapshot(w.setup))];
            && !NoneFrom(revisions, r)
            && forall i: nat | FirstFrom(revisions, r, i) :: Same(revisions[i].setup, w.history[r])
  {
    hide Same, Snapshot;
    var last := |w.revisions|;
    var revisions := w.revisions + [Revision(w.rev, Snapshot(w.setup))];
    assert revisions[last].rev == w.rev && forall j | 0 <= j < last :: revisions[j] == w.revisions[j];
    assert Recoverable(w, r) && Recoverable(w, w.rev);
    forall i: nat | FirstFrom(revisions, r, i) ensures Same(revisions[i].setup, w.history[r]) {
      if i < last {
        assert FirstFrom(w.revisions, r, i);
      } else {
        LastIsFirst(w, r);
      }
    }
  }

  /** If nothing before a snapshot of the current setup is earlier from r on, r refers to the current setup. */
  lemma LastIsFirst(w: Workflow, r: nat)
    requires Tracked(w) && r < |w.history| && Recoverable(w, r) && Recoverable(w, w.rev)
    requires forall j | 0 <= j < |w.revisions| && w.revisions[j].rev >= r :: w.revisions[j].rev == w.rev
    ensures Same(Snapshot(w.setup), w.history[r])
  {
    SnapshotTwice(w.setup);
    hide Snapshot;
    if !NoneFrom(w.revisions, r) {
      var j :| 0 <= j < |w.revisions| && w.revisions[j].rev >= r;
      assert FirstFrom(w.revisions, r, j) && FirstFrom(w.revisions, w.rev, j);
    }
  }

  lemma CurrentIsRecoverable(w: Workflow)
    requires Tracked(w) && forall i | 0 <= i < |w.revisions| :: w.revisions[i].rev < w.rev
    ensures Recoverable(w, w.rev)
  {
  }

  lemma SnapshotKeepsRecoverable(w: Workflow, u: Update)
    requires AllRecoverable(w) && TakesSnapshot(w.setup, u)
    ensures AllRecoverable(After(w, u))
  {
    hide TakesSnapshot, Stores, NewSetup, Snapshot, Same, FirstFrom, NoneFrom;
    var t := After(w, u);
    UpdateKeepsTracked(w, u);
    forall r: nat | r < |t.history| ensures Recoverable(t, r) {
      if r < |w.history| {
        SnapshotAdded(w, r);
        assert t.history[r] == w.history[r];
      } else {
        CurrentIsRecoverable(t);
      }
    }
  }

  lemma NoSnapshotKeepsRecoverable(w: Workflow, u: Update)
    requires AllRecoverable(w) && Stores(w.setup, u) && !Changed(w.setup, u) && !Silent(w, u)
    ensures AllRecoverable(After(w, u))
  {
    SetupWithoutSnapshot(w.setup, u);
    hide Stores, Changed, NewSetup, MovesUnseen, Snapshot, FirstFrom;
    var t := After(w, u);
    UpdateKeepsTracked(w, u);
    forall r: nat | r < |t.history| ensures Recoverable(t, r) {
      if r < |w.history| {
        assert Recoverable(w, r) && t.history[r] == w.history[r];
      } else {
        assert forall i | 0 <= i < |t.revisions| :: t.revisions[i] == w.revisions[i];
        CurrentIsRecoverable(t);
      }
    }
  }

  lemma SilentLoses(w: Workflow, u: Update)
    requires AllRecoverable(w) && Silent(w, u)
    ensures !Recoverable(After(w, u), w.rev)
  {
    SetupWithoutSnapshot(w.setup, u);
    hide Stores, Changed, NewSetup, MovesUnseen, Snapshot, FirstFrom;
    var t := After(w, u);
    assert NoneFrom(t.revisions, w.rev);
    assert t.history[w.rev] == w.setup;
  }

  /** An update keeps every past setup recoverable if and only if it is not silent. Updates that are
      refused after their snapshot was taken do no harm, and neither do those that only touch metadata. */
  lemma UpdateKeepsRecoverableIff(w: Workflow, u: Update)
    requires AllRecoverable(w)
    ensures AllRecoverable(After(w, u)) <==> !Silent(w, u)
  {
    hide Proceeds, Changed, MovesUnseen, Recoverable, NewSetup, Snapshot;
    if Silent(w, u) {
      SilentLoses(w, u);
    } else if TakesSnapshot(w.setup, u) {
      SnapshotKeepsRecoverable(w, u);
    } else if Stores(w.setup, u) {
      NoSnapshotKeepsRecoverable(w, u);
    }
  }

  ghost predicate NeverSilent(w: Workflow, us: seq<Update>)
    decreases |us|
  {
    us == [] || (!Silent(w, us[0]) && NeverSilent(After(w, us[0]), us[1..]))
  }

  ghost predicate AlwaysRecoverable(w: Workflow, us: seq<Update>)
    decreases |us|
  {
    AllRecoverable(w) && (us == [] || AlwaysRecoverable(After(w, us[0]), us[1..]))
  }

  /** Over any run of updates: the setup of every crawl ever started is the one in a first snapshot from its
      revision number on, or the current one, all along, if and only if no update is silent. */
  lemma {:induction false} RecoverableAllAlongIff(w: Workflow, us: seq<Update>)
    requires AllRecoverable(w)
    ensures AlwaysRecoverable(w, us) <==> NeverSilent(w, us)
    decreases |us|
  {
    if us != [] {
      hide AllRecoverable, Silent, After;
      UpdateKeepsRecoverableIff(w, us[0]);
      if AllRecoverable(After(w, us[0])) {
        RecoverableAllAlongIff(After(w, us[0]), us[1..]);
      } else {
        NotRecoverableNow(After(w, us[0]), us[1..]);
      }
    }
  }

  lemma NotRecoverableNow(w: Workflow, us: seq<Update>)
    requires !AllRecoverable(w)
    ensures !AlwaysRecoverable(w, us)
  {
  }

  lemma CreatedIsRecoverable(config: Config, settings: Settings, profile: Option<nat>, proxy: Option<nat>)
    ensures AllRecoverable(Created(config, settings, profile, proxy))
  {
    CurrentIsRecoverable(Created(config, settings, profile, proxy));
  }

  ghost predicate OnePerNumber(revisions: seq<Revision>) {
    forall i, j | 0 <= i < j < |revisions| :: revisions[i].rev != revisions[j].rev
  }

  /** A second snapshot with the same number is taken exactly by an update with a change after one that was
      refused when its snapshot was already there. */
  lemma OneSnapshotPerNumberIff(w: Workflow, u: Update)
    requires OnePerNumber(w.revisions)
    ensures OnePerNumber(After(w, u).revisions) <==> !(TakesSnapshot(w.setup, u) && HasSnapshot(w))
  {
    hide TakesSnapshot, Stores, NewSetup, Snapshot;
    var t := After(w, u);
    if TakesSnapshot(w.setup, u) {
      var last := |w.revisions|;
      assert t.revisions[last].rev == w.rev && forall j | 0 <= j < last :: t.revisions[j] == w.revisions[j];
    }
  }

  /** An update that finds everything it names, and that gives no settings, profile or proxy. */
  function OfConfig(config: ConfigIn, runNow: bool): Update {
    Update(config, map[], Untouched, Untouched, false, runNow, Findings(true, false, true, true, true))
  }

  lemma OfConfigIsStoredIff(s: Setup, config: ConfigIn, runNow: bool)
    requires Readable(s) && config.Given? && !On(config.config, Seeds) && !On(config.config, FailOnContentCheck)
    ensures var u := OfConfig(config, runNow);
            Changed(s, u) == ConfigChanged(s, u) && Stores(s, u) == (runNow || ConfigChanged(s, u))
  {
    assert !SettingsChanged(s.settings, map[]);
  }

  /** Silent updates do not need nulls: change the scope type of a workflow with a seed file, then send the
      same seed file again and start a crawl. */
  lemma RepeatingTheSeedFileIsSilent(
      settings: Settings, profile: Option<nat>, proxy: Option<nat>, file: nat, scope: nat)
    requires scope != 0 && (BrowserWindows in settings ==> settings[BrowserWindows] != Null)
    ensures var w := Created(map[SeedFile := Val(file)], settings, profile, proxy);
            var u1 := OfConfig(Given(map[ScopeType := Val(scope)]), false);
            var u2 := OfConfig(Given(map[SeedFile := Val(file)]), true);
            !Silent(w, u1) && Silent(After(w, u1), u2) && !AllRecoverable(After(After(w, u1), u2))
  {
    var w := Created(map[SeedFile := Val(file)], settings, profile, proxy);
    var u1 := OfConfig(Given(map[ScopeType := Val(scope)]), false);
    var u2 := OfConfig(Given(map[SeedFile := Val(file)]), true);
    hide SettingsChanged, HasEffect, NotFound, Recoverable, Snapshot;
    OfConfigIsStoredIff(w.setup, u1.config, false);
    assert (w.setup.config.value + u1.config.config)[ScopeType] == Val(scope);
    var w1 := After(w, u1);
    assert w1.setup.settings == settings;
    OfConfigIsStoredIff(w1.setup, u2.config, true);
    assert w1.setup.config.value + u2.config.config == w1.setup.config.value;
    CreatedIsRecoverable(map[SeedFile := Val(file)], settings, profile, proxy);
    UpdateKeepsRecoverableIff(w, u1);
    UpdateKeepsRecoverableIff(w1, u2);
  }

  // ------------------------------------------------------------------------------------------
  // What the refusals are for
  // ------------------------------------------------------------------------------------------

  predicate BothKindsOfSeeds(c: Config) {
    On(c, Seeds) && NamesSeedFile(c)
  }

  /** A config has seeds or a seed file but not both, and the content check has a profile. */
  predicate Promised(s: Setup) {
    s.config.Some? ==>
      && !BothKindsOfSeeds(s.config.value)
      && (On(s.config.value, FailOnContentCheck) ==> s.profile.Some?)
  }

  /** The update gives one kind of seeds and does not mention the other kind, which is stored. */
  predicate JoinsSeeds(s: Setup, u: Update)
    requires s.config.Some?
  {
    && u.config.Given?
    && var c := u.config.config;
       || (NamesSeedFile(c) && Seeds !in c && On(s.config.value, Seeds))
       || (On(c, Seeds) && SeedFile !in c && NamesSeedFile(s.config.value))
  }

  /** The profile goes and the content check stays: the profile is cleared and the given config does not
      mention the check, or the profile is set to null and the check is not turned off. */
  predicate DropsProfile(s: Setup, u: Update)
    requires s.config.Some?
  {
    && s.profile.Some?
    && match u.config
       case ExplicitNull => false
       case Unset => u.profile == Nulled && On(s.config.value, FailOnContentCheck)
       case Given(c) =>
         if FailOnContentCheck in c then u.profile == Nulled && On(c, FailOnContentCheck)
         else (u.profile == Nulled || u.profile == Cleared) && On(s.config.value, FailOnContentCheck)
  }

  predicate BreaksPromise(s: Setup, u: Update) {
    Stores(s, u) && (JoinsSeeds(s, u) || DropsProfile(s, u))
  }

  /** The refusals keep what they are for, but for two families of updates that get past them. */
  lemma PromiseKeptIff(w: Workflow, u: Update)
    requires Promised(w.setup)
    ensures Promised(After(w, u).setup) <==> !BreaksPromise(w.setup, u)
  {
    hide HasEffect, NotFound, TakesSnapshot, SettingsOf, Snapshot;
  }

  predicate NeverBreaks(w: Workflow, us: seq<Update>)
    decreases |us|
  {
    us == [] || (!BreaksPromise(w.setup, us[0]) && NeverBreaks(After(w, us[0]), us[1..]))
  }

  predicate AlwaysPromised(w: Workflow, us: seq<Update>)
    decreases |us|
  {
    Promised(w.setup) && (us == [] || AlwaysPromised(After(w, us[0]), us[1..]))
  }

  /** Over any run of updates, what the refusals are for holds all along if and only if no update is of
      those two families. */
  lemma {:induction false} PromiseAllAlongIff(w: Workflow, us: seq<Update>)
    requires Promised(w.setup)
    ensures AlwaysPromised(w, us) <==> NeverBreaks(w, us)
    decreases |us|
  {
    if us != [] {
      hide Promised, BreaksPromise, After;
      PromiseKeptIff(w, us[0]);
      if Promised(After(w, us[0]).setup) {
        PromiseAllAlongIff(After(w, us[0]), us[1..]);
      } else {
        NotPromisedNow(After(w, us[0]), us[1..]);
      }
    }
  }

  lemma NotPromisedNow(w: Workflow, us: seq<Update>)
    requires !Promised(w.setup)
    ensures !AlwaysPromised(w, us)
  {
  }
}
