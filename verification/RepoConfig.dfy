/** The tier vocabulary of a repo's `.github/retinue.yml` and its validators (retinue/repo_config.py). */
module RepoConfig {
  import opened Collections
  import opened Wrappers

  datatype RepoConfig = RepoConfig(
    severityTiers: seq<string>, priorityTiers: seq<string>, retryCap: int, maxParallel: Option<int>)

  const PRIORITY_LABEL_PREFIX: string := "priority:"

  /** By code point: 97 to 122 and 48 to 57. */
  predicate SlugChar(c: char): (slug: bool)
    ensures slug <==> 97 <= c as int < 123 || 48 <= c as int < 58
  {
    'a' <= c <= 'z' || '0' <= c <= '9'
  }

  /** `[a-z0-9]+(-[a-z0-9]+)*`, as the automaton that still owes a character after a hyphen. */
  predicate IsSlug(name: string, owed: bool := true) {
    if name == [] then !owed
    else if SlugChar(name[0]) then IsSlug(name[1..], false)
    else name[0] == '-' && !owed && IsSlug(name[1..], true)
  }

  /** What the expression admits: slug characters in groups joined by single hyphens, none at either end. */
  lemma {:induction false} SlugIs(name: string, owed: bool)
    ensures IsSlug(name, owed) <==>
      && (forall i | 0 <= i < |name| :: SlugChar(name[i]) || name[i] == '-')
      && (forall i | 0 < i < |name| :: SlugChar(name[i - 1]) || SlugChar(name[i]))
      && (if name == [] then !owed else SlugChar(name[|name| - 1]) && (owed ==> SlugChar(name[0])))
  {
    if name != [] {
      var rest := name[1..];
      SlugIs(rest, !SlugChar(name[0]));
      assert forall i | 0 <= i < |rest| :: rest[i] == name[i + 1];
      assert rest != [] ==> rest[|rest| - 1] == name[|name| - 1];
    }
  }

  predicate ValidSeverityTiers(tiers: seq<string>) {
    tiers != [] && Distinct(tiers) && forall t | t in tiers :: IsSlug(t)
  }

  /** `_validate_severity_tiers`: a list as long as its set, of slugs. */
  predicate TiersPass(tiers: seq<string>)
    ensures TiersPass(tiers) <==> ValidSeverityTiers(tiers)
  {
    DistinctSize(tiers);
    tiers != [] && |ToSet(tiers)| == |tiers| && forall t | t in tiers :: IsSlug(t)
  }

  predicate Validated(config: RepoConfig) {
    && ValidSeverityTiers(config.severityTiers)
    && config.priorityTiers <= config.severityTiers
    && config.retryCap >= 0
    && (config.maxParallel.Some? ==> config.maxParallel.value > 0)
  }

  /** `RepoConfig.model_validate` over these four fields: an accepted config, or the validation error. */
  function Load(severityTiers: seq<string>, priorityTiers: seq<string>, retryCap: int, maxParallel: Option<int>)
    : (r: Result<RepoConfig>)
    ensures r.Ok? <==> Validated(RepoConfig(severityTiers, priorityTiers, retryCap, maxParallel))
    ensures r.Ok? ==> r.value == RepoConfig(severityTiers, priorityTiers, retryCap, maxParallel)
  {
    if !TiersPass(severityTiers) then Raised
    else if retryCap < 0 || (maxParallel.Some? && maxParallel.value <= 0) then Raised
    else if priorityTiers != severityTiers[..if |priorityTiers| < |severityTiers| then |priorityTiers|
      else |severityTiers|]
      then Raised
    else Ok(RepoConfig(severityTiers, priorityTiers, retryCap, maxParallel))
  }

  function TierOf(config: RepoConfig, labels: seq<string>): (tier: Option<string>)
    ensures tier.Some? ==> tier.value in config.severityTiers && PRIORITY_LABEL_PREFIX + tier.value in labels
  {
    if labels == [] then None
    else
      var tier := if PRIORITY_LABEL_PREFIX <= labels[0] then labels[0][|PRIORITY_LABEL_PREFIX|..] else "";
      if PRIORITY_LABEL_PREFIX <= labels[0] && tier in config.severityTiers then
        assert PRIORITY_LABEL_PREFIX + tier == labels[0];
        Some(tier)
      else TierOf(config, labels[1..])
  }

  ghost predicate Names(config: RepoConfig, text: string, tier: string) {
    tier in config.severityTiers && text == PRIORITY_LABEL_PREFIX + tier
  }

  /** The tier is the one the first label naming any configured tier names; without such a label there is none. */
  lemma {:induction false} TierIsFirstNamed(config: RepoConfig, labels: seq<string>, i: nat, tier: string)
    requires i < |labels| && Names(config, labels[i], tier)
    requires forall j, t | 0 <= j < i && t in config.severityTiers :: !Names(config, labels[j], t)
    ensures TierOf(config, labels) == Some(tier)
  {
    var text := labels[0];
    if i == 0 {
      assert text[|PRIORITY_LABEL_PREFIX|..] == tier;
    } else {
      if PRIORITY_LABEL_PREFIX <= text {
        assert text == PRIORITY_LABEL_PREFIX + text[|PRIORITY_LABEL_PREFIX|..];
        assert !Names(config, labels[0], text[|PRIORITY_LABEL_PREFIX|..]);
      }
      assert forall j | 0 <= j < i - 1 :: labels[1..][j] == labels[j + 1];
      TierIsFirstNamed(config, labels[1..], i - 1, tier);
    }
  }

  function TierRank(config: RepoConfig, tier: Option<string>): nat {
    if tier.Some? && tier.value in config.severityTiers then IndexOf(config.severityTiers, tier.value)
    else |config.severityTiers|
  }

  /** A more severe tier has the smaller rank, its place in the list; no tier, or an unknown one, comes after all. */
  lemma TierRankIs(config: RepoConfig, i: nat)
    requires Validated(config) && i < |config.severityTiers|
    ensures TierRank(config, Some(config.severityTiers[i])) == i
    ensures forall t: Option<string> | t.None? || t.value !in config.severityTiers :: TierRank(config, t) > i
  {
  }

  predicate IsPriorityTier(config: RepoConfig, tier: Option<string>) {
    tier.Some? && tier.value in config.priorityTiers
  }

  /** In an accepted config the drop-everything range is exactly the ranks below its length. */
  lemma PriorityIsTopRanks(config: RepoConfig, tier: Option<string>)
    requires Validated(config)
    ensures IsPriorityTier(config, tier) <==> TierRank(config, tier) < |config.priorityTiers|
  {
    if tier.Some? && tier.value in config.severityTiers {
      var i := IndexOf(config.severityTiers, tier.value);
      if i < |config.priorityTiers| {
        assert config.priorityTiers[i] == tier.value;
      } else {
        assert forall j | 0 <= j < |config.priorityTiers| :: config.priorityTiers[j] == config.severityTiers[j];
      }
    }
  }
}
