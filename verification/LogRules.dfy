/** Log rules (internal/models/log_rule.go, internal/logwatch/matcher.go). */
module LogRules {
  import opened Wrappers
  import opened Models

  datatype LogRule = LogRule(
    id: Id,
    container: string,
    pattern: string,
    matchType: string,
    enabled: bool,
    cooldownSec: int,
    disabledReason: Option<string>,
    lastMatchedAt: Option<int>)

  const SUBSTRING := "substring"
  const REGEX := "regex"

  /** Nanoseconds. */
  const SECOND := 1_000_000_000

  datatype RuleError = ContainerRequired | PatternRequired | InvalidRegex | UnknownMatchType | NegativeCooldown

  function Normalize(r: LogRule): LogRule {
    if r.matchType == "" then r.(matchType := SUBSTRING) else r
  }

  function Validate(r: LogRule, regexCompiles: string -> bool): Option<RuleError> {
    if r.container == "" then Some(ContainerRequired)
    else if r.pattern == "" then Some(PatternRequired)
    else if r.matchType == REGEX && !regexCompiles(r.pattern) then Some(InvalidRegex)
    else if r.matchType != REGEX && r.matchType != SUBSTRING then Some(UnknownMatchType)
    else if r.cooldownSec < 0 then Some(NegativeCooldown)
    else None
  }

  /** NewMatcher succeeds. */
  predicate Compiles(r: LogRule, regexCompiles: string -> bool) {
    r.matchType == SUBSTRING || (r.matchType == REGEX && regexCompiles(r.pattern))
  }

  /** Which rules are taken, and that each of them compiles; an omitted match type is a substring match. */
  lemma TakenRules(r: LogRule, regexCompiles: string -> bool)
    ensures Validate(Normalize(r), regexCompiles).None? <==>
      && r.container != "" && r.pattern != "" && r.cooldownSec >= 0
      && (r.matchType == "" || r.matchType == "substring" || (r.matchType == "regex" && regexCompiles(r.pattern)))
    ensures Validate(Normalize(r), regexCompiles).None? ==> Compiles(Normalize(r), regexCompiles)
    ensures Normalize(r) == r.(matchType := if r.matchType == "" then "substring" else r.matchType)
  {
  }

  /** A signed 64-bit machine word. */
  function Wrap64(x: int): (w: int)
    ensures -0x8000_0000_0000_0000 <= w < 0x8000_0000_0000_0000
    ensures -0x8000_0000_0000_0000 <= x < 0x8000_0000_0000_0000 ==> w == x
    ensures (w - x) % 0x1_0000_0000_0000_0000 == 0
  {
    (x + 0x8000_0000_0000_0000) % 0x1_0000_0000_0000_0000 - 0x8000_0000_0000_0000
  }

  /** The cooldown as a time.Duration: the product is a 64-bit multiplication and wraps. */
  function Cooldown(cooldownSec: int): int {
    if cooldownSec <= 0 then 60 * SECOND else Wrap64(cooldownSec * SECOND)
  }

  /** The largest number of seconds a time.Duration holds. */
  const MAX_SECONDS := 9_223_372_036

  /** The cooldown means its seconds exactly from one up to the longest duration; one second more wraps to a negative one. */
  lemma CooldownMeaning(cooldownSec: int)
    ensures Cooldown(cooldownSec) == cooldownSec * SECOND <==> 0 < cooldownSec <= MAX_SECONDS
    ensures cooldownSec <= 0 ==> Cooldown(cooldownSec) == 60 * SECOND
    ensures Cooldown(MAX_SECONDS + 1) < 0
  {
  }
}
