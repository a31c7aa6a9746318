/**
 * The skill rule engine: given a rule configuration it decides which skills
 * apply to a file path (glob include/exclude lists) or to a prompt (keywords
 * and regular-expression intents), and ranks the matches by priority.
 *
 * Glob matching, regular expressions and JSON parsing are external libraries;
 * they enter the model as the functions held in `Matchers`. The configuration
 * file on disk enters as a `ConfigFile` value passed to the loading methods.
 */
module SkillRules {
  import opened Wrappers
  import opened Text
  import Ranking
  import Digraph

  datatype PromptTriggers = PromptTriggers(keywords: Option<seq<string>>, intents: Option<seq<string>>)

  datatype Exclusions = Exclusions(paths: Option<seq<string>>)

  /** One entry of the configuration; `kind`, `enforcement` and `priority` stay the raw strings. */
  datatype SkillRule = SkillRule(
    kind: string,
    enforcement: string,
    priority: string,
    pathPatterns: Option<seq<string>>,
    promptTriggers: Option<PromptTriggers>,
    exclusions: Option<Exclusions>)

  /** `skills` lists the entries of the configuration object in iteration order. */
  datatype RuleConfig = RuleConfig(version: string, skills: seq<(string, SkillRule)>)

  /** Skill names are object keys, so no name occurs twice. */
  predicate UniqueNames(skills: seq<(string, SkillRule)>) {
    forall i, j :: 0 <= i < j < |skills| ==> skills[i].0 != skills[j].0
  }

  type Config = c: RuleConfig | UniqueNames(c.skills) witness RuleConfig("1.0", [])

  /** What `loadConfig` returns when the file is missing or unreadable. */
  const DefaultConfig: Config := RuleConfig("1.0", [])

  /** Outcome of `new RegExp(pattern, 'i').test(prompt)`. */
  datatype RegexTest = CompileError | Tested(found: bool)

  /** The library functions the engine calls. */
  datatype Matchers = Matchers(
    glob: (string, string) -> bool,          // minimatch(path, pattern, { matchBase: true })
    regex: (string, string) -> RegexTest,    // new RegExp(pattern, 'i').test(prompt)
    parse: string -> Option<Config>)         // JSON.parse(content), None when it throws

  /** The configuration file as `fs` sees it at the moment of a call. */
  datatype ConfigFile = Missing | Present(mtime: int, content: string)

  datatype CacheEntry = CacheEntry(mtime: int, config: Config)

  /** The configuration a load with an empty cache produces. */
  function FreshConfig(file: ConfigFile, parse: string -> Option<Config>): Config {
    match file
    case Missing => DefaultConfig
    case Present(_, content) => if parse(content).Some? then parse(content).value else DefaultConfig
  }

  /**
   * The configuration and the cache after one `loadConfig`: a missing file or
   * a parse failure gives the default configuration and leaves the cache
   * alone; an entry with the file's modification time is used as it is;
   * otherwise the parsed file replaces the entry as a whole.
   */
  function LoadStep(file: ConfigFile, parse: string -> Option<Config>, cache: Option<CacheEntry>)
    : (r: (Config, Option<CacheEntry>))
    ensures file.Missing? ==> r == (DefaultConfig, cache)
    ensures file.Present? ==> r.1 == cache || r.1 == Some(CacheEntry(file.mtime, r.0))
    ensures file.Present? && cache.Some? && cache.value.mtime == file.mtime ==> r == (cache.value.config, cache)
    ensures file.Present? && (cache.None? || cache.value.mtime != file.mtime) ==>
              r == (if parse(file.content).Some? then (parse(file.content).value, Some(CacheEntry(file.mtime, parse(file.content).value)))
                    else (DefaultConfig, cache))
  {
    if file.Missing? then (DefaultConfig, cache)
    else if cache.Some? && cache.value.mtime == file.mtime then (cache.value.config, cache)
    else if parse(file.content).Some? then (parse(file.content).value, Some(CacheEntry(file.mtime, parse(file.content).value)))
    else (DefaultConfig, cache)
  }

  /** Loading twice from an unchanged file gives the same configuration and leaves the cache as the first load left it. */
  lemma LoadTwice(file: ConfigFile, parse: string -> Option<Config>, cache: Option<CacheEntry>)
    ensures var (c1, cache1) := LoadStep(file, parse, cache);
            var (c2, cache2) := LoadStep(file, parse, cache1);
            c2 == c1 && cache2 == cache1
  {
  }

  /** With an empty cache a load yields exactly the file's configuration. */
  lemma LoadFresh(file: ConfigFile, parse: string -> Option<Config>)
    ensures LoadStep(file, parse, None).0 == FreshConfig(file, parse)
  {
  }

  // ---------------------------------------------------------------------------
  // Matching, as specifications
  // ---------------------------------------------------------------------------

  predicate AnyGlob(glob: (string, string) -> bool, path: string, patterns: seq<string>) {
    exists k :: 0 <= k < |patterns| && glob(path, patterns[k])
  }

  /** `isExcluded`: some exclusion pattern matches the path. */
  predicate Excluded(m: Matchers, path: string, rule: SkillRule) {
    rule.exclusions.Some? && rule.exclusions.value.paths.Some?
    && AnyGlob(m.glob, path, rule.exclusions.value.paths.value)
  }

  /** A rule applies to a path: not excluded, and some path pattern matches. */
  predicate PathHit(m: Matchers, path: string, rule: SkillRule) {
    !Excluded(m, path, rule) && rule.pathPatterns.Some? && AnyGlob(m.glob, path, rule.pathPatterns.value)
  }

  /** Some keyword occurs in the prompt, both lower-cased. */
  predicate KeywordHit(prompt: string, triggers: PromptTriggers) {
    triggers.keywords.Some?
    && exists k :: 0 <= k < |triggers.keywords.value|
         && Contains(Lower(prompt), Lower(triggers.keywords.value[k]))
  }

  /** Some intent compiles and its case-insensitive regular expression matches the prompt. */
  predicate IntentHit(m: Matchers, prompt: string, triggers: PromptTriggers) {
    triggers.intents.Some?
    && exists k :: 0 <= k < |triggers.intents.value| && m.regex(triggers.intents.value[k], prompt) == Tested(true)
  }

  predicate PromptHit(m: Matchers, prompt: string, rule: SkillRule) {
    rule.promptTriggers.Some?
    && (KeywordHit(prompt, rule.promptTriggers.value) || IntentHit(m, prompt, rule.promptTriggers.value))
  }

  /** Names of the rules that apply to `path`, in configuration order. */
  function PathMatched(m: Matchers, path: string, skills: seq<(string, SkillRule)>): seq<string> {
    if skills == [] then []
    else
      var last := skills[|skills| - 1];
      PathMatched(m, path, skills[..|skills| - 1]) + (if PathHit(m, path, last.1) then [last.0] else [])
  }

  /** Names of the rules that apply to `prompt`, in configuration order. */
  function PromptMatched(m: Matchers, prompt: string, skills: seq<(string, SkillRule)>): seq<string> {
    if skills == [] then []
    else
      var last := skills[|skills| - 1];
      PromptMatched(m, prompt, skills[..|skills| - 1]) + (if PromptHit(m, prompt, last.1) then [last.0] else [])
  }

  // ---------------------------------------------------------------------------
  // Priority ranking
  // ---------------------------------------------------------------------------

  /** `priorityMap[priority] || 0`. */
  function Weight(priority: string): (w: int)
    ensures 0 <= w <= 4
    ensures w == 0 <==> priority !in {"critical", "high", "medium", "low"}
  {
    if priority == "critical" then 4
    else if priority == "high" then 3
    else if priority == "medium" then 2
    else if priority == "low" then 1
    else 0
  }

  function Lookup(skills: seq<(string, SkillRule)>, name: string): (r: Option<SkillRule>)
    ensures r.Some? <==> exists i :: 0 <= i < |skills| && skills[i].0 == name
    ensures r.Some? ==> exists i :: 0 <= i < |skills| && skills[i] == (name, r.value)
  {
    if skills == [] then None
    else if skills[0].0 == name then Some(skills[0].1)
    else
      var r := Lookup(skills[1..], name);
      if r.Some? then
        var i :| 0 <= i < |skills[1..]| && skills[1..][i] == (name, r.value);
        assert skills[i + 1] == (name, r.value);
        r
      else r
  }

  /** The weight the comparator of `sortByPriority` gives a name (0 for a name not configured). */
  function NameWeight(config: Config, name: string): int {
    match Lookup(config.skills, name)
    case Some(rule) => Weight(rule.priority)
    case None => 0
  }

  function PriorityKey(config: Config): string -> int {
    n => NameWeight(config, n)
  }

  lemma {:induction false} PathMatchedMembers(m: Matchers, path: string, skills: seq<(string, SkillRule)>, name: string)
    ensures name in PathMatched(m, path, skills)
        <==> exists i :: 0 <= i < |skills| && skills[i].0 == name && PathHit(m, path, skills[i].1)
    decreases |skills|
  {
    if skills != [] {
      var init := skills[..|skills| - 1];
      PathMatchedMembers(m, path, init, name);
      if exists i :: 0 <= i < |init| && init[i].0 == name && PathHit(m, path, init[i].1) {
        var i :| 0 <= i < |init| && init[i].0 == name && PathHit(m, path, init[i].1);
        assert skills[i] == init[i];
      }
    }
  }

  lemma {:induction false} PromptMatchedMembers(m: Matchers, prompt: string, skills: seq<(string, SkillRule)>, name: string)
    ensures name in PromptMatched(m, prompt, skills)
        <==> exists i :: 0 <= i < |skills| && skills[i].0 == name && PromptHit(m, prompt, skills[i].1)
    decreases |skills|
  {
    if skills != [] {
      var init := skills[..|skills| - 1];
      PromptMatchedMembers(m, prompt, init, name);
      if exists i :: 0 <= i < |init| && init[i].0 == name && PromptHit(m, prompt, init[i].1) {
        var i :| 0 <= i < |init| && init[i].0 == name && PromptHit(m, prompt, init[i].1);
        assert skills[i] == init[i];
      }
    }
  }

  /** Filtering the entries of a configuration keeps names unique. */
  lemma {:induction false} PathMatchedUnique(m: Matchers, path: string, skills: seq<(string, SkillRule)>)
    requires UniqueNames(skills)
    ensures Digraph.Distinct(PathMatched(m, path, skills))
    decreases |skills|
  {
    if skills != [] {
      var init, last := skills[..|skills| - 1], skills[|skills| - 1];
      PathMatchedUnique(m, path, init);
      PathMatchedMembers(m, path, init, last.0);
    }
  }

  lemma {:induction false} PromptMatchedUnique(m: Matchers, prompt: string, skills: seq<(string, SkillRule)>)
    requires UniqueNames(skills)
    ensures Digraph.Distinct(PromptMatched(m, prompt, skills))
    decreases |skills|
  {
    if skills != [] {
      var init, last := skills[..|skills| - 1], skills[|skills| - 1];
      PromptMatchedUnique(m, prompt, init);
      PromptMatchedMembers(m, prompt, init, last.0);
    }
  }

  /**
   * `sortByPriority`: a stable sort by descending priority weight. The result
   * is a permutation of the input, weights never increase along it, and names
   * of equal weight keep their relative order.
   */
  function SortByPriority(config: Config, names: seq<string>): (r: seq<string>)
    ensures multiset(r) == multiset(names)
    ensures forall i, j :: 0 <= i < j < |r| ==> NameWeight(config, r[i]) >= NameWeight(config, r[j])
    ensures forall w :: Ranking.WithKey(r, PriorityKey(config), w) == Ranking.WithKey(names, PriorityKey(config), w)
  {
    var key := PriorityKey(config);
    var r := Ranking.SortDesc(names, key);
    Ranking.SortDescSorted(names, key);
    assert forall w :: Ranking.WithKey(r, key, w) == Ranking.WithKey(names, key, w) by {
      forall w ensures Ranking.WithKey(r, key, w) == Ranking.WithKey(names, key, w) {
        Ranking.SortDescStable(names, key, w);
      }
    }
    r
  }

  // ---------------------------------------------------------------------------
  // The engine
  // ---------------------------------------------------------------------------

  class RuleEngine {
    const matchers: Matchers
    var config: Config
    var configCache: Option<CacheEntry>

    /** `new RuleEngine(projectRoot)`: the cache starts empty and the configuration is loaded once. */
    constructor (file: ConfigFile, matchers: Matchers)
      ensures this.matchers == matchers
      ensures config == FreshConfig(file, matchers.parse)
      ensures configCache.Some? <==> file.Present? && matchers.parse(file.content).Some?
      ensures configCache.Some? ==> configCache.value == CacheEntry(file.mtime, config)
    {
      this.matchers := matchers;
      configCache := None;
      config := DefaultConfig;
      new;
      config := LoadConfig(file);
    }

    /**
     * `loadConfig`: a missing file or a parse failure gives the default
     * configuration and leaves the cache alone; an entry with the file's
     * modification time is returned as it is; otherwise the file is parsed and
     * the cache entry replaced as a whole.
     */
    method LoadConfig(file: ConfigFile) returns (c: Config)
      modifies this`configCache
      ensures (c, configCache) == LoadStep(file, matchers.parse, old(configCache))
    {
      if file.Missing? {
        return DefaultConfig;
      }
      if configCache.Some? && configCache.value.mtime == file.mtime {
        return configCache.value.config;
      }
      var parsed := matchers.parse(file.content);
      if parsed.None? {
        return DefaultConfig;
      }
      configCache := Some(CacheEntry(file.mtime, parsed.value));
      c := parsed.value;
    }

    /** `reload`: drops the cache, so the configuration reflects the file whatever its modification time. */
    method Reload(file: ConfigFile)
      modifies this`configCache, this`config
      ensures config == FreshConfig(file, matchers.parse)
      ensures configCache.Some? <==> file.Present? && matchers.parse(file.content).Some?
      ensures configCache.Some? ==> configCache.value == CacheEntry(file.mtime, config)
    {
      configCache := None;
      config := LoadConfig(file);
    }

    /** `getSkillInfo`: the rule configured under `name`, if any. */
    function GetSkillInfo(name: string): (r: Option<SkillRule>)
      reads this
      ensures r.Some? <==> exists i :: 0 <= i < |config.skills| && config.skills[i].0 == name
      ensures r.Some? ==> exists i :: 0 <= i < |config.skills| && config.skills[i] == (name, r.value)
    {
      Lookup(config.skills, name)
    }

    /** `isExcluded`: stops at the first exclusion pattern that matches. */
    method IsExcluded(filePath: string, rule: SkillRule) returns (excluded: bool)
      ensures excluded == Excluded(matchers, filePath, rule)
    {
      if rule.exclusions.None? || rule.exclusions.value.paths.None? {
        return false;
      }
      var patterns := rule.exclusions.value.paths.value;
      var k := 0;
      while k < |patterns|
        invariant 0 <= k <= |patterns|
        invariant forall q :: 0 <= q < k ==> !matchers.glob(filePath, patterns[q])
      {
        if matchers.glob(filePath, patterns[k]) {
          return true;
        }
        k := k + 1;
      }
      return false;
    }

    /** `matchByPath`: the applicable rules, in configuration order, ranked by priority. */
    method MatchByPath(filePath: string) returns (names: seq<string>)
      ensures names == SortByPriority(config, PathMatched(matchers, filePath, config.skills))
    {
      var skills := config.skills;
      var matched: seq<string> := [];
      var i := 0;
      while i < |skills|
        invariant 0 <= i <= |skills|
        invariant matched == PathMatched(matchers, filePath, skills[..i])
      {
        var (name, rule) := skills[i];
        assert skills[..i + 1][..i] == skills[..i];
        var excluded := IsExcluded(filePath, rule);
        if !excluded && rule.pathPatterns.Some? {
          var patterns := rule.pathPatterns.value;
          var k := 0;
          while k < |patterns|
            invariant 0 <= k <= |patterns|
            invariant forall q :: 0 <= q < k ==> !matchers.glob(filePath, patterns[q])
          {
            if matchers.glob(filePath, patterns[k]) {
              matched := matched + [name];
              break;
            }
            k := k + 1;
          }
        }
        i := i + 1;
      }
      assert skills[..i] == skills;
      names := SortByPriority(config, matched);
    }

    /** `matchByPrompt`: keywords first, intents only when no keyword matched. */
    method MatchByPrompt(prompt: string) returns (names: seq<string>)
      ensures names == SortByPriority(config, PromptMatched(matchers, prompt, config.skills))
    {
      var skills := config.skills;
      var lowerPrompt := Lower(prompt);
      var matched: seq<string> := [];
      var i := 0;
      while i < |skills|
        invariant 0 <= i <= |skills|
        invariant matched == PromptMatched(matchers, prompt, skills[..i])
      {
        var (name, rule) := skills[i];
        assert skills[..i + 1][..i] == skills[..i];
        if rule.promptTriggers.Some? {
          var triggers := rule.promptTriggers.value;
          var hit := false;
          if triggers.keywords.Some? {
            var keywords := triggers.keywords.value;
            var k := 0;
            while k < |keywords|
              invariant 0 <= k <= |keywords|
              invariant hit ==> KeywordHit(prompt, triggers)
              invariant !hit ==> forall q :: 0 <= q < k ==> !Contains(lowerPrompt, Lower(keywords[q]))
            {
              if Contains(lowerPrompt, Lower(keywords[k])) {
                hit := true;
                break;
              }
              k := k + 1;
            }
          }
          if !hit && triggers.intents.Some? {
            var intents := triggers.intents.value;
            var k := 0;
            while k < |intents|
              invariant 0 <= k <= |intents|
              invariant hit ==> IntentHit(matchers, prompt, triggers)
              invariant !hit ==> forall q :: 0 <= q < k ==> matchers.regex(intents[q], prompt) != Tested(true)
            {
              // a pattern that fails to compile is reported and skipped
              var outcome := matchers.regex(intents[k], prompt);
              if outcome == Tested(true) {
                hit := true;
                break;
              }
              k := k + 1;
            }
          }
          if hit {
            matched := matched + [name];
          }
        }
        i := i + 1;
      }
      assert skills[..i] == skills;
      names := SortByPriority(config, matched);
    }
  }

  // ---------------------------------------------------------------------------
  // Properties of the results
  // ---------------------------------------------------------------------------

  /**
   * A name is in the result of `matchByPath` exactly when its rule has a path
   * pattern matching the path and no exclusion matching it; no name occurs twice.
   */
  lemma PathResult(m: Matchers, config: Config, path: string, names: seq<string>, name: string)
    requires multiset(names) == multiset(PathMatched(m, path, config.skills))
    ensures name in names <==> exists i :: 0 <= i < |config.skills| && config.skills[i].0 == name
                                            && PathHit(m, path, config.skills[i].1)
    ensures Digraph.Distinct(names)
  {
    PathMatchedMembers(m, path, config.skills, name);
    assert name in names <==> name in multiset(names);
    PathMatchedUnique(m, path, config.skills);
    Digraph.DistinctPermutation(PathMatched(m, path, config.skills), names);
  }

  /** Exclusion always wins: a rule whose exclusion matches the path is never in the result. */
  lemma ExclusionWins(m: Matchers, config: Config, path: string, names: seq<string>, i: int)
    requires multiset(names) == multiset(PathMatched(m, path, config.skills))
    requires 0 <= i < |config.skills| && Excluded(m, path, config.skills[i].1)
    ensures config.skills[i].0 !in names
  {
    PathResult(m, config, path, names, config.skills[i].0);
    forall j | 0 <= j < |config.skills| && config.skills[j].0 == config.skills[i].0
      ensures !PathHit(m, path, config.skills[j].1)
    {
      assert j == i;
    }
  }

  /**
   * A name is in the result of `matchByPrompt` exactly when its rule has
   * prompt triggers and a keyword or an intent matches; no name occurs twice.
   */
  lemma PromptResult(m: Matchers, config: Config, prompt: string, names: seq<string>, name: string)
    requires multiset(names) == multiset(PromptMatched(m, prompt, config.skills))
    ensures name in names <==> exists i :: 0 <= i < |config.skills| && config.skills[i].0 == name
                                            && PromptHit(m, prompt, config.skills[i].1)
    ensures Digraph.Distinct(names)
  {
    PromptMatchedMembers(m, prompt, config.skills, name);
    assert name in names <==> name in multiset(names);
    PromptMatchedUnique(m, prompt, config.skills);
    Digraph.DistinctPermutation(PromptMatched(m, prompt, config.skills), names);
  }

  /** With the default configuration (missing or malformed file) nothing ever matches. */
  lemma DefaultMatchesNothing(m: Matchers, path: string, prompt: string)
    ensures PathMatched(m, path, DefaultConfig.skills) == []
    ensures PromptMatched(m, prompt, DefaultConfig.skills) == []
  {
  }
}
